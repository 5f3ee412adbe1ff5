/**
 Sub-byte scalar types: the largest value of a small floating-point format as a
 binary64 bit pattern, and the packing of a type into an integer id.
 */
module ScalarTypes {
  import opened Wrappers
  import opened Bits

  datatype NanRepr = NoNans | Ieee754 | ExtdRangeMaxMin {
    function Code(): nat {
      match this case NoNans => 0 case Ieee754 => 1 case ExtdRangeMaxMin => 2
    }
  }

  datatype ScalarType = ScalarType(
    exponent: int,
    mantissa: int,
    signed: bool,
    bias: int,
    finiteValuesOnly: bool,
    nanRepr: NanRepr)

  // ------------------------------------------------------- floating-point formats

  /** The exponent bias of a format with e exponent bits. */
  function Bias(e: nat): nat
    requires e >= 1
  {
    Pow2(e - 1) - 1
  }

  /** The value of a non-negative number with exponent field x and mantissa field y, in
      a format of e exponent and m mantissa bits, counted in units of 2^-1074, the
      least positive binary64 number. */
  function Units(e: nat, m: nat, x: nat, y: nat): nat
    requires 1 <= e <= 11 && m <= 52
  {
    BiasBound(e);
    Significand(m, x, y) * Pow2(1075 - Bias(e) - m)
  }

  /** The significand times the power of its exponent field: without the hidden bit in
      the subnormal range. */
  function Significand(m: nat, x: nat, y: nat): nat {
    if x == 0 then y else (Pow2(m) + y) * Pow2(x - 1)
  }

  lemma BiasBound(e: nat)
    requires 1 <= e <= 11
    ensures Bias(e) <= 1023
  {
    Pow2Monotone(e - 1, 10);
  }

  /** The fields that encode finite numbers under a NaN convention. */
  ghost predicate FiniteFields(t: ScalarType, x: nat, y: nat)
    requires t.exponent >= 1 && t.mantissa >= 0
  {
    && x < Pow2(t.exponent) && y < Pow2(t.mantissa)
    && match t.nanRepr
       case NoNans => true
       case Ieee754 => x != Pow2(t.exponent) - 1
       case ExtdRangeMaxMin => !(x == Pow2(t.exponent) - 1 && y == Pow2(t.mantissa) - 1)
  }

  /** u is the greatest value with finite fields in the format of t. */
  ghost predicate IsGreatestFinite(t: ScalarType, u: nat)
    requires 1 <= t.exponent <= 11 && 0 <= t.mantissa <= 52
  {
    && (exists x, y :: FiniteFields(t, x, y) && Units(t.exponent, t.mantissa, x, y) == u)
    && (forall x, y :: FiniteFields(t, x, y) ==> Units(t.exponent, t.mantissa, x, y) <= u)
  }

  const TwoTo52: nat := 0x10_0000_0000_0000
  const TwoTo63: nat := 0x8000_0000_0000_0000

  function ExponentField(bits: nat): nat {
    bits / TwoTo52 % 2048
  }

  function MantissaField(bits: nat): nat {
    bits % TwoTo52
  }

  /** A 64-bit pattern as a binary64 number: its value in units of 2^-1074, None for an
      infinity or a NaN. */
  function DecodeDouble(bits: nat): Option<int> {
    if ExponentField(bits) == 2047 then None
    else
      var u: int := Units(11, 52, ExponentField(bits), MantissaField(bits));
      Some(if bits / TwoTo63 == 1 then -u else u)
  }

  // --------------------------------------------------------------- max and min

  /** Where the assertions of the source let the computation through. */
  predicate MaxAccepted(t: ScalarType) {
    t.mantissa <= 52 && t.exponent <= 11 && (t.nanRepr == Ieee754 || t.exponent < 11)
  }

  function MaxMantissa(t: ScalarType): nat
    requires t.mantissa >= 1
  {
    if t.nanRepr == ExtdRangeMaxMin then Pow2(t.mantissa) - 2 else Pow2(t.mantissa) - 1
  }

  function MaxExponent(t: ScalarType): nat
    requires t.exponent >= 1
  {
    if t.nanRepr == Ieee754 then Pow2(t.exponent) - 2 else Pow2(t.exponent) - 1
  }

  /** The binary64 pattern of the largest value; None for a failed assertion. */
  function FloatingPointMaxInt(t: ScalarType): Option<nat>
    requires t.exponent >= 1 && t.mantissa >= 1
  {
    if !MaxAccepted(t) then None
    else
      BiasBound(t.exponent);
      var exponentDouble := MaxExponent(t) - Bias(t.exponent) + Bias(11);
      ExponentDoubleBounds(t);
      Some(BitOr(ShiftLeft(MaxMantissa(t), 52 - t.mantissa), ShiftLeft(exponentDouble, 52)))
  }

  function FloatingPointMinInt(t: ScalarType): Option<nat>
    requires t.exponent >= 1 && t.mantissa >= 1
  {
    match FloatingPointMaxInt(t)
    case None => None
    case Some(bits) => Some(BitOr(bits, ShiftLeft(1, 63)))
  }

  lemma ExponentDoubleBounds(t: ScalarType)
    requires 1 <= t.exponent <= 11 && (t.nanRepr == Ieee754 || t.exponent < 11)
    ensures Bias(11) == 1023
    ensures 1 <= MaxExponent(t) - Bias(t.exponent) + Bias(11) <= 2046
  {
    Pow2Monotone(t.exponent, 11);
    BiasBound(t.exponent);
    assert Pow2(t.exponent) == 2 * Pow2(t.exponent - 1);
    if t.exponent < 11 {
      Pow2Monotone(t.exponent, 10);
    }
    assert Pow2(10) == 1024 && Pow2(11) == 2048;
  }

  // ------------------------------------------------ the pattern is the right number

  /** A pattern put together from its fields decodes to them. */
  lemma FieldsOfPattern(x: nat, y: nat, sign: nat)
    requires y < TwoTo52 && x < 2048 && sign <= 1
    ensures var bits := y + x * TwoTo52 + sign * TwoTo63;
            ExponentField(bits) == x && MantissaField(bits) == y && bits / TwoTo63 == sign && bits < 2 * TwoTo63
  {
  }

  /** Decoding a pattern with a sign, an exponent field below 2047 and a mantissa field. */
  lemma DecodeFields(x: nat, y: nat, sign: nat)
    requires y < TwoTo52 && x < 2047 && sign <= 1
    ensures DecodeDouble(y + x * TwoTo52 + sign * TwoTo63)
            == Some(if sign == 1 then -(Units(11, 52, x, y) as int) else Units(11, 52, x, y))
  {
    FieldsOfPattern(x, y, sign);
    hide Units, ExponentField, MantissaField;
  }

  lemma KnownPowers()
    ensures Pow2(52) == TwoTo52 && Pow2(63) == TwoTo63 && Pow2(11) == 2048 && Pow2(10) == 1024 && Pow2(0) == 1
    ensures Bias(11) == 1023
  {
    assert Pow2(10) == 1024 && Pow2(11) == 2048 && Pow2(0) == 1;
    LargePowers();
  }

  lemma LargePowers()
    ensures Pow2(52) == TwoTo52 && Pow2(63) == TwoTo63
  {
    assert Pow2(2) == 4 && Pow2(10) == 1024 && Pow2(11) == 2048;
    hide *;
    Pow2Sum(10, 10);
    Pow2Sum(20, 20);
    Pow2Sum(40, 10);
    Pow2Sum(50, 2);
    Pow2Sum(52, 11);
  }

  /** The fields of the maximum, widened to binary64, keep the value. */
  lemma WideningKeepsValue(e: nat, m: nat, x: nat, y: nat)
    requires 1 <= e <= 11 && 1 <= m <= 52 && 1 <= x && Bias(e) <= 1023
    ensures Units(e, m, x, y) == Units(11, 52, x + 1023 - Bias(e), ShiftLeft(y, 52 - m))
  {
    var b := Bias(e);
    KnownPowers();
    Pow2Sum(m, 52 - m);
    Pow2Sum(52 - m, x - b + 1022);
    Pow2Sum(x - 1, 1075 - b - m);
    assert 52 - m + (x - b + 1022) == x - 1 + (1075 - b - m);
    Rescale(Pow2(m), y, Pow2(52 - m), Pow2(x - b + 1022), Pow2(x - 1), Pow2(1075 - b - m));
  }

  lemma Rescale(p: nat, y: nat, shift: nat, up: nat, here: nat, unit: nat)
    requires shift * up == here * unit
    ensures (p + y) * here * unit == (p * shift + y * shift) * up
  {
    assert (p + y) * here * unit == (p + y) * (here * unit);
    assert (p * shift + y * shift) == (p + y) * shift;
    assert (p + y) * shift * up == (p + y) * (shift * up);
  }

  // ------------------------------------------- the pattern is the greatest number

  /** A value stays below the power of two that its exponent field announces. */
  lemma SignificandBelow(m: nat, x: nat, y: nat)
    requires y < Pow2(m)
    ensures Significand(m, x, y) <= Pow2(m + x)
  {
    Pow2Sum(m, x);
    if x > 0 {
      MulMonotone(Pow2(m) + y, 2 * Pow2(m), Pow2(x - 1));
      Reassociate(Pow2(m), Pow2(x - 1));
    }
  }

  lemma Reassociate(a: int, b: int)
    ensures 2 * a * b == a * (2 * b)
  {
  }

  lemma SignificandAbove(m: nat, x: nat, y: nat)
    requires x > 0
    ensures Significand(m, x, y) >= Pow2(m + x - 1)
  {
    Pow2Sum(m, x - 1);
    MulMonotone(Pow2(m), Pow2(m) + y, Pow2(x - 1));
  }

  /** Later fields, in the order of exponent and then mantissa, stand for greater values. */
  lemma SignificandMonotone(m: nat, x: nat, y: nat, x': nat, y': nat)
    requires y < Pow2(m)
    requires x < x' || (x == x' && y <= y')
    ensures Significand(m, x, y) <= Significand(m, x', y')
  {
    if x == x' {
      hide Pow2;
      if x > 0 {
        MulMonotone(Pow2(m) + y, Pow2(m) + y', Pow2(x - 1));
      }
    } else {
      hide *;
      SignificandBelow(m, x, y);
      SignificandAbove(m, x', y');
      Pow2Monotone(m + x, m + x' - 1);
    }
  }

  lemma UnitsMonotone(e: nat, m: nat, x: nat, y: nat, x': nat, y': nat)
    requires 1 <= e <= 11 && m <= 52 && y < Pow2(m)
    requires x < x' || (x == x' && y <= y')
    ensures Units(e, m, x, y) <= Units(e, m, x', y')
  {
    BiasBound(e);
    SignificandMonotone(m, x, y, x', y');
    MulMonotone(Significand(m, x, y), Significand(m, x', y'), Pow2(1075 - Bias(e) - m));
  }

  /** The fields of the maximum are finite, and the last finite ones. */
  lemma MaxFieldsAreLast(t: ScalarType)
    requires 1 <= t.exponent <= 11 && 1 <= t.mantissa <= 52
    ensures FiniteFields(t, MaxExponent(t), MaxMantissa(t))
    ensures forall x, y :: FiniteFields(t, x, y) ==>
              Units(t.exponent, t.mantissa, x, y) <= Units(t.exponent, t.mantissa, MaxExponent(t), MaxMantissa(t))
  {
    Pow2Monotone(1, t.mantissa);
    Pow2Monotone(1, t.exponent);
    assert Pow2(1) == 2;
    forall x, y | FiniteFields(t, x, y)
      ensures Units(t.exponent, t.mantissa, x, y) <= Units(t.exponent, t.mantissa, MaxExponent(t), MaxMantissa(t))
    {
      UnitsMonotone(t.exponent, t.mantissa, x, y, MaxExponent(t), MaxMantissa(t));
    }
  }

  lemma ShiftedMantissaFits(t: ScalarType)
    requires 1 <= t.mantissa <= 52
    ensures ShiftLeft(MaxMantissa(t), 52 - t.mantissa) < TwoTo52
  {
    KnownPowers();
    Pow2Sum(t.mantissa, 52 - t.mantissa);
    assert MaxMantissa(t) + 1 <= Pow2(t.mantissa);
    hide *;
    MulMonotone(MaxMantissa(t) + 1, Pow2(t.mantissa), Pow2(52 - t.mantissa));
    Distribute(MaxMantissa(t), Pow2(52 - t.mantissa));
  }

  lemma Distribute(a: int, b: int)
    ensures (a + 1) * b == a * b + b
  {
  }

  /** What the pattern of the maximum decodes to: its fields, widened to binary64. */
  lemma PatternOfMax(t: ScalarType)
    requires t.exponent >= 1 && t.mantissa >= 1 && MaxAccepted(t)
    ensures 1 <= MaxExponent(t) - Bias(t.exponent) + 1023 <= 2046
    ensures ShiftLeft(MaxMantissa(t), 52 - t.mantissa) < TwoTo52
    ensures FloatingPointMaxInt(t) ==
            Some(ShiftLeft(MaxMantissa(t), 52 - t.mantissa) + (MaxExponent(t) - Bias(t.exponent) + 1023) * TwoTo52)
  {
    hide Pow2, BitOr, Bias, MaxExponent;
    ExponentDoubleBounds(t);
    ShiftedMantissaFits(t);
    assert Pow2(52) == TwoTo52 by {
      KnownPowers();
    }
    OrShifted(ShiftLeft(MaxMantissa(t), 52 - t.mantissa), MaxExponent(t) - Bias(t.exponent) + 1023, 52);
  }

  /** The value the pattern of the maximum stands for, in units of 2^-1074. */
  function MaxUnits(t: ScalarType): nat
    requires t.exponent >= 1 && t.mantissa >= 1 && MaxAccepted(t)
  {
    PatternOfMax(t);
    Units(11, 52, MaxExponent(t) - Bias(t.exponent) + 1023, ShiftLeft(MaxMantissa(t), 52 - t.mantissa))
  }

  lemma MaxDecodes(t: ScalarType)
    requires t.exponent >= 1 && t.mantissa >= 1 && MaxAccepted(t)
    ensures FloatingPointMaxInt(t).Some? && FloatingPointMaxInt(t).value < TwoTo63
    ensures DecodeDouble(FloatingPointMaxInt(t).value) == Some(MaxUnits(t))
  {
    hide Pow2, BitOr, Bias, MaxExponent, MaxMantissa, FloatingPointMaxInt, Units, DecodeDouble;
    PatternOfMax(t);
    DecodeFields(MaxExponent(t) - Bias(t.exponent) + 1023, ShiftLeft(MaxMantissa(t), 52 - t.mantissa), 0);
  }

  /** With a single exponent bit and IEEE rules every finite number is subnormal, and the
      pattern, built as for a normal number, lies above them all. */
  lemma OneExponentBitOvershoots(t: ScalarType)
    requires t.exponent == 1 && t.nanRepr == Ieee754 && 1 <= t.mantissa <= 52
    ensures Units(1, t.mantissa, MaxExponent(t), MaxMantissa(t)) < MaxUnits(t)
  {
    hide *;
    MaxOfOneExponentBit(t);
    SmallestNormalUnits(t.mantissa);
    LargestSubnormalUnits(t.mantissa);
    Overshoot(Pow2(t.mantissa), Pow2(52 - t.mantissa), Pow2(1022));
  }

  lemma MaxOfOneExponentBit(t: ScalarType)
    requires t.exponent == 1 && t.nanRepr == Ieee754 && 1 <= t.mantissa <= 52
    ensures MaxExponent(t) == 0 && MaxMantissa(t) == Pow2(t.mantissa) - 1
    ensures MaxUnits(t) == Units(11, 52, 1023, ShiftLeft(Pow2(t.mantissa) - 1, 52 - t.mantissa))
  {
    assert Bias(1) == 0;
    hide Units;
  }

  lemma SmallestNormalUnits(m: nat)
    requires 1 <= m <= 52
    ensures Units(11, 52, 1023, ShiftLeft(Pow2(m) - 1, 52 - m))
            == (Pow2(m) * Pow2(52 - m) + (Pow2(m) - 1) * Pow2(52 - m)) * Pow2(1022)
  {
    KnownPowers();
    Pow2Sum(m, 52 - m);
    var y := ShiftLeft(Pow2(m) - 1, 52 - m);
    hide Pow2;
    assert Significand(52, 1023, y) == (Pow2(52) + y) * Pow2(1022);
  }

  lemma LargestSubnormalUnits(m: nat)
    requires 1 <= m <= 52
    ensures Units(1, m, 0, Pow2(m) - 1) == (Pow2(m) - 1) * (Pow2(52 - m) * (2 * Pow2(1022)))
  {
    assert Bias(1) == 0;
    Pow2Sum(52 - m, 1023);
    assert Pow2(1023) == 2 * Pow2(1022);
    assert Significand(m, 0, Pow2(m) - 1) == Pow2(m) - 1;
  }

  lemma Overshoot(p: nat, shift: nat, up: nat)
    requires p >= 1 && shift >= 1 && up >= 1
    ensures (p - 1) * (shift * (2 * up)) < (p * shift + (p - 1) * shift) * up
  {
    assert (p - 1) * (shift * (2 * up)) == (2 * p - 2) * (shift * up);
    assert p * shift + (p - 1) * shift == (2 * p - 1) * shift;
    assert (2 * p - 1) * shift * up == (2 * p - 1) * (shift * up);
    assert shift * up >= 1;
  }

  /** The assertions let through what fits into binary64. The constructed pattern is then
      a finite binary64 number, and it is the greatest finite value of the format unless
      the format follows IEEE 754 with one exponent bit. */
  lemma MaxIsGreatest(t: ScalarType)
    requires t.exponent >= 1 && t.mantissa >= 1
    ensures FloatingPointMaxInt(t).Some? <==>
              t.mantissa <= 52 && (t.exponent <= 10 || (t.exponent == 11 && t.nanRepr == Ieee754))
    ensures FloatingPointMaxInt(t).Some? ==>
              var decoded := DecodeDouble(FloatingPointMaxInt(t).value);
              && decoded.Some? && decoded.value >= 0
              && (IsGreatestFinite(t, decoded.value) <==> !(t.exponent == 1 && t.nanRepr == Ieee754))
  {
    assert FloatingPointMaxInt(t).Some? <==> MaxAccepted(t);
    if MaxAccepted(t) {
      AcceptedMaxIsGreatest(t);
    }
  }

  lemma AcceptedMaxIsGreatest(t: ScalarType)
    requires t.exponent >= 1 && t.mantissa >= 1 && MaxAccepted(t)
    ensures FloatingPointMaxInt(t).Some?
    ensures var decoded := DecodeDouble(FloatingPointMaxInt(t).value);
            && decoded.Some? && decoded.value >= 0
            && (IsGreatestFinite(t, decoded.value) <==> !(t.exponent == 1 && t.nanRepr == Ieee754))
  {
    hide FloatingPointMaxInt, DecodeDouble, MaxUnits, Pow2, Units, FiniteFields, MaxExponent, MaxMantissa, Bias;
    MaxDecodes(t);
    MaxFieldsAreLast(t);
    if t.exponent == 1 && t.nanRepr == Ieee754 {
      OneExponentBitOvershoots(t);
    } else {
      MaxKeepsValue(t);
    }
  }

  lemma MaxKeepsValue(t: ScalarType)
    requires t.exponent >= 1 && t.mantissa >= 1 && MaxAccepted(t)
    requires !(t.exponent == 1 && t.nanRepr == Ieee754)
    ensures MaxUnits(t) == Units(t.exponent, t.mantissa, MaxExponent(t), MaxMantissa(t))
  {
    hide Units, ShiftLeft, MaxMantissa;
    BiasBound(t.exponent);
    Pow2Monotone(if t.exponent == 1 then 1 else 2, t.exponent);
    assert Pow2(1) == 2 && Pow2(2) == 4;
    WideningKeepsValue(t.exponent, t.mantissa, MaxExponent(t), MaxMantissa(t));
  }

  lemma SignBit()
    ensures ShiftLeft(1, 63) == TwoTo63
  {
    KnownPowers();
  }

  lemma PatternOfMin(t: ScalarType)
    requires t.exponent >= 1 && t.mantissa >= 1 && MaxAccepted(t)
    ensures FloatingPointMinInt(t) == Some(FloatingPointMaxInt(t).value + TwoTo63)
  {
    hide Pow2, BitOr, Units, Bias, MaxExponent, MaxMantissa, DecodeDouble, ShiftLeft;
    MaxDecodes(t);
    SignBit();
    assert Pow2(63) == TwoTo63 by {
      KnownPowers();
    }
    OrShifted(FloatingPointMaxInt(t).value, 1, 63);
  }

  lemma MinDecodes(t: ScalarType)
    requires t.exponent >= 1 && t.mantissa >= 1 && MaxAccepted(t)
    ensures DecodeDouble(FloatingPointMaxInt(t).value + TwoTo63) == Some(-(MaxUnits(t) as int))
  {
    hide Pow2, BitOr, Units, Bias, MaxExponent, MaxMantissa, DecodeDouble, ShiftLeft, FloatingPointMaxInt;
    PatternOfMax(t);
    DecodeFields(MaxExponent(t) - Bias(t.exponent) + 1023, ShiftLeft(MaxMantissa(t), 52 - t.mantissa), 1);
  }

  /** Setting the sign bit negates: the minimum is the negation of the maximum, and both
      are patterns of 64 bits. */
  lemma MinIsNegatedMax(t: ScalarType)
    requires t.exponent >= 1 && t.mantissa >= 1 && MaxAccepted(t)
    ensures FloatingPointMaxInt(t).Some? && FloatingPointMinInt(t).Some?
    ensures FloatingPointMinInt(t).value < 2 * TwoTo63
    ensures DecodeDouble(FloatingPointMaxInt(t).value).Some?
    ensures DecodeDouble(FloatingPointMinInt(t).value) == Some(-DecodeDouble(FloatingPointMaxInt(t).value).value)
  {
    hide FloatingPointMinInt, FloatingPointMaxInt, DecodeDouble, MaxUnits;
    MaxDecodes(t);
    PatternOfMin(t);
    MinDecodes(t);
  }

  // --------------------------------------------------------------------- the id

  /** Fields that fit the widths the id gives them. */
  predicate Fits(t: ScalarType) {
    0 <= t.exponent < 0x100 && 0 <= t.mantissa < 0x100 && 0 <= t.bias < 0x1_0000_0000
  }

  function BoolBit(b: bool): nat {
    if b then 1 else 0
  }

  /** The id as a sum of its fields, each reduced to its width and set above the last. */
  function PackedId(t: ScalarType): (id: nat)
  {
    t.exponent % 0x100
    + t.mantissa % 0x100 * 0x100
    + BoolBit(t.signed) * 0x1_0000
    + t.bias % 0x1_0000_0000 * 0x2_0000
    + BoolBit(t.finiteValuesOnly) * 0x2_0000_0000_0000
    + t.nanRepr.Code() * 0x4_0000_0000_0000
  }

  function NanReprOf(code: nat): NanRepr {
    if code == 0 then NoNans else if code == 1 then Ieee754 else ExtdRangeMaxMin
  }

  /** The fields read back from an id. */
  function Unpack(id: nat): ScalarType {
    ScalarType(
      id % 0x100,
      id / 0x100 % 0x100,
      id / 0x1_0000 % 2 == 1,
      id / 0x2_0000 % 0x1_0000_0000,
      id / 0x2_0000_0000_0000 % 2 == 1,
      NanReprOf(id / 0x4_0000_0000_0000))
  }

  /** Every field comes back, up to its width; the id takes 58 bits. */
  lemma UnpackRecovers(t: ScalarType)
    ensures PackedId(t) < 0x400_0000_0000_0000
    ensures Unpack(PackedId(t)) == t.(exponent := t.exponent % 0x100, mantissa := t.mantissa % 0x100,
                                      bias := t.bias % 0x1_0000_0000)
  {
    Separate(t.exponent % 0x100, t.mantissa % 0x100, BoolBit(t.signed), t.bias % 0x1_0000_0000,
             BoolBit(t.finiteValuesOnly), t.nanRepr.Code());
  }

  lemma Separate(a: nat, b: nat, c: nat, d: nat, e: nat, f: nat)
    requires a < 0x100 && b < 0x100 && c < 2 && d < 0x1_0000_0000 && e < 2 && f < 0x100
    ensures var id := a + b * 0x100 + c * 0x1_0000 + d * 0x2_0000 + e * 0x2_0000_0000_0000 + f * 0x4_0000_0000_0000;
            && id < 0x400_0000_0000_0000
            && id % 0x100 == a
            && id / 0x100 % 0x100 == b
            && id / 0x1_0000 % 2 == c
            && id / 0x2_0000 % 0x1_0000_0000 == d
            && id / 0x2_0000_0000_0000 % 2 == e
            && id / 0x4_0000_0000_0000 == f
  {
    var id := a + b * 0x100 + c * 0x1_0000 + d * 0x2_0000 + e * 0x2_0000_0000_0000 + f * 0x4_0000_0000_0000;
    var fromE := e + f * 2;
    var fromD := d + fromE * 0x1_0000_0000;
    var fromC := c + fromD * 2;
    var fromB := b + fromC * 0x100;
    ModuloUnique(id, 0x100, fromB, a);
    ModuloUnique(fromB, 0x100, fromC, b);
    ModuloUnique(id, 0x1_0000, fromC, a + b * 0x100);
    ModuloUnique(fromC, 2, fromD, c);
    ModuloUnique(id, 0x2_0000, fromD, a + b * 0x100 + c * 0x1_0000);
    ModuloUnique(fromD, 0x1_0000_0000, fromE, d);
    ModuloUnique(id, 0x2_0000_0000_0000, fromE, a + b * 0x100 + c * 0x1_0000 + d * 0x2_0000);
    ModuloUnique(fromE, 2, f, e);
    ModuloUnique(id, 0x4_0000_0000_0000, f, id - f * 0x4_0000_0000_0000);
  }

  /** Two types share an id exactly when every field agrees up to its width. */
  lemma SameIdExactly(t: ScalarType, u: ScalarType)
    ensures PackedId(t) == PackedId(u)
       <==> && t.exponent % 0x100 == u.exponent % 0x100
            && t.mantissa % 0x100 == u.mantissa % 0x100
            && t.signed == u.signed
            && t.bias % 0x1_0000_0000 == u.bias % 0x1_0000_0000
            && t.finiteValuesOnly == u.finiteValuesOnly
            && t.nanRepr == u.nanRepr
  {
    hide Unpack;
    UnpackRecovers(t);
    UnpackRecovers(u);
  }

  /** On types whose fields fit, the id is injective. */
  lemma FittingIdsAreInjective(t: ScalarType, u: ScalarType)
    requires Fits(t) && Fits(u)
    ensures PackedId(t) == PackedId(u) <==> t == u
  {
    SameIdExactly(t, u);
  }

  /** The bits of a field, masked and set at an offset above the bits in use. */
  lemma FieldOred(val: nat, member: int, offset: nat, width: nat)
    requires val < Pow2(offset)
    ensures BitOr(val, ShiftLeft(BitAnd(member, Pow2(width) - 1), offset))
            == val + member % Pow2(width) * Pow2(offset)
    ensures val + member % Pow2(width) * Pow2(offset) < Pow2(offset + width)
  {
    AndMask(member, width);
    OrShifted(val, member % Pow2(width), offset);
    Pow2Sum(width, offset);
    MulMonotone(member % Pow2(width) + 1, Pow2(width), Pow2(offset));
    Distribute(member % Pow2(width), Pow2(offset));
  }

  lemma IdPowers()
    ensures Pow2(0) == 1 && Pow2(1) == 2 && Pow2(8) == 0x100 && Pow2(16) == 0x1_0000 && Pow2(17) == 0x2_0000
    ensures Pow2(32) == 0x1_0000_0000 && Pow2(49) == 0x2_0000_0000_0000 && Pow2(50) == 0x4_0000_0000_0000
  {
    assert Pow2(8) == 0x100;
    Pow2Sum(8, 8);
    Pow2Sum(16, 16);
    Pow2Sum(32, 16);
    Pow2Sum(48, 1);
    Pow2Sum(48, 2);
    assert Pow2(2) == 4 && Pow2(17) == 2 * Pow2(16);
  }

  const Float8E4M3fn := ScalarType(4, 3, true, 0, true, ExtdRangeMaxMin)
  const Float8E5M2 := ScalarType(5, 2, true, 0, false, Ieee754)
  const Float16 := ScalarType(5, 10, true, 0, false, Ieee754)
  const Uint4b8 := ScalarType(0, 4, false, 8, false, Ieee754)

  /** Known formats: their greatest values are 448, 57344 and 65504. */
  lemma NamedMaxima()
    ensures MaxUnits(Float8E4M3fn) == 448 * Pow2(1074)
    ensures MaxUnits(Float8E5M2) == 57344 * Pow2(1074)
    ensures MaxUnits(Float16) == 65504 * Pow2(1074)
  {
    hide MaxUnits, Units, Pow2, Bias;
    SmallPowers();
    MaxKeepsValue(Float8E4M3fn);
    MaxKeepsValue(Float8E5M2);
    MaxKeepsValue(Float16);
    UnitsFromOne(4, 3, 15, 6, 5);
    UnitsFromOne(5, 2, 30, 3, 13);
    UnitsFromOne(5, 10, 30, 1023, 5);
  }

  /** The largest half-precision number as a binary64 pattern. */
  lemma NamedPattern()
    ensures FloatingPointMaxInt(Float16) == Some(0x40EF_FC00_0000_0000)
  {
    hide FloatingPointMaxInt, Pow2, Bias, BitOr;
    SmallPowers();
    PatternOfMax(Float16);
  }

  lemma SmallPowers()
    ensures Pow2(2) == 4 && Pow2(3) == 8 && Pow2(4) == 16 && Pow2(5) == 32 && Pow2(10) == 1024 && Pow2(13) == 8192
    ensures Pow2(42) == 0x400_0000_0000
    ensures Bias(4) == 7 && Bias(5) == 15
  {
    assert Pow2(1) == 2;
    hide Pow2;
    Pow2Sum(1, 1);
    Pow2Sum(2, 1);
    Pow2Sum(2, 2);
    Pow2Sum(4, 1);
    Pow2Sum(5, 5);
    Pow2Sum(10, 3);
    Pow2Sum(10, 10);
    Pow2Sum(20, 20);
    Pow2Sum(40, 2);
  }

  /** A normal number whose exponent field lies k above the one that counts units of one. */
  lemma UnitsFromOne(e: nat, m: nat, x: nat, y: nat, k: nat)
    requires 1 <= e <= 11 && m <= 52 && x >= 1 && x == Bias(e) + m + k
    ensures Units(e, m, x, y) == (Pow2(m) + y) * Pow2(k) * Pow2(1074)
  {
    hide *;
    assert Bias(e) <= 1023 by {
      BiasBound(e);
    }
    var unit := 1075 - Bias(e) - m;
    assert Pow2(x - 1) * Pow2(unit) == Pow2(k) * Pow2(1074) by {
      Pow2Sum(x - 1, unit);
      Pow2Sum(k, 1074);
      assert x - 1 + unit == k + 1074;
    }
    assert Units(e, m, x, y) == (Pow2(m) + y) * Pow2(x - 1) * Pow2(unit) by {
      UnitsOfNormal(e, m, x, y);
    }
    Associate(Pow2(m) + y, Pow2(x - 1), Pow2(unit), Pow2(k), Pow2(1074));
  }

  lemma UnitsOfNormal(e: nat, m: nat, x: nat, y: nat)
    requires 1 <= e <= 11 && m <= 52 && x >= 1 && Bias(e) <= 1023
    ensures Units(e, m, x, y) == (Pow2(m) + y) * Pow2(x - 1) * Pow2(1075 - Bias(e) - m)
  {
    hide Pow2, Bias;
  }

  lemma Associate(s: nat, a: nat, b: nat, c: nat, d: nat)
    requires a * b == c * d
    ensures s * a * b == s * c * d
  {
    assert s * a * b == s * (a * b);
    assert s * c * d == s * (c * d);
  }

  /** Known ids, with the fields where the C++ side expects them. */
  lemma NamedIds()
    ensures PackedId(Float8E4M3fn) == 0xA_0000_0001_0304
    ensures PackedId(Float16) == 0x4_0000_0001_0A05
    ensures PackedId(Uint4b8) == 0x4_0000_0010_0400
  {
  }

  // --------------------------------------------------------------- the registry

  datatype Construction =
    | SignedInt(sizeBits: int, bias: Option<int>)
    | UnsignedInt(sizeBits: int, bias: Option<int>)
    | StandardFloat(exponent: int, mantissa: int)
    | OtherFloat(exponent: int, mantissa: int, finiteValuesOnly: bool, nanRepr: NanRepr)
  {
    /** The type a constructor call makes; None where one of its assertions fails. */
    function Made(): Option<ScalarType> {
      match this
      case SignedInt(n, b) => Some(IntegerType(n - 1, true, b))
      case UnsignedInt(n, b) => Some(IntegerType(n, false, b))
      case StandardFloat(e, m) =>
        if m > 0 && e > 0 then Some(ScalarType(e, m, true, 0, false, Ieee754)) else None
      case OtherFloat(e, m, finite, nans) =>
        if m > 0 && e > 0 && nans != Ieee754 then Some(ScalarType(e, m, true, 0, finite, nans)) else None
    }
  }

  function IntegerType(mantissa: int, signed: bool, bias: Option<int>): ScalarType {
    ScalarType(0, mantissa, signed, if bias.Some? then bias.value else 0, false, Ieee754)
  }

  function Recorded(types: map<nat, ScalarType>, made: Option<ScalarType>): map<nat, ScalarType> {
    if made.None? then types else types[PackedId(made.value) := made.value]
  }

  function Lookup(types: map<nat, ScalarType>, id: nat): Option<ScalarType> {
    if id in types then Some(types[id]) else None
  }

  /** The registry after a run of constructor calls. */
  function Registered(calls: seq<Construction>): map<nat, ScalarType> {
    if calls == [] then map[]
    else Recorded(Registered(calls[..|calls| - 1]), calls[|calls| - 1].Made())
  }

  ghost predicate Makes(calls: seq<Construction>, i: nat, t: ScalarType) {
    i < |calls| && calls[i].Made() == Some(t)
  }

  lemma RegisteredNext(calls: seq<Construction>, call: Construction)
    ensures Registered(calls + [call]) == Recorded(Registered(calls), call.Made())
  {
    assert (calls + [call])[..|calls|] == calls;
  }

  /** An id is in the registry exactly when some call made a type with it, and what sits
      there is one of the types made with that id. */
  lemma {:induction false} EntriesAreMade(calls: seq<Construction>, id: nat)
    ensures id in Registered(calls) <==> exists i, t :: Makes(calls, i, t) && PackedId(t) == id
    ensures id in Registered(calls) ==>
              PackedId(Registered(calls)[id]) == id && exists i :: Makes(calls, i, Registered(calls)[id])
  {
    hide PackedId;
    if calls != [] {
      var last := |calls| - 1;
      EntriesAreMade(calls[..last], id);
      assert forall i: nat, t :: i < last ==> (Makes(calls, i, t) <==> Makes(calls[..last], i, t));
      if calls[last].Made().Some? {
        assert Makes(calls, last, calls[last].Made().value);
      }
    }
  }

  /** The id registry, and the constructors that fill it. */
  class Registry {
    var types: map<nat, ScalarType>
    ghost var calls: seq<Construction>

    /** The registry is what the constructor calls so far make of it. */
    ghost predicate Valid()
      reads this
    {
      types == Registered(calls)
    }

    constructor ()
      ensures Valid() && calls == []
    {
      types, calls := map[], [];
    }

    static method OrAndAdvance(val: nat, offset: nat, member: int, bitWidth: nat) returns (val': nat, offset': nat)
      requires val < Pow2(offset)
      ensures val' == val + member % Pow2(bitWidth) * Pow2(offset) && offset' == offset + bitWidth
      ensures val' < Pow2(offset')
    {
      var bitMask := Pow2(bitWidth) - 1;
      FieldOred(val, member, offset, bitWidth);
      val' := BitOr(val, ShiftLeft(BitAnd(member, bitMask), offset));
      offset' := offset + bitWidth;
    }

    method Id(t: ScalarType) returns (val: nat)
      modifies this`types
      ensures val == PackedId(t)
      ensures types == Recorded(old(types), Some(t))
    {
      IdPowers();
      hide Pow2;
      var offset;
      val, offset := OrAndAdvance(0, 0, t.exponent, 8);
      val, offset := OrAndAdvance(val, offset, t.mantissa, 8);
      val, offset := OrAndAdvance(val, offset, BoolBit(t.signed), 1);
      val, offset := OrAndAdvance(val, offset, t.bias, 32);
      val, offset := OrAndAdvance(val, offset, BoolBit(t.finiteValuesOnly), 1);
      val, offset := OrAndAdvance(val, offset, t.nanRepr.Code(), 8);
      types := types[val := t];
    }

    method Int(sizeBits: int, bias: Option<int>) returns (r: ScalarType)
      requires Valid()
      modifies this
      ensures Some(r) == SignedInt(sizeBits, bias).Made()
      ensures r.signed && r.exponent == 0 && r.mantissa + BoolBit(r.signed) == sizeBits
      ensures r.bias == (match bias case Some(b) => b case None => 0)
      ensures Valid() && calls == old(calls) + [SignedInt(sizeBits, bias)]
    {
      calls := calls + [SignedInt(sizeBits, bias)];
      RegisteredNext(old(calls), calls[|old(calls)|]);
      r := ScalarType(0, sizeBits - 1, true, if bias.Some? && bias.value != 0 then bias.value else 0, false, Ieee754);
      var _ := Id(r);
    }

    method Uint(sizeBits: int, bias: Option<int>) returns (r: ScalarType)
      requires Valid()
      modifies this
      ensures Some(r) == UnsignedInt(sizeBits, bias).Made()
      ensures !r.signed && r.exponent == 0 && r.mantissa + BoolBit(r.signed) == sizeBits
      ensures r.bias == (match bias case Some(b) => b case None => 0)
      ensures Valid() && calls == old(calls) + [UnsignedInt(sizeBits, bias)]
    {
      calls := calls + [UnsignedInt(sizeBits, bias)];
      RegisteredNext(old(calls), calls[|old(calls)|]);
      r := ScalarType(0, sizeBits, false, if bias.Some? && bias.value != 0 then bias.value else 0, false, Ieee754);
      var _ := Id(r);
    }

    /** None is an assertion failure. */
    method FloatIeee754(exponent: int, mantissa: int) returns (r: Option<ScalarType>)
      requires Valid()
      modifies this
      ensures r == StandardFloat(exponent, mantissa).Made()
      ensures r.Some? <==> exponent > 0 && mantissa > 0
      ensures r.Some? ==>
        && r.value.exponent == exponent && r.value.mantissa == mantissa && r.value.signed && r.value.bias == 0
        && r.value.nanRepr == Ieee754 && !r.value.finiteValuesOnly
      ensures Valid() && calls == old(calls) + [StandardFloat(exponent, mantissa)]
    {
      calls := calls + [StandardFloat(exponent, mantissa)];
      RegisteredNext(old(calls), calls[|old(calls)|]);
      if !(mantissa > 0 && exponent > 0) {
        return None;
      }
      r := Some(ScalarType(exponent, mantissa, true, 0, false, Ieee754));
      var _ := Id(r.value);
    }

    method Float(exponent: int, mantissa: int, finiteValuesOnly: bool, nanRepr: NanRepr)
      returns (r: Option<ScalarType>)
      requires Valid()
      modifies this
      ensures r == OtherFloat(exponent, mantissa, finiteValuesOnly, nanRepr).Made()
      ensures r.Some? <==> exponent > 0 && mantissa > 0 && nanRepr != Ieee754
      ensures r.Some? ==>
        && r.value.exponent == exponent && r.value.mantissa == mantissa && r.value.signed && r.value.bias == 0
        && r.value.nanRepr == nanRepr && r.value.finiteValuesOnly == finiteValuesOnly
      ensures Valid() && calls == old(calls) + [OtherFloat(exponent, mantissa, finiteValuesOnly, nanRepr)]
    {
      calls := calls + [OtherFloat(exponent, mantissa, finiteValuesOnly, nanRepr)];
      RegisteredNext(old(calls), calls[|old(calls)|]);
      if !(mantissa > 0 && exponent > 0) {
        return None;
      }
      if nanRepr == Ieee754 {
        return None;
      }
      r := Some(ScalarType(exponent, mantissa, true, 0, finiteValuesOnly, nanRepr));
      var _ := Id(r.value);
    }

    /** The type comes back that some call made with the id; None, a ValueError, exactly
        where no call made one. */
    method FromId(id: nat) returns (r: Option<ScalarType>)
      requires Valid()
      ensures r.Some? <==> exists i, t :: Makes(calls, i, t) && PackedId(t) == id
      ensures r.Some? ==> PackedId(r.value) == id && exists i :: Makes(calls, i, r.value)
      ensures r == Lookup(Registered(calls), id)
    {
      EntriesAreMade(calls, id);
      if id !in types {
        return None;
      }
      r := Some(types[id]);
    }
  }

  /** After any run, from_id of every id made returns its type exactly when no two
      different types made in the run share an id. */
  lemma FromIdReturnsExactly(calls: seq<Construction>)
    ensures (forall i, t :: Makes(calls, i, t) ==> Lookup(Registered(calls), PackedId(t)) == Some(t))
       <==> (forall i, t, j, u :: Makes(calls, i, t) && Makes(calls, j, u) && PackedId(t) == PackedId(u) ==> t == u)
  {
    hide PackedId;
    forall i, t | Makes(calls, i, t)
      ensures PackedId(t) in Registered(calls)
      ensures var u := Registered(calls)[PackedId(t)];
              PackedId(u) == PackedId(t) && exists j :: Makes(calls, j, u)
    {
      EntriesAreMade(calls, PackedId(t));
    }
  }

  /** With fitting fields that is always so. */
  lemma FromIdReturnsFittingTypes(calls: seq<Construction>)
    requires forall i, t :: Makes(calls, i, t) ==> Fits(t)
    ensures forall i, t :: Makes(calls, i, t) ==> Lookup(Registered(calls), PackedId(t)) == Some(t)
  {
    hide PackedId, Fits;
    forall i, t, j, u | Makes(calls, i, t) && Makes(calls, j, u) && PackedId(t) == PackedId(u)
      ensures t == u
    {
      FittingIdsAreInjective(t, u);
    }
    FromIdReturnsExactly(calls);
  }

  /** A bias that does not fit its 32 bits takes the place of another type. */
  lemma WideBiasTakesAnotherTypesId()
    ensures var calls := [UnsignedInt(4, None), UnsignedInt(4, Some(0x1_0000_0000))];
            && Makes(calls, 0, IntegerType(4, false, None))
            && Lookup(Registered(calls), PackedId(IntegerType(4, false, None)))
               == Some(IntegerType(4, false, Some(0x1_0000_0000)))
  {
    var calls := [UnsignedInt(4, None), UnsignedInt(4, Some(0x1_0000_0000))];
    assert calls[..1] == [UnsignedInt(4, None)];
    SameIdExactly(IntegerType(4, false, None), IntegerType(4, false, Some(0x1_0000_0000)));
  }
}

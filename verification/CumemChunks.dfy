/**
 How an allocation is cut into physical chunks: 64-bit rounding arithmetic with its
 wrap-around, and exactly when the cut is right.
 */
module CumemChunks {
  import opened Wrappers
  import opened DeviceMemory
  import Bits

  const MB: nat := 0x10_0000
  const DefaultChunkSize: nat := 256 * MB

  /** The environment variable, as far as parsed. */
  datatype ChunkSizeSetting = Unset | Unparsable | Megabytes(value: nat)

  /** The configured size where it is a positive number of megabytes that fits in 64
      bits, else the default; in any case whole megabytes. */
  function MemcreateChunkSize(setting: ChunkSizeSetting): (r: nat)
    ensures 0 < r < TwoTo64 && r % MB == 0
    ensures setting.Megabytes? && 0 < setting.value * MB < TwoTo64 ==> r / MB == setting.value
    ensures !(setting.Megabytes? && 0 < setting.value * MB < TwoTo64) ==> r == 0x1000_0000
  {
    match setting
    case Unset => DefaultChunkSize
    case Unparsable => DefaultChunkSize
    case Megabytes(v) =>
      if v == 0 then DefaultChunkSize
      else if v > (TwoTo64 - 1) / MB then DefaultChunkSize
      else v * MB
  }

  function Wrap(x: int): nat {
    x % TwoTo64
  }

  /** The 64-bit idiom ((x + g - 1) / g) * g. */
  function RoundUp64(x: nat, g: nat): nat
    requires g > 0
  {
    Wrap(Wrap(x + g - 1) / g * g)
  }

  /** r is the least multiple of g that is at least x. */
  ghost predicate LeastMultiple(r: nat, x: nat, g: nat)
    requires g > 0
  {
    x <= r < x + g && r % g == 0
  }

  lemma QuotientBounds(y: nat, g: nat)
    requires g > 0
    ensures y / g * g <= y < y / g * g + g && (y / g * g) % g == 0
  {
    assert y == y / g * g + y % g;
    MultipleModulo(y / g, g);
  }

  lemma MultipleModulo(k: nat, g: nat)
    requires g > 0
    ensures (k * g) % g == 0
  {
    Bits.ModuloUnique(k * g, g, k, 0);
  }

  /** Rounding up works exactly when the sum fits in 64 bits; when it does not, the
      result is 0. */
  lemma RoundUpExact(x: nat, g: nat)
    requires 0 < x < TwoTo64 && 0 < g < TwoTo64
    ensures LeastMultiple(RoundUp64(x, g), x, g) <==> x + g - 1 < TwoTo64
    ensures x + g - 1 >= TwoTo64 ==> RoundUp64(x, g) == 0
    ensures x + g - 1 < TwoTo64 ==> RoundUp64(x, g) == (x + g - 1) / g * g
  {
    if x + g - 1 < TwoTo64 {
      RoundUpFits(x, g);
    } else {
      var y := Wrap(x + g - 1);
      assert y == x + g - 1 - TwoTo64 < g;
      Bits.ModuloUnique(y, g, 0, y);
      assert RoundUp64(x, g) == 0;
    }
  }

  lemma RoundUpFits(x: nat, g: nat)
    requires 0 < x && 0 < g && x + g - 1 < TwoTo64
    ensures RoundUp64(x, g) == (x + g - 1) / g * g && LeastMultiple(RoundUp64(x, g), x, g)
  {
    var y := x + g - 1;
    QuotientBounds(y, g);
    assert Wrap(y) == y && Wrap(y / g * g) == y / g * g;
  }

  function Prefix(cs: seq<nat>, i: nat): nat
    requires i <= |cs|
  {
    if i == 0 then 0 else Prefix(cs, i - 1) + cs[i - 1]
  }

  function Sum(cs: seq<nat>): nat {
    Prefix(cs, |cs|)
  }

  lemma {:induction false} PrefixOfPrefix(cs: seq<nat>, n: nat, i: nat)
    requires i <= n <= |cs|
    ensures Prefix(cs[..n], i) == Prefix(cs, i)
  {
    if i > 0 {
      PrefixOfPrefix(cs, n, i - 1);
    }
  }

  lemma SumSnoc(cs: seq<nat>, c: nat)
    ensures Sum(cs + [c]) == Sum(cs) + c
  {
    assert (cs + [c])[..|cs|] == cs;
    PrefixOfPrefix(cs + [c], |cs|, |cs|);
  }

  /** The chunks fill total exactly; all are non-empty multiples of g, full except
      perhaps the last. */
  ghost predicate Cuts(cs: seq<nat>, total: nat, g: nat, full: nat)
    requires g > 0
  {
    && Sum(cs) == total
    && (forall i :: 0 <= i < |cs| ==> 0 < cs[i] <= full && cs[i] % g == 0)
    && (forall i :: 0 <= i < |cs| - 1 ==> cs[i] == full)
  }

  function Min(a: nat, b: nat): nat {
    if a < b then a else b
  }

  lemma CountExact(total: nat, full: nat)
    requires 0 < full < TwoTo64 && total < TwoTo64
    ensures
      var n := Wrap(total + full - 1) / full;
      && (total + full - 1 < TwoTo64 && total > 0 ==> 0 < n && (n - 1) * full < total <= n * full)
      && (total + full - 1 >= TwoTo64 || total == 0 ==> n == 0)
  {
    var y := total + full - 1;
    if y < TwoTo64 {
      CountWhenItFits(total, full);
    } else {
      assert Wrap(y) == y - TwoTo64;
      Bits.ModuloUnique(Wrap(y), full, 0, Wrap(y));
    }
  }

  lemma CountWhenItFits(total: nat, full: nat)
    requires 0 < full
    ensures
      var n := (total + full - 1) / full;
      if total > 0 then 0 < n && (n - 1) * full < total <= n * full else n == 0
  {
    var y := total + full - 1;
    var n := y / full;
    if total > 0 {
      QuotientBounds(y, full);
      assert n > 0;
      assert (n - 1) * full == n * full - full;
    } else {
      Bits.ModuloUnique(y, full, 0, y);
    }
  }

  lemma StepDown(total: nat, full: nat, i: nat, n: nat, g: nat)
    requires 0 < g && 0 < full && full % g == 0 && total % g == 0
    requires i < n && (n - 1) * full < total
    ensures i * full < total
    ensures (i + 1) * full == i * full + full
    ensures (total - i * full) % g == 0
    ensures i < n - 1 ==> (i + 1) * full < total
  {
    assert i * full <= (n - 1) * full by { Bits.MulMonotone(i, n - 1, full); }
    if i < n - 1 {
      Bits.MulMonotone(i + 1, n - 1, full);
    }
    MultiplesDiffer(total, full, i, g);
  }

  lemma {:induction false} MultiplesDiffer(total: nat, full: nat, i: nat, g: nat)
    requires 0 < g && full % g == 0 && total % g == 0 && i * full <= total
    ensures (total - i * full) % g == 0
  {
    if i > 0 {
      assert i * full == (i - 1) * full + full;
      MultiplesDiffer(total, full, i - 1, g);
      var rest := total - (i - 1) * full;
      assert (rest - full) % g == 0 by { DifferenceModulo(rest, full, g); }
    }
  }

  lemma DifferenceModulo(a: nat, b: nat, g: nat)
    requires 0 < g && a % g == 0 && b % g == 0 && b <= a
    ensures (a - b) % g == 0
  {
    var p, q := a / g, b / g;
    assert a == p * g && b == q * g;
    assert a - b == (p - q) * g;
    MultipleModulo(p - q, g);
  }

  /** The first i chunks: full ones, except that the last one takes the rest. */
  ghost predicate CutSoFar(cs: seq<nat>, total: nat, g: nat, full: nat, count: nat)
    requires g > 0
  {
    && Sum(cs) == Min(|cs| * full, total)
    && (forall j :: 0 <= j < |cs| ==> 0 < cs[j] <= full && cs[j] % g == 0)
    && (forall j :: 0 <= j < |cs| && j < count - 1 ==> cs[j] == full)
  }

  lemma CutStep(cs: seq<nat>, total: nat, g: nat, full: nat, count: nat)
    requires 0 < g && 0 < full < TwoTo64 && full % g == 0 && total % g == 0 && total < TwoTo64
    requires |cs| < count && (count - 1) * full < total
    requires CutSoFar(cs, total, g, full, count)
    ensures
      var rest := Wrap(total - Wrap(|cs| * full));
      CutSoFar(cs + [Min(rest, full)], total, g, full, count)
  {
    var i := |cs|;
    StepDown(total, full, i, count, g);
    assert Wrap(i * full) == i * full;
    assert Wrap(total - i * full) == total - i * full;
    SumSnoc(cs, Min(total - i * full, full));
  }

  /** The size and chunk arithmetic of an allocation. None where the chunk size rounds
      to 0 and the division by it traps. The chunks cut the aligned size exactly when
      their count does not overflow either. */
  method PlanChunks(size: nat, granularity: nat, baseChunk: nat)
    returns (alignedSize: nat, chunkSizes: Option<seq<nat>>)
    requires size < 0x8000_0000_0000_0000 && 0 < granularity <= 0x8000_0000_0000_0000 && 0 < baseChunk < TwoTo64
    ensures alignedSize == RoundUp64(size, granularity)
    ensures size > 0 ==> LeastMultiple(alignedSize, size, granularity)
    ensures chunkSizes.Some? <==> baseChunk + granularity - 1 < TwoTo64
    ensures chunkSizes.Some? ==>
      var full := RoundUp64(baseChunk, granularity);
      && LeastMultiple(full, baseChunk, granularity)
      && (Cuts(chunkSizes.value, alignedSize, granularity, full) <==> alignedSize + full - 1 < TwoTo64)
  {
    alignedSize := RoundUp64(size, granularity);
    var full := RoundUp64(baseChunk, granularity);
    AlignedSizeExact(size, granularity);
    RoundUpExact(baseChunk, granularity);
    if full == 0 {
      return alignedSize, None;
    }
    var count := Wrap(alignedSize + full - 1) / full;
    CountExact(alignedSize, full);
    var chunks: seq<nat> := [];
    for i := 0 to count
      invariant |chunks| == i
      invariant CutSoFar(chunks, alignedSize, granularity, full, count)
    {
      CutStep(chunks, alignedSize, granularity, full, count);
      var rest := Wrap(alignedSize - Wrap(i * full));
      chunks := chunks + [Min(rest, full)];
    }
    chunkSizes := Some(chunks);
  }

  lemma AlignedSizeExact(size: nat, g: nat)
    requires size < 0x8000_0000_0000_0000 && 0 < g <= 0x8000_0000_0000_0000
    ensures RoundUp64(size, g) % g == 0
    ensures if size > 0 then LeastMultiple(RoundUp64(size, g), size, g) else RoundUp64(size, g) == 0
  {
    if size > 0 {
      RoundUpExact(size, g);
    } else {
      assert Wrap(0 + g - 1) == g - 1;
      Bits.ModuloUnique(g - 1, g, 0, g - 1);
      Bits.ModuloUnique(0, g, 0, 0);
    }
  }
}

/**
 Shifts, masks and bitwise or on unbounded integers, as arithmetic.
 */
module Bits {
  function Pow2(k: nat): (p: nat)
    ensures p >= 1
  {
    if k == 0 then 1 else 2 * Pow2(k - 1)
  }

  lemma {:induction false} Pow2Sum(a: nat, b: nat)
    ensures Pow2(a + b) == Pow2(a) * Pow2(b)
  {
    if a > 0 {
      Pow2Sum(a - 1, b);
    }
  }

  lemma {:induction false} Pow2Monotone(a: nat, b: nat)
    requires a <= b
    ensures Pow2(a) <= Pow2(b)
  {
    if a < b {
      Pow2Monotone(a, b - 1);
    }
  }

  lemma MulMonotone(a: int, b: int, c: nat)
    requires a <= b
    ensures a * c <= b * c
  {
  }

  lemma QuotientUnique(q: int, q': int, r: nat, r': nat, d: nat)
    requires q * d + r == q' * d + r' && r < d && r' < d
    ensures q == q' && r == r'
  {
    if q < q' {
      MulMonotone(q + 1, q', d);
    }
    if q' < q {
      MulMonotone(q' + 1, q, d);
    }
  }

  lemma ModuloUnique(x: int, d: nat, q: int, r: nat)
    requires x == q * d + r && r < d
    ensures x % d == r && x / d == q
  {
    QuotientUnique(q, x / d, r, x % d, d);
  }

  /** x & y for a non-negative y; a negative x counts as an endless two's complement. */
  function BitAnd(x: int, y: nat): (r: nat)
    decreases y
  {
    if y == 0 then 0 else (x % 2) * (y % 2) + 2 * BitAnd(x / 2, y / 2)
  }

  function BitOr(x: nat, y: nat): (r: nat)
    decreases x + y
  {
    if x == 0 && y == 0 then 0
    else (if x % 2 == 1 || y % 2 == 1 then 1 else 0) + 2 * BitOr(x / 2, y / 2)
  }

  function Rem(x: int, d: nat): nat
    requires d >= 1
  {
    x % d
  }

  /** The remainder by 2p, from the lowest bit and the remainder of the rest by p. */
  lemma RemTwice(x: int, p: nat)
    requires p >= 1
    ensures Rem(x, 2 * p) == 2 * Rem(x / 2, p) + x % 2
  {
    var q, r := x / 2 / p, x / 2 % p;
    assert x / 2 == q * p + r;
    Double(q, p);
    ModuloUnique(x, 2 * p, q, 2 * r + x % 2);
  }

  lemma Double(q: int, p: int)
    ensures 2 * (q * p) == q * (2 * p)
  {
  }

  /** One bit less of the mask. */
  lemma AndOnes(x: int, p: nat)
    requires p >= 1
    ensures BitAnd(x, 2 * p - 1) == x % 2 + 2 * BitAnd(x / 2, p - 1)
  {
    assert (2 * p - 1) % 2 == 1 && (2 * p - 1) / 2 == p - 1;
  }

  lemma {:induction false} AndMaskRem(x: int, w: nat)
    ensures BitAnd(x, Pow2(w) - 1) == Rem(x, Pow2(w))
    decreases w
  {
    if w > 0 {
      var p := Pow2(w - 1);
      assert Pow2(w) == 2 * p;
      hide *;
      AndMaskRem(x / 2, w - 1);
      AndOnes(x, p);
      RemTwice(x, p);
    }
  }

  /** Masking with w ones takes the remainder by the w-th power of two. */
  lemma AndMask(x: int, w: nat)
    ensures BitAnd(x, Pow2(w) - 1) == x % Pow2(w)
  {
    hide Pow2, BitAnd;
    AndMaskRem(x, w);
  }

  lemma {:induction false} OrZero(y: nat)
    ensures BitOr(0, y) == y
  {
    if y > 0 {
      OrZero(y / 2);
    }
  }

  function ShiftLeft(y: nat, k: nat): nat {
    y * Pow2(k)
  }

  /** Or-ing in a number shifted beyond the bits in use adds it. */
  lemma {:induction false} OrShifted(x: nat, y: nat, k: nat)
    requires x < Pow2(k)
    ensures BitOr(x, ShiftLeft(y, k)) == x + ShiftLeft(y, k)
  {
    if k == 0 {
      OrZero(y);
    } else {
      var z := ShiftLeft(y, k - 1);
      assert ShiftLeft(y, k) == 2 * z;
      OrShifted(x / 2, y, k - 1);
      if !(x == 0 && z == 0) {
        assert BitOr(x, 2 * z) == (if x % 2 == 1 || (2 * z) % 2 == 1 then 1 else 0) + 2 * BitOr(x / 2, 2 * z / 2);
      }
    }
  }
}

/** Bitwise operations on mathematical integers, in two's complement. */
module Bits {

  function Pow2(k: nat): (p: nat)
    ensures p >= 1
  {
    if k == 0 then 1 else 2 * Pow2(k - 1)
  }

  /** a & b, where the mask b is non-negative; a may be negative. */
  function And(a: int, b: nat): nat
    decreases b
  {
    if b == 0 then 0 else (if a % 2 == 1 && b % 2 == 1 then 1 else 0) + 2 * And(a / 2, b / 2)
  }

  /** a | b on non-negative operands. */
  function Or(a: nat, b: nat): nat
    decreases a + b
  {
    if a == 0 && b == 0 then 0
    else (if a % 2 == 1 || b % 2 == 1 then 1 else 0) + 2 * Or(a / 2, b / 2)
  }

  /** a << k, without a width limit. */
  function Shl(a: nat, k: nat): nat
  {
    a * Pow2(k)
  }

  lemma ModUnique(a: int, m: int, q: int, r: int)
    requires m > 0 && 0 <= r < m && a == q * m + r
    ensures a % m == r && a / m == q
  {
    var d := a / m - q;
    assert d * m == r - a % m by {
      assert a == (a / m) * m + a % m;
      assert (a / m - q) * m == (a / m) * m - q * m;
    }
    assert d >= 1 ==> d * m >= m;
    assert d <= -1 ==> d * m <= -m;
  }

  lemma {:induction false} AndAtMost(a: int, b: nat)
    ensures And(a, b) <= b
    decreases b
  {
    if b > 0 { AndAtMost(a / 2, b / 2); }
  }

  /** Numbers with the same remainder are no closer than the modulus. */
  lemma SameRemainder(a: int, b: int, m: int)
    requires m > 0 && a < b && a % m == b % m
    ensures b - a >= m
  {
    var d := b / m - a / m;
    assert b - a == d * m by {
      assert a == (a / m) * m + a % m && b == (b / m) * m + b % m;
      assert d * m == (b / m) * m - (a / m) * m;
    }
    assert d <= 0 ==> d * m <= 0;
    assert d >= 1 ==> d * m >= m;
  }

  /** The remainder by 2p, from the last bit and the remainder of the others by p. */
  lemma RemainderSplit(a: int, p: nat)
    requires p > 0
    ensures a % (2 * p) == a % 2 + 2 * (a / 2 % p)
  {
    var q, u := a / 2 / p, a / 2 % p;
    assert a == q * (2 * p) + (a % 2 + 2 * u) by {
      assert a / 2 == q * p + u;
      assert q * (2 * p) == 2 * (q * p);
    }
    ModUnique(a, 2 * p, q, a % 2 + 2 * u);
  }

  /** Masking with 2^k - 1 is the remainder modulo 2^k, for negative operands too. */
  lemma {:induction false} AndMask(a: int, k: nat)
    ensures And(a, Pow2(k) - 1) == a % Pow2(k)
    decreases k
  {
    if k > 0 {
      AndMask(a / 2, k - 1);
      MaskStep(a, Pow2(k - 1));
    }
  }

  lemma MaskStep(a: int, p: nat)
    requires p > 0 && And(a / 2, p - 1) == a / 2 % p
    ensures And(a, 2 * p - 1) == a % (2 * p)
  {
    RemainderSplit(a, p);
    AndStep(a, p);
  }

  /** A mask with its last bit set keeps the last bit. */
  lemma AndStep(a: int, p: nat)
    requires p > 0
    ensures And(a, 2 * p - 1) == a % 2 + 2 * And(a / 2, p - 1)
  {
    var mask := 2 * p - 1;
    assert mask % 2 == 1 && mask / 2 == p - 1;
  }

  lemma {:induction false} OrZero(b: nat)
    ensures Or(0, b) == b
  {
    if b != 0 { OrZero(b / 2); }
  }

  /** Or-ing in a value that fits below the shifted bits is addition. */
  lemma {:induction false} OrDisjoint(x: nat, k: nat, y: nat)
    requires y < Pow2(k)
    ensures Or(Shl(x, k), y) == Shl(x, k) + y
    decreases k
  {
    if k == 0 {
      OrRightZero(x);
    } else {
      var p := Pow2(k - 1);
      OrDisjoint(x, k - 1, y / 2);
      assert x * (2 * p) == 2 * (x * p);
      ModUnique(Shl(x, k), 2, Shl(x, k - 1), 0);
    }
  }

  lemma {:induction false} OrRightZero(a: nat)
    ensures Or(a, 0) == a
  {
    if a != 0 { OrRightZero(a / 2); }
  }

  lemma Pow2Of30()
    ensures Pow2(30) == 0x4000_0000
  {
    assert Pow2(10) == 1024;
    assert Pow2(20) == 1048576;
  }
}

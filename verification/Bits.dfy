/** Bitwise operators on mathematical integers, defined bit by bit. A negative left operand of
    BitAnd is read as an infinite two's complement number, so that the same operator serves the
    driver's unsigned words and the Python client's unbounded integers. */
module Bits {
  import opened CTypes

  function Pow2(k: nat): (p: nat)
    ensures p > 0
  {
    if k == 0 then 1 else 2 * Pow2(k - 1)
  }

  function BitAnd(x: int, m: nat): nat
    decreases m, x
  {
    if m == 0 then 0 else (x % 2) * (m % 2) + 2 * BitAnd(x / 2, m / 2)
  }

  function BitOr(a: nat, b: nat): nat
    decreases a + b
  {
    if a + b == 0 then 0 else Max(a % 2, b % 2) + 2 * BitOr(a / 2, b / 2)
  }

  /** Masking with the low k bits is reduction modulo 2^k, for negative integers too. */
  lemma {:induction false} MaskIsMod(x: int, k: nat)
    ensures BitAnd(x, Pow2(k) - 1) == x % Pow2(k)
    decreases k
  {
    if k > 0 {
      var p := Pow2(k - 1);
      assert (2 * p - 1) / 2 == p - 1 && (2 * p - 1) % 2 == 1;
      MaskIsMod(x / 2, k - 1);
      ModDouble(x, p);
    }
  }

  lemma ModDouble(x: int, p: nat)
    requires p > 0
    ensures x % (2 * p) == x % 2 + 2 * ((x / 2) % p)
  {
    var h := x / 2;
    var r := x % 2 + 2 * (h % p);
    assert h == p * (h / p) + h % p;
    assert x == 2 * p * (h / p) + r by {
      assert 2 * (p * (h / p)) == 2 * p * (h / p);
    }
    assert 0 <= r < 2 * p;
    DivisionUnique(x, 2 * p, h / p);
  }

  /** Addition splits into the bits set in either operand and the bits set in both, so an OR
      equals the sum exactly when no bit is shared. */
  lemma {:induction false} OrPlusAnd(a: nat, b: nat)
    ensures BitOr(a, b) + BitAnd(a, b) == a + b
    decreases a + b
  {
    if a + b > 0 {
      OrPlusAnd(a / 2, b / 2);
      if b == 0 {
        assert BitAnd(a / 2, 0) == 0;
      }
      BitProduct(a % 2, b % 2);
    }
  }

  lemma BitProduct(x: int, y: int)
    requires 0 <= x < 2 && 0 <= y < 2
    ensures Max(x, y) + x * y == x + y
  {
    if x == 0 {
      assert x * y == 0;
    } else {
      assert x * y == y;
    }
  }

  /** A value below 2^k shares no bit with a value shifted left by k. */
  lemma {:induction false} ShiftedIsDisjoint(a: nat, b: nat, k: nat)
    requires a < Pow2(k)
    ensures BitAnd(a, b * Pow2(k)) == 0
    ensures BitOr(a, b * Pow2(k)) == a + b * Pow2(k)
  {
    var m := b * Pow2(k);
    if m == 0 {
      assert m == 0;
    } else if k == 0 {
      AndZero(m);
    } else {
      assert m == 2 * (b * Pow2(k - 1)) by {
        assert b * (2 * Pow2(k - 1)) == 2 * (b * Pow2(k - 1));
      }
      assert m % 2 == 0 && m / 2 == b * Pow2(k - 1);
      ShiftedIsDisjoint(a / 2, b, k - 1);
      assert (a % 2) * (m % 2) == 0;
    }
    OrPlusAnd(a, m);
  }

  lemma {:induction false} AndZero(m: nat)
    ensures BitAnd(0, m) == 0
  {
    if m > 0 {
      AndZero(m / 2);
    }
  }
}

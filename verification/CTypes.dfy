/** The C integer types the driver uses, and the C operators whose meaning differs
    from Dafny's. */
module CTypes {
  type uint8 = x: int | 0 <= x < 0x100
  type uint16 = x: int | 0 <= x < 0x1_0000
  type uint32 = x: int | 0 <= x < 0x1_0000_0000
  type uint64 = x: int | 0 <= x < 0x1_0000_0000_0000_0000
  type int8 = x: int | -0x80 <= x < 0x80

  const UINT64_SIZE := 0x1_0000_0000_0000_0000

  datatype Option<+T> = None | Some(value: T)

  function Min(a: int, b: int): int { if a <= b then a else b }

  function Max(a: int, b: int): int { if a >= b then a else b }

  /** The conversion to an unsigned 8-bit type: reduction modulo 256. */
  function Narrow8(x: int): uint8 { x % 0x100 }

  /** C integer division by a positive divisor: the quotient is truncated toward zero. */
  function TruncDiv(a: int, b: int): int
    requires b > 0
  {
    if a >= 0 then a / b else -(-a / b)
  }

  /** TruncDiv is the division of ISO/IEC 9899:2011 section 6.5.5: the quotient q is the one
      whose remainder a - b*q is smaller than b and never has the opposite sign to a. */
  lemma TruncDivCharacterised(a: int, b: int, q: int)
    requires b > 0
    ensures q == TruncDiv(a, b) <==> if a >= 0 then 0 <= a - b * q < b else -b < a - b * q <= 0
  {
    if a >= 0 {
      DivisionUnique(a, b, q);
    } else {
      DivisionUnique(-a, b, -q);
      assert b * -q == -(b * q);
    }
  }

  /** A quotient and remainder are determined by the remainder's range. */
  lemma DivisionUnique(a: int, b: int, q: int)
    requires b > 0
    ensures q == a / b <==> 0 <= a - b * q < b
  {
    var e := a / b;
    var r := a % b;
    assert a == b * e + r;
    if 0 <= a - b * q < b {
      assert b * (e - q) == b * e - b * q;
      SmallMultiple(b, e - q);
    }
  }

  lemma SmallMultiple(b: int, d: int)
    requires b > 0
    ensures -b < b * d < b ==> d == 0
  {
    if d >= 1 {
      assert b * d >= b * 1;
    } else if d <= -1 {
      assert b * d <= b * -1;
    }
  }
}

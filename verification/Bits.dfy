/** C's integer operators on unbounded two's complement integers. */
module Bits {

  function Abs(a: int): nat { if a < 0 then -a else a }

  function BitAnd(a: int, b: int): int
    decreases Abs(a)
  {
    if a == 0 || b == 0 then 0
    else if a == -1 then b
    else (a % 2) * (b % 2) + 2 * BitAnd(a / 2, b / 2)
  }

  function BitNot(a: int): int { -1 - a }

  function BitOr(a: int, b: int): int { BitNot(BitAnd(BitNot(a), BitNot(b))) }

  function BitXor(a: int, b: int): int { BitOr(a, b) - BitAnd(a, b) }

  function Power2(n: nat): (p: nat)
    ensures p > 0
  {
    if n == 0 then 1 else 2 * Power2(n - 1)
  }

  /** A negative count is undefined in C; here it shifts the other way. */
  function ShiftLeft(a: int, n: int): int {
    if n >= 0 then a * Power2(n) else a / Power2(-n)
  }

  function ShiftRight(a: int, n: int): int { ShiftLeft(a, -n) }

  /** Division truncates toward zero; the remainder has the dividend's sign. */
  function Quotient(a: int, b: int): int
    requires b != 0
  {
    if (a < 0) == (b < 0) then Abs(a) / Abs(b) else -(Abs(a) / Abs(b))
  }

  function Remainder(a: int, b: int): int
    requires b != 0
  {
    a - b * Quotient(a, b)
  }
}

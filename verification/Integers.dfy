/** Machine integers and the operators on them that differ from those on unbounded ones. */
module Integers {
  type int32 = x: int | -0x8000_0000 <= x < 0x8000_0000
  type size = x: int | 0 <= x < 0x1_0000_0000_0000_0000

  /** Remainder with the sign of the dividend. */
  function TruncMod(a: int, m: int): (r: int)
    requires m > 0
    ensures -m < r < m
    ensures a >= 0 ==> r >= 0
    ensures a <= 0 ==> r <= 0
  {
    if a >= 0 then a % m else -((-a) % m)
  }

  /** Together with its bounds and sign this fixes the remainder. */
  lemma TruncModIs(a: int, m: int) returns (q: int)
    requires m > 0
    ensures a == q * m + TruncMod(a, m)
  {
    if a >= 0 {
      q := a / m;
    } else {
      q := -(-a / m);
    }
  }

  /** The low 32 bits of a size, read as a signed number. */
  function ToInt32(x: size): (n: int32)
    ensures n % 0x1_0000_0000 == x % 0x1_0000_0000
  {
    var low := x % 0x1_0000_0000;
    if low < 0x8000_0000 then low else low - 0x1_0000_0000
  }

  /** Narrowing forgets exactly the high bits. */
  lemma SameInt32(x: size, y: size)
    ensures ToInt32(x) == ToInt32(y) <==> x % 0x1_0000_0000 == y % 0x1_0000_0000
  {
  }
}

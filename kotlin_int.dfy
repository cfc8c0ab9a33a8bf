/** Kotlin's 32-bit `Int` conversions and its truncating integer division. */
module KotlinInt {
  import opened Strings

  /** Kotlin's `Long.toInt()`: the low 32 bits, read as a signed Int. */
  function ToInt32(x: int): (r: int)
    ensures IntMin <= r <= IntMax
    ensures (x - r) % 0x1_0000_0000 == 0
    ensures IntMin <= x <= IntMax ==> r == x
  {
    var m := x % 0x1_0000_0000;
    if m > IntMax then m - 0x1_0000_0000 else m
  }

  /** Kotlin's integer `/`: the quotient rounded toward zero, so `b * q` is the multiple of `b`
      nearest to `a` on the side of zero. */
  function Quot(a: int, b: int): (q: int)
    requires b > 0
    ensures 0 <= a ==> 0 <= b * q <= a < b * q + b
    ensures a < 0 ==> b * q - b < a <= b * q <= 0
  {
    if a >= 0 then
      EuclideanBounds(a, b);
      a / b
    else
      EuclideanBounds(-a, b);
      assert b * -((-a) / b) == -(b * ((-a) / b));
      -((-a) / b)
  }

  /** For a non-negative dividend Dafny's `/` already rounds toward zero. */
  lemma EuclideanBounds(a: int, b: int)
    requires 0 <= a && 0 < b
    ensures 0 <= b * (a / b) <= a < b * (a / b) + b
  {
    var q, r := a / b, a % b;
    assert a == b * q + r && 0 <= r < b;
  }

  /** Kotlin's integer `%`: the remainder takes the sign of the dividend. */
  function Rem(a: int, b: int): (r: int)
    requires b > 0
    ensures a == b * Quot(a, b) + r
    ensures a >= 0 ==> 0 <= r < b
    ensures a < 0 ==> -b < r <= 0
  {
    a - b * Quot(a, b)
  }
}

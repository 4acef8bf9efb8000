/** Small arithmetic helpers shared by the ring buffer and the rolling window. */
module ModArith {

  /** `x` reduced once modulo `c`: the value of `x % c` when `0 <= x < 2c`. */
  function Wrap(x: int, c: int): (r: int)
    requires 0 < c && 0 <= x < 2 * c
    ensures 0 <= r < c
    ensures r == x || r == x - c
  {
    if x < c then x else x - c
  }

  lemma ModIsWrap(x: int, c: int)
    requires 0 < c && 0 <= x < 2 * c
    ensures x % c == Wrap(x, c)
  {
    if x < c {
      assert x == 0 * c + x;
    } else {
      assert x == 1 * c + (x - c);
    }
  }

  /** `(a + b) % c == ((a % c) + b) % c`, for a divisor `c > 0`. */
  lemma ModAddLeft(a: int, b: int, c: int)
    requires 0 < c
    ensures (a + b) % c == ((a % c) + b) % c
  {
    var q := a / c;
    assert a == q * c + a % c;
    var s := (a % c) + b;
    assert a + b == q * c + s;
    var q2 := s / c;
    assert s == q2 * c + s % c;
    assert a + b == (q + q2) * c + s % c;
    assert 0 <= s % c < c;
    DivUnique(a + b, c, q + q2, s % c);
  }

  /** Euclidean division is unique. */
  lemma DivUnique(x: int, c: int, q: int, r: int)
    requires 0 < c && 0 <= r < c && x == q * c + r
    ensures x % c == r && x / c == q
  {
    var q0, r0 := x / c, x % c;
    assert x == q0 * c + r0 && 0 <= r0 < c;
    var d := q - q0;
    assert d * c == q * c - q0 * c;
    assert d * c == r0 - r;
    if d > 0 {
      MulAtLeast(d, c);
    } else if d < 0 {
      MulAtLeast(-d, c);
    }
  }

  lemma MulAtLeast(d: int, c: int)
    requires 1 <= d && 0 < c
    ensures d * c >= c
  {
    assert d * c == (d - 1) * c + c;
    assert (d - 1) * c >= 0;
  }

  /**
   * Go's integer division truncates toward zero (`time.Duration / time.Duration`),
   * while Dafny's `/` is Euclidean; for a positive divisor the two differ on a
   * negative dividend.
   */
  function TruncDiv(a: int, b: int): (q: int)
    requires 0 < b
    ensures 0 <= a ==> 0 <= q && 0 <= a - q * b < b
    ensures a < 0 ==> q <= 0 && -b < a - q * b <= 0
  {
    DivBounds(if 0 <= a then a else -a, b);
    if 0 <= a then a / b else -((-a) / b)
  }

  /** The Euclidean quotient of a non-negative `x` leaves a remainder in `[0, c)`. */
  lemma DivBounds(x: int, c: int)
    requires 0 <= x && 0 < c
    ensures 0 <= x / c && 0 <= x - x / c * c < c
  {
    var q, r := x / c, x % c;
    assert x == q * c + r && 0 <= r < c;
  }
}

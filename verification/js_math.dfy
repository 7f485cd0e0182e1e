/** Integer counterparts of the `Math` calls the storefront makes on quotients.
    Dafny's `/` is Euclidean; these are written so that they agree with real
    division followed by `Math.floor`, `Math.ceil` and `Math.round`. */
module JsMath {

  /** `Math.floor(a / b)` for any nonzero divisor. */
  function FloorDiv(a: int, b: int): (q: int)
    requires b != 0
    ensures b > 0 ==> q * b <= a < q * b + b
    ensures b < 0 ==> q * b >= a > q * b + b
  {
    if b > 0 then a / b else (-a) / (-b)
  }

  /** `Math.ceil(a / b)` for a positive divisor. */
  function CeilDiv(a: int, b: int): (q: int)
    requires b > 0
    ensures q * b - b < a <= q * b
  {
    (a + b - 1) / b
  }

  /** `Math.round(n / d)`: the integer nearest to `n / d`, halves rounded up
      (JavaScript rounds towards positive infinity on a tie). */
  function RoundDiv(n: int, d: int): (r: int)
    requires d != 0
    ensures d > 0 ==> 2 * r * d - d <= 2 * n < 2 * r * d + d
    ensures d < 0 ==> 2 * r * d - d >= 2 * n > 2 * r * d + d
  {
    FloorDiv(2 * n + d, 2 * d)
  }

  /** A multiple of a positive `b` strictly between `-b` and `b` is zero. */
  lemma SmallMultipleIsZero(x: int, b: int)
    requires b > 0 && -b < x * b < b
    ensures x == 0
  {
  }

  /** For a positive divisor the quotient is the one `q` with
      `q * b <= a < q * b + b`. */
  lemma QuotientUnique(a: int, b: int, q: int)
    requires b > 0
    ensures q * b <= a < q * b + b <==> q == a / b
  {
    var r := a / b;
    assert a == r * b + a % b && 0 <= a % b < b;
    if q * b <= a < q * b + b {
      assert (q - r) * b == q * b - r * b;
      SmallMultipleIsZero(q - r, b);
    }
  }
}

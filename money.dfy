/**
 * Exact decimal money.  Amounts are `real`s; Django's `DecimalField(max_digits,
 * decimal_places)` becomes a domain predicate, and Python's
 * `x.quantize(Decimal("0.01"), rounding=ROUND_HALF_UP)` becomes `Q2`.
 */
module Money {
  import opened Wrappers

  predicate IsInteger(x: real) {
    x.Floor as real == x
  }

  function Pow10(n: nat): (p: nat)
    ensures p >= 1
    ensures n > 0 ==> p >= 10
  {
    if n == 0 then 1 else 10 * Pow10(n - 1)
  }

  /** `x` has at most `places` digits after the decimal point. */
  predicate HasPlaces(x: real, places: nat) {
    IsInteger(x * Pow10(places) as real)
  }

  /** The values a `DecimalField(max_digits, decimal_places)` column admits:
      at most `places` fractional digits and `maxDigits` digits in all. */
  predicate FitsDecimal(x: real, maxDigits: nat, places: nat)
    requires places <= maxDigits
  {
    var bound := Pow10(maxDigits - places) as real;
    HasPlaces(x, places) && -bound < x < bound
  }

  /** `x` is a whole number of cents. */
  predicate IsCents(x: real) {
    IsInteger(x * 100.0)
  }

  /** `x.quantize(Decimal("0.01"), rounding=ROUND_HALF_UP)`: the nearest whole
      number of cents, a tie going away from zero. */
  function Q2(x: real): (r: real)
    ensures IsCents(r)
    ensures x >= 0.0 ==> r >= 0.0 && -0.005 < r - x <= 0.005
    ensures x < 0.0 ==> r <= 0.0 && -0.005 <= r - x < 0.005
  {
    if x >= 0.0 then
      var n := (x * 100.0 + 0.5).Floor;
      WholeCents(n);
      n as real / 100.0
    else
      var n := ((-x) * 100.0 + 0.5).Floor;
      WholeCents(-n);
      assert -(n as real / 100.0) == (-n) as real / 100.0;
      -(n as real / 100.0)
  }

  /** `n` cents is a whole number of cents. */
  lemma WholeCents(n: int)
    ensures IsCents(n as real / 100.0)
  {
    assert (n as real / 100.0) * 100.0 == n as real;
  }

  /** `q2`, with Python's `None` passed through. */
  function Q2Opt(x: Option<real>): (r: Option<real>)
    ensures r.None? <==> x.None?
    ensures r.Some? ==> IsCents(r.value) && -0.005 <= r.value - x.value <= 0.005
  {
    match x
    case None => None
    case Some(v) => Some(Q2(v))
  }

  /** Two whole numbers of cents less than a cent apart are equal. */
  lemma CentsApart(a: real, b: real)
    requires IsCents(a) && IsCents(b)
    requires -0.01 < a - b < 0.01
    ensures a == b
  {
    var m, n := (a * 100.0).Floor, (b * 100.0).Floor;
    assert -1 < m - n < 1;
  }

  /** The contract of `Q2` determines it: the half-up rounding of `x` is the
      only whole number of cents in the half-open window around `x`. */
  lemma Q2Unique(x: real, c: real)
    requires IsCents(c)
    requires x >= 0.0 ==> -0.005 < c - x <= 0.005
    requires x < 0.0 ==> -0.005 <= c - x < 0.005
    ensures c == Q2(x)
  {
    CentsApart(c, Q2(x));
  }

  /** An amount that already has two decimal places is not changed by `q2`. */
  lemma Q2OfCents(x: real)
    requires IsCents(x)
    ensures Q2(x) == x
  {
    Q2Unique(x, x);
  }

  /** `q2` is idempotent. */
  lemma Q2Idempotent(x: real)
    ensures Q2(Q2(x)) == Q2(x)
  {
    Q2OfCents(Q2(x));
  }

  /** Half-up rounding is symmetric about zero. */
  lemma Q2Negate(x: real)
    ensures Q2(-x) == -Q2(x)
  {
    if x < 0.0 {
      assert -(-x) == x;
    }
  }

  lemma FloorMonotone(a: real, b: real)
    requires a <= b
    ensures a.Floor <= b.Floor
  {
    assert a.Floor as real < b.Floor as real + 1.0;
  }

  /** `q2` never reverses the order of two amounts. */
  lemma Q2Monotone(x: real, y: real)
    requires x <= y
    ensures Q2(x) <= Q2(y)
  {
    if 0.0 <= x {
      FloorMonotone(x * 100.0 + 0.5, y * 100.0 + 0.5);
    } else if y < 0.0 {
      FloorMonotone((-y) * 100.0 + 0.5, (-x) * 100.0 + 0.5);
    }
  }
}

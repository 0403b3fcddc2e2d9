/**
 The unsigned 60.18 fixed-point operations the order pool calls, by their integer meaning: a number x stands
 for x / 10^18, `Mul` rounds half up and `Div` rounds down. Every chain the pool computes collapses to a
 single floor division.
 */
module FixedPoint {

  const SCALE: nat := 1_000_000_000_000_000_000
  const HALF_SCALE: nat := 500_000_000_000_000_000

  /** Sales rates carry four decimal places, so one reward unit is 10^-22 of a token per unit of rate. */
  const RATE_SCALE: nat := 10_000
  const REWARD_SCALE: nat := RATE_SCALE * SCALE

  function FromUint(x: nat): nat {
    x * SCALE
  }

  function ToUint(x: nat): nat {
    x / SCALE
  }

  function Mul(x: nat, y: nat): nat {
    (x * y + HALF_SCALE) / SCALE
  }

  function Div(x: nat, y: nat): nat
    requires y != 0
  {
    x * SCALE / y
  }

  lemma ProductKeepsOrder(x: int, y: int, k: nat)
    ensures x <= y ==> x * k <= y * k
  {
  }

  /** What selling at `rate` for `blocks` blocks amounts to in whole tokens. */
  function Tokens(rate: nat, blocks: nat): nat {
    rate * blocks / RATE_SCALE
  }

  /** What an order selling at `rate` is paid when its reward factor has grown by `growth`. */
  function Claim(growth: nat, rate: nat): nat {
    growth * rate / REWARD_SCALE
  }

  /** How far a payment of `amount` raises the reward factor of a pool selling at `rate`. */
  function RewardPerRate(amount: nat, rate: nat): nat
    requires 0 < rate
  {
    amount * REWARD_SCALE / rate
  }

  /** Floor division is the one quotient that brackets the numerator. */
  lemma QuotientIs(n: nat, d: nat, q: nat)
    requires 0 < d && q * d <= n < (q + 1) * d
    ensures n / d == q
  {
    var r := n / d;
    assert n == d * r + n % d;
    ProductKeepsOrder(r + 1, q, d);
    ProductKeepsOrder(q + 1, r, d);
  }

  lemma CancelFactor(n: nat, d: nat, k: nat)
    requires 0 < d && 0 < k
    ensures 0 < d * k && (n * k) / (d * k) == n / d
  {
    ProductKeepsOrder(1, d, k);
    var q := n / d;
    assert n == q * d + n % d;
    ProductKeepsOrder(q * d, n, k);
    ProductKeepsOrder(n + 1, (q + 1) * d, k);
    Regroup(q, d, k);
    Regroup(q + 1, d, k);
    QuotientIs(n * k, d * k, q);
  }

  lemma Regroup(x: int, y: int, z: int)
    ensures x * (y * z) == (x * y) * z
  {
  }

  /** Multiplying by a whole number never rounds. */
  lemma MulByUint(x: nat, n: nat)
    ensures Mul(x, FromUint(n)) == x * n
  {
    assert x * (n * SCALE) == (x * n) * SCALE;
  }

  /** A payment of `amount` to a pool selling at `rate` raises the reward factor by one floor division. */
  lemma RewardPerUnit(amount: nat, rate: nat)
    requires 0 < rate
    ensures FromUint(rate) != 0
    ensures Div(Mul(FromUint(amount), FromUint(RATE_SCALE)), FromUint(rate)) == RewardPerRate(amount, rate)
  {
    MulByUint(FromUint(amount), RATE_SCALE);
    CancelFactor(amount * REWARD_SCALE, rate, SCALE);
  }

  /** Three successive roundings of a claim amount to one. */
  lemma ClaimIsOneDivision(growth: nat, rate: nat)
    ensures ToUint(Div(Mul(growth, FromUint(rate)), FromUint(RATE_SCALE))) == Claim(growth, rate)
  {
    MulByUint(growth, rate);
    var owed := growth * rate;
    assert owed * SCALE / FromUint(RATE_SCALE) == owed / RATE_SCALE;
  }

  /** `r` is the root of `n`, rounded down. */
  predicate RoundedRoot(r: nat, n: nat) {
    r * r <= n < (r + 1) * (r + 1)
  }

  /** The root of `n` from the root of its quarter. */
  function NextRoot(n: nat, half: nat): nat {
    if (2 * half + 1) * (2 * half + 1) <= n then 2 * half + 1 else 2 * half
  }

  lemma RootStep(n: nat, half: nat)
    requires RoundedRoot(half, n / 4)
    ensures RoundedRoot(NextRoot(n, half), n)
  {
    assert (2 * half) * (2 * half) == 4 * (half * half);
    assert (2 * half + 2) * (2 * half + 2) == 4 * ((half + 1) * (half + 1));
  }

  /** The integer square root, rounded down. */
  function IntegerRoot(n: nat): (r: nat)
    ensures RoundedRoot(r, n)
  {
    if n == 0 then 0
    else
      hide RoundedRoot, NextRoot;
      var half := IntegerRoot(n / 4);
      RootStep(n, half);
      NextRoot(n, half)
  }

  function Sqrt(x: nat): nat {
    IntegerRoot(x * SCALE)
  }

  /** The geometric mean of two token amounts, as the pair computes it. */
  function RootK(a: nat, b: nat): nat {
    ToUint(Mul(Sqrt(FromUint(a)), Sqrt(FromUint(b))))
  }

  lemma SqrtOfUint(n: nat)
    ensures 0 < n ==> SCALE <= Sqrt(FromUint(n))
    ensures Sqrt(FromUint(n)) * Sqrt(FromUint(n)) <= n * SCALE * SCALE
  {
    SquareKeepsOrder(Sqrt(FromUint(n)) + 1, SCALE);
  }

  lemma SquareKeepsOrder(x: nat, y: nat)
    ensures x <= y ==> x * x <= y * y
  {
  }

  /** `x` is the root of `n` with scale `s`, rounded down. */
  predicate IsRoot(x: nat, n: nat, s: nat) {
    RoundedRoot(x, n * s * s)
  }

  lemma RootOfUint(n: nat)
    ensures IsRoot(Sqrt(FromUint(n)), n, SCALE)
  {
    assert FromUint(n) * SCALE == n * SCALE * SCALE;
  }

  lemma RootBelow(x: nat, n: nat, s: nat)
    requires IsRoot(x, n, s)
    ensures x <= n * s
  {
    if n != 0 {
      ProductKeepsOrder(1, n, n * s * s);
      assert n * (n * s * s) == (n * s) * (n * s);
      SquaresCancel(x, n * s);
    }
  }

  lemma SquaresCancel(x: nat, y: nat)
    requires x * x <= y * y
    ensures x <= y
  {
    SquareKeepsOrder(y + 1, x);
  }

  lemma SquaresMultiply(x: nat, y: nat, p: nat, q: nat)
    ensures x * x <= p && y * y <= q ==> (x * y) * (x * y) <= p * q
    ensures p < x * x && q < y * y ==> p * q < (x * y) * (x * y)
  {
    assert (x * y) * (x * y) == (x * x) * (y * y);
    if x * x <= p && y * y <= q {
      ProductKeepsOrder(x * x, p, y * y);
      ProductKeepsOrder(y * y, q, p);
    }
    if p < x * x && q < y * y {
      ProductKeepsOrder(p, x * x, q);
      ProductKeepsOrder(q + 1, y * y, x * x);
    }
  }

  /** `r` is a product of roots with scale `s`, rounded half up and then down. */
  predicate RoundedTwice(product: nat, r: nat, s: nat, half: nat) {
    r * s * s <= product + half < (r + 1) * s * s
  }

  lemma ProductRoundsTwice(x: nat, y: nat)
    ensures RoundedTwice(x * y, ToUint(Mul(x, y)), SCALE, HALF_SCALE)
  {
    var product := x * y;
    var m := (product + HALF_SCALE) / SCALE;
    assert ToUint(Mul(x, y)) == m / SCALE;
  }

  lemma LowSquare(r: int, s: int, h: int)
    requires s == 2 * h
    ensures (r * s * s - h) * (r * s * s - h) == (r * r * s - r) * (s * s * s) + h * h
  {
    var x := r * s * s;
    assert (x - h) * (x - h) == x * x - 2 * h * x + h * h;
    assert x * x == (r * r * s) * (s * s * s);
    assert 2 * h * x == s * x == r * (s * s * s);
    assert (r * r * s - r) * (s * s * s) == (r * r * s) * (s * s * s) - r * (s * s * s);
  }

  lemma CancelWithRest(x: int, y: int, k: nat, rest: nat)
    requires 0 < k && x * k + rest <= y * k
    ensures x <= y
  {
    if y < x {
      ProductKeepsOrder(y + 1, x, k);
      assert false;
    }
  }

  lemma LowBelow(r: nat, product: nat, s: nat, h: nat)
    requires RoundedTwice(product, r, s, h) && 0 < r && s == 2 * h
    ensures (r * r * s - r) * (s * s * s) + h * h <= product * product
  {
    LowIsNatural(r, s, h);
    LowSquare(r, s, h);
    SquareKeepsOrder(r * s * s - h, product);
  }

  lemma LowRoot(r: nat, product: nat, ab: nat, s: nat, h: nat)
    requires RoundedTwice(product, r, s, h)
    requires 0 < h && s == 2 * h && product * product <= ab * (s * s * s * s)
    ensures r * r * s <= ab * s + r
  {
    hide RoundedTwice;
    if r != 0 {
      LowBelow(r, product, s, h);
      CubePositive(s);
      FourthFromCube(ab, s);
      CancelWithRest(r * r * s - r, ab * s, s * s * s, h * h);
    }
  }

  lemma MeanAbove(r: nat, x: nat, y: nat, ab: nat, s: nat, h: nat)
    requires RoundedTwice(x * y, r, s, h) && 0 < h && s == 2 * h && BracketProduct(x, y, ab, s)
    ensures r * r * s <= ab * s + r
  {
    hide RoundedTwice;
    LowRoot(r, x * y, ab, s, h);
  }

  lemma FourthFromCube(ab: int, s: int)
    ensures ab * (s * s * s * s) == (ab * s) * (s * s * s)
  {
  }

  lemma LowIsNatural(r: nat, s: nat, h: nat)
    requires 0 < r && s == 2 * h
    ensures 0 <= r * s * s - h
  {
    ProductKeepsOrder(1, r, s * s);
    assert r * s * s == r * (s * s);
    assert h <= s * s;
  }

  lemma CubePositive(s: nat)
    requires 0 < s
    ensures 0 < s * s * s
  {
  }

  lemma ScaledSum(r: int, a: int, b: int, s: int)
    ensures ((r + 1) * s + a + b) * s == (r + 1) * s * s + a * s + b * s
  {
  }

  lemma SquareOfScaled(w: int, s: int)
    ensures (w * s) * (w * s) == (w * w) * (s * s)
  {
  }

  lemma FourthPower(ab: int, s: int)
    ensures ab * (s * s * s * s) == (ab * s * s) * (s * s)
  {
  }

  lemma CancelLess(x: int, y: int, k: nat)
    requires x * k < y * k
    ensures x < y
  {
  }

  lemma MeanBelow(r: nat, x: nat, y: nat, a: nat, b: nat, s: nat, h: nat)
    requires RoundedTwice(x * y, r, s, h) && x <= a * s && y <= b * s && BracketProduct(x, y, a * b, s)
    ensures a * b * s * s < ((r + 1) * s + a + b) * ((r + 1) * s + a + b)
  {
    var z, w := (x + 1) * (y + 1), (r + 1) * s + a + b;
    ScaledSum(r, a, b, s);
    assert z == x * y + x + y + 1;
    assert z <= w * s;
    SquareKeepsOrder(z, w * s);
    SquareOfScaled(w, s);
    FourthPower(a * b, s);
    CancelLess(a * b * s * s, w * w, s * s);
  }

  /** `x * y` and `(x + 1) * (y + 1)` are on either side of the root of `ab`, scaled twice. */
  predicate BracketProduct(x: nat, y: nat, ab: nat, s: nat) {
    && (x * y) * (x * y) <= ab * (s * s * s * s)
    && ab * (s * s * s * s) < ((x + 1) * (y + 1)) * ((x + 1) * (y + 1))
  }

  lemma ScaledProduct(a: int, b: int, s: int)
    ensures (a * s * s) * (b * s * s) == (a * b) * (s * s * s * s)
  {
    var ss := s * s;
    assert a * s * s == a * ss && b * s * s == b * ss && s * s * s * s == ss * ss;
    assert (a * ss) * (b * ss) == (a * b) * (ss * ss);
  }

  /** The product of the two roots, squared, brackets the product of the amounts. */
  lemma RootsBracket(a: nat, b: nat, x: nat, y: nat, s: nat)
    requires IsRoot(x, a, s) && IsRoot(y, b, s)
    ensures BracketProduct(x, y, a * b, s)
  {
    ScaledProduct(a, b, s);
    SquaresMultiply(x, y, a * s * s, b * s * s);
    SquaresMultiply(x + 1, y + 1, a * s * s, b * s * s);
  }

  /** `r` is the geometric mean of `a` and `b` up to the rounding of roots with scale `s`. */
  predicate IsMean(r: nat, a: nat, b: nat, s: nat) {
    && r * r * s <= a * b * s + r
    && a * b * s * s < ((r + 1) * s + a + b) * ((r + 1) * s + a + b)
  }

  lemma MeanOfRoots(a: nat, b: nat, x: nat, y: nat, r: nat, s: nat, half: nat)
    requires RoundedTwice(x * y, r, s, half)
    requires 0 < half && s == 2 * half && IsRoot(x, a, s) && IsRoot(y, b, s)
    ensures IsMean(r, a, b, s)
  {
    RootsBracket(a, b, x, y, s);
    RootBelow(x, a, s);
    RootBelow(y, b, s);
    hide IsRoot, RoundedTwice, BracketProduct;
    MeanAbove(r, x, y, a * b, s, half);
    MeanBelow(r, x, y, a, b, s, half);
  }

  /**
   The shares for a first liquidity are the geometric mean of its two amounts, up to the rounding of the fixed-point
   roots: r x r exceeds a x b by at most r / 10^18, and r + 1 + (a + b) / 10^18 is already above the mean.
   */
  lemma RootKIsMean(a: nat, b: nat)
    ensures IsMean(RootK(a, b), a, b, 1_000_000_000_000_000_000)
  {
    var x, y := Sqrt(FromUint(a)), Sqrt(FromUint(b));
    ProductRoundsTwice(x, y);
    RootOfUint(a);
    RootOfUint(b);
    hide Sqrt, FromUint, ToUint, Mul, IsRoot, RoundedTwice, IsMean;
    MeanOfRoots(a, b, x, y, RootK(a, b), SCALE, HALF_SCALE);
  }

  /** Positive amounts have a positive mean, so the first liquidity mints shares. */
  lemma RootKPositive(a: nat, b: nat)
    requires 0 < a && 0 < b
    ensures 0 < RootK(a, b)
  {
    SqrtOfUint(a);
    SqrtOfUint(b);
    var x, y := Sqrt(FromUint(a)), Sqrt(FromUint(b));
    ProductKeepsOrder(SCALE, x, y);
    assert SCALE * SCALE <= x * y;
  }
}

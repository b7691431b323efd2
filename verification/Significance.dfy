/** What the p-value of the U test means: both tails of the normal approximation beyond the
    continuity-corrected distance of U from its mean; and what the Wilson bounds solve.
 */
module Significance {
  import opened Wrappers
  import opened RankTest

  // ---- The variance ------------------------------------------------------------------

  lemma VarianceAt(na: real, nb: real, tie: real)
    requires na + nb > 1.0
    ensures var n := na + nb;
            VarianceOf(na, nb, tie) * (12.0 * (n * (n - 1.0))) == na * nb * ((n + 1.0) * (n * (n - 1.0)) - tie)
  {
    var n := na + nb;
    var d := n * (n - 1.0);
    PositiveProduct(n, n - 1.0);
    var q := tie / d;
    assert q * d == tie;
    SpreadOver(na * nb, n + 1.0, q, d);
  }

  /** The variance from the tie term, without its quotient. */
  lemma VarianceFormula(a: seq<real>, b: seq<real>)
    requires a != [] && b != []
    ensures var na, nb := |a| as real, |b| as real;
            var n := na + nb;
            Variance(a, b) * (12.0 * (n * (n - 1.0))) == na * nb * ((n + 1.0) * (n * (n - 1.0)) - Tie(a + b))
  {
    VarianceAt(|a| as real, |b| as real, Tie(a + b));
  }

  lemma SpreadOver(k: real, m: real, q: real, d: real)
    ensures (k / 12.0 * (m - q)) * (12.0 * d) == k * (m * d - q * d)
  {
    calc {
      (k / 12.0 * (m - q)) * (12.0 * d);
      (k / 12.0 * 12.0) * ((m - q) * d);
      k * ((m - q) * d);
    }
    assert (m - q) * d == m * d - q * d;
  }

  predicate AllDistinct(p: seq<real>) {
    forall i, j :: 0 <= i < j < |p| ==> p[i] != p[j]
  }

  lemma {:induction false} TiedOnce(p: seq<real>, i: nat)
    requires AllDistinct(p) && i < |p|
    ensures CountTied(p, p[i]) == 1.0
    decreases |p|
  {
    var rest := p[1..];
    if i == 0 {
      forall x | x in rest
        ensures Tied(p[0])(x) == 0.0
      {
        var j :| 0 <= j < |rest| && rest[j] == x;
        assert p[j + 1] == x;
      }
      SumZeros(rest, Tied(p[0]));
    } else {
      TiedOnce(rest, i - 1);
    }
  }

  lemma VarianceAtNone(na: real, nb: real)
    requires na + nb > 1.0
    ensures VarianceOf(na, nb, 0.0) == na * nb * (na + nb + 1.0) / 12.0
  {
    var n := na + nb;
    PositiveProduct(n, n - 1.0);
    assert TieCorrection(n, 0.0) == 0.0;
    Twelfth(na * nb, n + 1.0);
  }

  lemma Twelfth(k: real, m: real)
    ensures k / 12.0 * m == k * m / 12.0
  {
  }

  lemma DistinctHasNoTies(p: seq<real>)
    requires AllDistinct(p)
    ensures Tie(p) == 0.0
  {
    forall x | x in p
      ensures TieOf(p)(x) == 0.0
    {
      var i :| 0 <= i < |p| && p[i] == x;
      TiedOnce(p, i);
    }
    SumZeros(p, TieOf(p));
  }

  /** Without ties it is the textbook's. */
  lemma VarianceWithoutTies(a: seq<real>, b: seq<real>)
    requires a != [] && b != [] && AllDistinct(a + b)
    ensures Variance(a, b) == |a| as real * |b| as real * (|a| as real + |b| as real + 1.0) / 12.0
  {
    DistinctHasNoTies(a + b);
    VarianceAtNone(|a| as real, |b| as real);
  }

  // ---- The p-value -------------------------------------------------------------------

  function Distance(x: real, y: real): real {
    if x < y then y - x else x - y
  }

  /** A tail of a distribution that is symmetric about 0. */
  ghost predicate SymmetricTail(sf: real -> real) {
    forall x :: sf(-x) == 1.0 - sf(x)
  }

  ghost predicate SquareRoot(sqrt: real -> real) {
    forall x :: x > 0.0 ==> sqrt(x) > 0.0 && sqrt(x) * sqrt(x) == x
  }

  ghost predicate Falls(sf: real -> real) {
    forall x, y :: x <= y ==> sf(y) <= sf(x)
  }

  /** U's distance from its mean. */
  function Off(a: seq<real>, b: seq<real>): real {
    Distance(U(a, b), |a| as real * |b| as real / 2.0)
  }

  /** A distance in standard deviations, half a step off for continuity. */
  predicate Deviates(off: real, variance: real, z: real) {
    && z >= 0.0
    && (off <= 0.5 ==> z == 0.0)
    && (off > 0.5 ==> z * z * variance == (off - 0.5) * (off - 0.5))
  }

  /** The test takes the smaller statistic; it lies as far from the mean as either. */
  lemma SmallerIsAsFar(a: seq<real>, b: seq<real>)
    ensures var mu := |a| as real * |b| as real / 2.0;
            Distance(Smaller(U(a, b), U(b, a)), mu) == Distance(U(a, b), mu) == Distance(U(b, a), mu)
  {
    EveryPairCounts(a, b);
    assert U(a, b) + U(b, a) == |a| as real * |b| as real;
  }

  lemma QuotientSquared(x: real, r: real, v: real)
    requires r > 0.0 && r * r == v
    ensures x / r * (x / r) * v == x * x
    ensures x > 0.0 <==> x / r > 0.0
  {
    var q := x / r;
    assert q * r == x;
    calc {
      q * q * v;
      q * q * (r * r);
      (q * r) * (q * r);
    }
    if x > 0.0 {
      assert q > 0.0;
    }
  }

  lemma BothTailsOf(u: real, mu: real, v: real, sqrt: real -> real, normalSf: real -> real) returns (z: real)
    requires v > 0.0 && SquareRoot(sqrt) && SymmetricTail(normalSf)
    ensures Deviates(Distance(u, mu), v, z)
    ensures TwoSidedP(u, mu, v, sqrt, normalSf) == Some(Smaller(1.0, normalSf(z) + (1.0 - normalSf(-z))))
  {
    var x := Distance(u, mu) - 0.5;
    QuotientSquared(x, sqrt(v), v);
    z := if x / sqrt(v) > 0.0 then x / sqrt(v) else 0.0;
    assert TwoSidedP(u, mu, v, sqrt, normalSf) == Some(Smaller(1.0, 2.0 * normalSf(z)));
  }

  lemma SameSizesAndTies(a: seq<real>, b: seq<real>, c: seq<real>, d: seq<real>)
    requires a != [] && b != [] && |a| == |c| && |b| == |d| && Tie(a + b) == Tie(c + d)
    ensures Variance(a, b) == Variance(c, d)
    ensures |a| as real * |b| as real / 2.0 == |c| as real * |d| as real / 2.0
  {
  }

  lemma SpreadSamples(a: seq<real>, b: seq<real>)
    requires a != [] && b != [] && !AllEqual(a + b)
    ensures Variance(a, b) > 0.0
  {
    VarianceVanishes(a, b);
  }

  lemma StatisticOf(a: seq<real>, b: seq<real>, sqrt: real -> real, normalSf: real -> real)
    returns (u: real, mu: real, v: real)
    requires a != [] && b != [] && SquareRoot(sqrt)
    ensures mu == |a| as real * |b| as real / 2.0 && v == Variance(a, b)
    ensures PValue(a, b, sqrt, normalSf) == TwoSidedP(u, mu, v, sqrt, normalSf)
    ensures Distance(u, mu) == Off(a, b)
  {
    u, mu, v := Smaller(U(a, b), U(b, a)), |a| as real * |b| as real / 2.0, Variance(a, b);
    SmallerIsAsFar(a, b);
  }

  /** The p-value is the probability of a deviation at least as large, on either side. */
  lemma PValueIsBothTails(a: seq<real>, b: seq<real>, sqrt: real -> real, normalSf: real -> real) returns (z: real)
    requires a != [] && b != [] && !AllEqual(a + b) && SquareRoot(sqrt) && SymmetricTail(normalSf)
    ensures Deviates(Off(a, b), Variance(a, b), z)
    ensures PValue(a, b, sqrt, normalSf) == Some(Smaller(1.0, normalSf(z) + (1.0 - normalSf(-z))))
  {
    var u, mu, v := StatisticOf(a, b, sqrt, normalSf);
    SpreadSamples(a, b);
    z := BothTailsOf(u, mu, v, sqrt, normalSf);
  }

  /** Only one number deviates so. */
  lemma DeviationIsOne(off: real, variance: real, z: real, y: real)
    requires variance > 0.0 && Deviates(off, variance, z) && Deviates(off, variance, y)
    ensures z == y
  {
    if z != y {
      assert (z * z - y * y) * variance == 0.0;
      if z < y { LargerSquare(z, y); } else { LargerSquare(y, z); }
    }
  }

  /** A statistic within half a step of its mean is no evidence at all. */
  lemma NoDeviationNoEvidence(a: seq<real>, b: seq<real>, sqrt: real -> real, normalSf: real -> real)
    requires a != [] && b != [] && !AllEqual(a + b) && SquareRoot(sqrt) && SymmetricTail(normalSf)
    requires Off(a, b) <= 0.5
    ensures PValue(a, b, sqrt, normalSf) == Some(1.0)
  {
    var z := PValueIsBothTails(a, b, sqrt, normalSf);
    assert normalSf(-0.0) == 1.0 - normalSf(0.0);
  }

  lemma FurtherAt(u: real, w: real, mu: real, v: real, sqrt: real -> real, normalSf: real -> real)
    requires v > 0.0 && SquareRoot(sqrt) && Distance(u, mu) <= Distance(w, mu)
    requires Falls(normalSf)
    ensures TwoSidedP(w, mu, v, sqrt, normalSf).value <= TwoSidedP(u, mu, v, sqrt, normalSf).value
  {
    DividedOrder(Distance(u, mu) - 0.5, Distance(w, mu) - 0.5, sqrt(v));
  }

  lemma BothStatistics(a: seq<real>, b: seq<real>, c: seq<real>, d: seq<real>, sqrt: real -> real, normalSf: real -> real)
    returns (u: real, w: real, mu: real, v: real)
    requires a != [] && b != [] && |a| == |c| && |b| == |d| && Tie(a + b) == Tie(c + d)
    requires !AllEqual(a + b) && SquareRoot(sqrt)
    ensures v > 0.0 && Distance(u, mu) == Off(a, b) && Distance(w, mu) == Off(c, d)
    ensures PValue(a, b, sqrt, normalSf) == TwoSidedP(u, mu, v, sqrt, normalSf)
    ensures PValue(c, d, sqrt, normalSf) == TwoSidedP(w, mu, v, sqrt, normalSf)
  {
    u, mu, v := StatisticOf(a, b, sqrt, normalSf);
    var nu, x;
    w, nu, x := StatisticOf(c, d, sqrt, normalSf);
    SpreadSamples(a, b);
    SameSizesAndTies(a, b, c, d);
  }

  /** And the further it lies away, the smaller the p-value, for samples of the same sizes and ties. */
  lemma FurtherIsLess(a: seq<real>, b: seq<real>, c: seq<real>, d: seq<real>, sqrt: real -> real, normalSf: real -> real)
    requires a != [] && b != [] && |a| == |c| && |b| == |d| && Tie(a + b) == Tie(c + d)
    requires !AllEqual(a + b) && SquareRoot(sqrt) && Falls(normalSf) && Off(a, b) <= Off(c, d)
    ensures PValue(a, b, sqrt, normalSf).Some? && PValue(c, d, sqrt, normalSf).Some?
    ensures PValue(c, d, sqrt, normalSf).value <= PValue(a, b, sqrt, normalSf).value
  {
    var u, w, mu, v := BothStatistics(a, b, c, d, sqrt, normalSf);
    FurtherAt(u, w, mu, v, sqrt, normalSf);
  }

  // ---- The Wilson interval -----------------------------------------------------------

  /** The proportion x is as far from the observed p as z standard deviations of x allow. */
  predicate SolvesScore(p: real, n: real, z: real, x: real) {
    (p - x) * (p - x) * n == z * z * (x * (1.0 - x))
  }

  lemma Difference(a: real, b: real)
    ensures (a - b) * (a - b) == a * a - 2.0 * (a * b) + b * b
  {
  }

  /** With `u` for z²/n, both ends of the interval are roots of (p - x)² == u x (1 - x). */
  lemma RootOfScore(p: real, u: real, h: real, x: real)
    requires u >= 0.0 && h * h == u * (p * (1.0 - p) + u / 4.0)
    requires x * (1.0 + u) == p + u / 2.0 - h || x * (1.0 + u) == p + u / 2.0 + h
    ensures (p - x) * (p - x) == u * (x * (1.0 - x))
  {
    var d, c := 1.0 + u, p + u / 2.0;
    LowerGap(p, u, h);
    var y := x * d;
    Difference(y, c);
    assert (y - c) * (y - c) == h * h;
    assert c * c - h * h == p * p * d;
    assert y * y - 2.0 * (y * c) + p * p * d == 0.0;
    var e := d * (x * x) - 2.0 * (x * c) + p * p;
    assert y * y == d * (d * (x * x)) && y * c == d * (x * c) by {
      assert y * y == (x * d) * (x * d);
      assert y * c == (x * d) * c;
    }
    assert d * e == 0.0;
    assert e == 0.0;
    ScoreTerms(p, u, x);
  }

  lemma ScoreTerms(p: real, u: real, x: real)
    ensures (p - x) * (p - x) - u * (x * (1.0 - x)) == (1.0 + u) * (x * x) - 2.0 * (x * (p + u / 2.0)) + p * p
  {
    Difference(p, x);
    assert x * (1.0 - x) == x - x * x;
    assert u * (x - x * x) == u * x - u * (x * x);
    assert x * (p + u / 2.0) == x * p + x * u / 2.0;
    assert (1.0 + u) * (x * x) == x * x + u * (x * x);
  }

  /** Without a trial anything is possible. */
  lemma NoTrialsTellNothing(k: int, z: real, root: real)
    ensures WilsonCi(k, 0, z, root) == (0.0, 1.0)
  {
  }

  predicate Bounds(p: real, n: real, z: real, root: real, lower: real, upper: real) {
    && n > 0.0 && 1.0 + z * z / n > 0.0
    && root * root == (p * (1.0 - p) + z * z / (4.0 * n)) / n
    && var u := z * z / n;
       var c, w := (p + u / 2.0) / (1.0 + u), (z * root) / (1.0 + u);
       lower == c - w && upper == c + w
  }

  lemma WilsonBounds(k: int, n: int, z: real, root: real)
    requires 0 <= k <= n && n > 0
    requires z >= 0.0 && root >= 0.0 && root * root == WilsonRadicand(k, n, z)
    ensures Bounds(k as real / n as real, n as real, z, root, WilsonCi(k, n, z, root).0, WilsonCi(k, n, z, root).1)
  {
    WilsonIsSound(k, n, z, root);
    WilsonTerms(k, n, z, root);
    SquareQuotient(z, n as real);
  }

  /** Both bounds solve the score equation: they are Wilson's. */
  lemma WilsonSolvesScore(k: int, n: int, z: real, root: real)
    requires 0 <= k <= n && n > 0
    requires z >= 0.0 && root >= 0.0 && root * root == WilsonRadicand(k, n, z)
    ensures SolvesScore(k as real / n as real, n as real, z, WilsonCi(k, n, z, root).0)
    ensures SolvesScore(k as real / n as real, n as real, z, WilsonCi(k, n, z, root).1)
  {
    var ci := WilsonCi(k, n, z, root);
    WilsonBounds(k, n, z, root);
    IntervalSolves(k as real / n as real, n as real, z, root, ci.0, ci.1);
  }

  lemma IntervalSolves(p: real, n: real, z: real, root: real, lower: real, upper: real)
    requires Bounds(p, n, z, root, lower, upper)
    ensures SolvesScore(p, n, z, lower) && SolvesScore(p, n, z, upper)
  {
    var u, h := z * z / n, z * root;
    HalfSquared(p, n, z, root, u);
    SquareQuotient(z, n);
    BoundSolves(p, n, z, u, h, lower, -h);
    BoundSolves(p, n, z, u, h, upper, h);
  }

  lemma SquareQuotient(z: real, n: real)
    requires n > 0.0
    ensures z * z / n >= 0.0
  {
    PositiveSquare(z);
    DividedOrder(0.0, z * z, n);
  }

  lemma PositiveSquare(z: real)
    ensures z * z >= 0.0
  {
  }

  lemma BoundSolves(p: real, n: real, z: real, u: real, h: real, x: real, side: real)
    requires n > 0.0 && u >= 0.0 && u == z * z / n && h * h == u * (p * (1.0 - p) + u / 4.0)
    requires side == h || side == -h
    requires x == (p + u / 2.0) / (1.0 + u) + side / (1.0 + u)
    ensures SolvesScore(p, n, z, x)
  {
    Divided(p + u / 2.0, side, 1.0 + u);
    RootOfScore(p, u, h, x);
    assert u * n == z * z;
    TimesOver(u, x * (1.0 - x), n, z * z);
  }

  lemma TimesOver(u: real, y: real, n: real, w: real)
    requires u * n == w
    ensures u * y * n == w * y
  {
  }
}

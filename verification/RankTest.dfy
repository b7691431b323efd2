/** The Mann-Whitney U test and the Wilson interval of `bench/sweep/stats.py`, over exact reals.
    The square root and the normal tail are parameters.
 */
module RankTest {
  import opened Wrappers

  // ---- Sums --------------------------------------------------------------------------

  function Sum<T>(s: seq<T>, g: T -> real): real {
    if s == [] then 0.0 else g(s[0]) + Sum(s[1..], g)
  }

  lemma {:induction false} SumAppend<T>(a: seq<T>, b: seq<T>, g: T -> real)
    ensures Sum(a + b, g) == Sum(a, g) + Sum(b, g)
    decreases |a|
  {
    if a == [] {
      assert a + b == b;
    } else {
      assert (a + b)[1..] == a[1..] + b;
      SumAppend(a[1..], b, g);
    }
  }

  lemma {:induction false} SumSplits<T>(s: seq<T>, f: T -> real, g: T -> real, h: T -> real)
    requires forall x :: x in s ==> f(x) == g(x) + h(x)
    ensures Sum(s, f) == Sum(s, g) + Sum(s, h)
    decreases |s|
  {
    if s != [] {
      SumSplits(s[1..], f, g, h);
    }
  }

  lemma {:induction false} SumSame<T>(s: seq<T>, f: T -> real, g: T -> real)
    requires forall x :: x in s ==> f(x) == g(x)
    ensures Sum(s, f) == Sum(s, g)
    decreases |s|
  {
    if s != [] {
      SumSame(s[1..], f, g);
    }
  }

  lemma {:induction false} SumConstant<T>(s: seq<T>, f: T -> real, c: real)
    requires forall x :: x in s ==> f(x) == c
    ensures Sum(s, f) == |s| as real * c
    decreases |s|
  {
    if s != [] {
      SumConstant(s[1..], f, c);
    }
  }

  lemma SumOnes<T>(s: seq<T>, g: T -> real)
    requires forall x :: x in s ==> g(x) == 1.0
    ensures Sum(s, g) == |s| as real
  {
    SumConstant(s, g, 1.0);
  }

  lemma SumZeros<T>(s: seq<T>, g: T -> real)
    requires forall x :: x in s ==> g(x) == 0.0
    ensures Sum(s, g) == 0.0
  {
    SumConstant(s, g, 0.0);
  }

  lemma SumRemoves<T>(t: seq<T>, k: nat, g: T -> real)
    requires k < |t|
    ensures Sum(t, g) == g(t[k]) + Sum(t[..k] + t[k + 1..], g)
  {
    assert t == t[..k] + t[k..];
    assert t[k..][0] == t[k] && t[k..][1..] == t[k + 1..];
    SumAppend(t[..k], t[k..], g);
    SumAppend(t[..k], t[k + 1..], g);
  }

  lemma RemovesSame<T>(s: seq<T>, t: seq<T>, k: nat)
    requires s != [] && k < |t| && s[0] == t[k] && multiset(s) == multiset(t)
    ensures multiset(s[1..]) == multiset(t[..k] + t[k + 1..])
  {
    assert s == [s[0]] + s[1..];
    assert t == t[..k] + [t[k]] + t[k + 1..];
    assert multiset(s[1..]) == multiset(s) - multiset{s[0]};
    assert multiset(t[..k] + t[k + 1..]) == multiset(t) - multiset{t[k]};
  }

  /** Reordering keeps a sum. */
  lemma {:induction false} SumPermutes<T>(s: seq<T>, t: seq<T>, g: T -> real)
    requires multiset(s) == multiset(t)
    ensures Sum(s, g) == Sum(t, g)
    decreases |s|
  {
    if s == [] {
      assert |multiset(t)| == 0;
    } else {
      assert s[0] in multiset(t);
      var k :| 0 <= k < |t| && t[k] == s[0];
      RemovesSame(s, t, k);
      SumPermutes(s[1..], t[..k] + t[k + 1..], g);
      SumRemoves(t, k, g);
    }
  }

  // ---- Samples and pair counts -------------------------------------------------------

  function Below(v: real): real -> real {
    x => if x < v then 1.0 else 0.0
  }

  function Tied(v: real): real -> real {
    x => if x == v then 1.0 else 0.0
  }

  function Half(v: real): real -> real {
    x => (if x < v then 1.0 else 0.0) + (if x == v then 0.5 else 0.0)
  }

  /** How many values of the sample are below `v`, and how many equal it. */
  function CountBelow(s: seq<real>, v: real): real {
    Sum(s, Below(v))
  }

  function CountTied(s: seq<real>, v: real): real {
    Sum(s, Tied(v))
  }

  function BelowIn(b: seq<real>): real -> real {
    x => CountBelow(b, x)
  }

  function TiedIn(b: seq<real>): real -> real {
    x => CountTied(b, x)
  }

  /** Pairs (a_i, b_j) with a_i > b_j, and with a_i = b_j. */
  function Wins(a: seq<real>, b: seq<real>): real {
    Sum(a, BelowIn(b))
  }

  function Ties(a: seq<real>, b: seq<real>): real {
    Sum(a, TiedIn(b))
  }

  /** The U statistic, by its definition. */
  function U(a: seq<real>, b: seq<real>): real {
    Wins(a, b) + Ties(a, b) / 2.0
  }

  /** The tie-averaged rank of a value in a pooled sample. */
  function RankOf(pool: seq<real>, v: real): real {
    CountBelow(pool, v) + (CountTied(pool, v) + 1.0) / 2.0
  }

  function RankIn(pool: seq<real>): real -> real {
    x => RankOf(pool, x)
  }

  function HalfAbove(x: real): real -> real {
    y => (if x < y then 1.0 else 0.0) + (if x == y then 0.5 else 0.0)
  }

  /** A value ahead of or behind another: the two half counts of a pair make one. */
  lemma HalvesMakeOne(r: seq<real>, x: real)
    ensures Sum(r, HalfAbove(x)) + Sum(r, Half(x)) == |r| as real
  {
    var one := (y: real) => 1.0;
    SumSplits(r, one, HalfAbove(x), Half(x));
    SumOnes(r, one);
  }

  /** Within one sample the ranks sum to n(n+1)/2, whatever its ties. */
  lemma {:induction false} OwnRanks(a: seq<real>)
    ensures Sum(a, RankIn(a)) == |a| as real * (|a| as real + 1.0) / 2.0
    decreases |a|
  {
    if a != [] {
      var x, r := a[0], a[1..];
      OwnRanks(r);
      forall y | y in r
        ensures RankIn(a)(y) == RankIn(r)(y) + HalfAbove(x)(y)
      {
      }
      SumSplits(r, RankIn(a), RankIn(r), HalfAbove(x));
      HalvesMakeOne(r, x);
      HalfIsRank(r, x);
      var n := |r| as real;
      assert RankIn(a)(x) == Sum(r, Half(x)) + 1.0;
      assert |a| as real == n + 1.0;
      assert (n + 1.0) * (n + 2.0) / 2.0 == n * (n + 1.0) / 2.0 + n + 1.0;
    }
  }

  lemma {:induction false} HalfIsRank(s: seq<real>, v: real)
    ensures Sum(s, Half(v)) == CountBelow(s, v) + CountTied(s, v) / 2.0
    decreases |s|
  {
    if s != [] {
      HalfIsRank(s[1..], v);
    }
  }

  /** Rank-sum equals pair counting: the ranks of one sample in the pool, less its own, count
      the pairs it wins and half the pairs it ties. */
  lemma RankSumIsPairCount(a: seq<real>, b: seq<real>)
    ensures Sum(a, RankIn(a + b)) - |a| as real * (|a| as real + 1.0) / 2.0 == U(a, b)
  {
    var across := (x: real) => CountBelow(b, x) + CountTied(b, x) / 2.0;
    forall x | x in a
      ensures RankIn(a + b)(x) == RankIn(a)(x) + across(x)
    {
      SumAppend(a, b, Below(x));
      SumAppend(a, b, Tied(x));
    }
    SumSplits(a, RankIn(a + b), RankIn(a), across);
    OwnRanks(a);
    var half := (x: real) => CountTied(b, x) / 2.0;
    SumSplits(a, across, BelowIn(b), half);
    SumHalves(a, TiedIn(b), half);
  }

  lemma {:induction false} SumHalves<T>(s: seq<T>, g: T -> real, h: T -> real)
    requires forall x :: x in s ==> h(x) == g(x) / 2.0
    ensures Sum(s, h) == Sum(s, g) / 2.0
    decreases |s|
  {
    if s != [] {
      SumHalves(s[1..], g, h);
    }
  }

  // ---- Symmetry and Cliff's delta ----------------------------------------------------

  /** Counting the pairs of one more value, from either side. */
  lemma {:induction false} PairsOfOne(a: seq<real>, y: real)
    ensures Sum(a, BelowIn([y])) + CountBelow(a, y) + CountTied(a, y) == |a| as real
    ensures Sum(a, TiedIn([y])) == CountTied(a, y)
    decreases |a|
  {
    if a != [] {
      PairsOfOne(a[1..], y);
      assert [y][1..] == [];
      assert CountBelow([y], a[0]) == Below(a[0])(y) + CountBelow([], a[0]);
      assert CountTied([y], a[0]) == Tied(a[0])(y) + CountTied([], a[0]);
    }
  }

  lemma PairsSplit(a: seq<real>, y: real, r: seq<real>)
    ensures Wins(a, [y] + r) == Wins(a, [y]) + Wins(a, r)
    ensures Ties(a, [y] + r) == Ties(a, [y]) + Ties(a, r)
  {
    var b := [y] + r;
    forall x | x in a
      ensures BelowIn(b)(x) == BelowIn([y])(x) + BelowIn(r)(x)
      ensures TiedIn(b)(x) == TiedIn([y])(x) + TiedIn(r)(x)
    {
      SumAppend([y], r, Below(x));
      SumAppend([y], r, Tied(x));
    }
    SumSplits(a, BelowIn(b), BelowIn([y]), BelowIn(r));
    SumSplits(a, TiedIn(b), TiedIn([y]), TiedIn(r));
  }

  lemma OneMore(m: real, n: real)
    ensures m * (n + 1.0) == m * n + m
  {
  }

  /** Every pair is won by one side or tied. */
  lemma {:induction false} EveryPairCounts(a: seq<real>, b: seq<real>)
    ensures Wins(a, b) + Wins(b, a) + Ties(a, b) == |a| as real * |b| as real
    ensures Ties(a, b) == Ties(b, a)
    decreases |b|
  {
    if b == [] {
      SumZeros(a, BelowIn(b));
      SumZeros(a, TiedIn(b));
    } else {
      var y, r := b[0], b[1..];
      EveryPairCounts(a, r);
      assert b == [y] + r;
      PairsSplit(a, y, r);
      PairsOfOne(a, y);
      FirstOf(a, b);
      OneMore(|a| as real, |r| as real);
    }
  }

  lemma FirstOf(a: seq<real>, b: seq<real>)
    requires b != []
    ensures Wins(b, a) == CountBelow(a, b[0]) + Wins(b[1..], a)
    ensures Ties(b, a) == CountTied(a, b[0]) + Ties(b[1..], a)
  {
  }

  lemma {:induction false} CountsAreNotNegative<T>(s: seq<T>, g: T -> real)
    requires forall x :: x in s ==> g(x) >= 0.0
    ensures Sum(s, g) >= 0.0
    decreases |s|
  {
    if s != [] {
      CountsAreNotNegative(s[1..], g);
    }
  }

  lemma WinsAreNotNegative(a: seq<real>, b: seq<real>)
    ensures Wins(a, b) >= 0.0 && Ties(a, b) >= 0.0
  {
    forall x | x in a
      ensures BelowIn(b)(x) >= 0.0 && TiedIn(b)(x) >= 0.0
    {
      CountsAreNotNegative(b, Below(x));
      CountsAreNotNegative(b, Tied(x));
    }
    CountsAreNotNegative(a, BelowIn(b));
    CountsAreNotNegative(a, TiedIn(b));
  }

  function CliffsDelta(a: seq<real>, b: seq<real>): real
    requires a != [] && b != []
  {
    2.0 * U(a, b) / (|a| as real * |b| as real) - 1.0
  }

  /** The two statistics split the pairs; delta is the difference of the wins over the pairs,
      stays in [-1, 1], and changes sign with the samples swapped. */
  lemma DeltaIsWinDifference(a: seq<real>, b: seq<real>)
    requires a != [] && b != []
    ensures U(a, b) + U(b, a) == |a| as real * |b| as real
    ensures CliffsDelta(a, b) == (Wins(a, b) - Wins(b, a)) / (|a| as real * |b| as real)
    ensures -1.0 <= CliffsDelta(a, b) <= 1.0
    ensures CliffsDelta(b, a) == -CliffsDelta(a, b)
  {
    EveryPairCounts(a, b);
    WinsAreNotNegative(a, b);
    WinsAreNotNegative(b, a);
    var n := |a| as real * |b| as real;
    assert |b| as real * |a| as real == n;
    PositiveProduct(|a| as real, |b| as real);
    DeltaOf(Wins(a, b), Wins(b, a), Ties(a, b), n);
    DeltaOf(Wins(b, a), Wins(a, b), Ties(a, b), n);
  }

  lemma PositiveProduct(x: real, y: real)
    requires x > 0.0 && y > 0.0
    ensures x * y > 0.0
  {
  }

  lemma DeltaOf(wins: real, losses: real, ties: real, n: real)
    requires n > 0.0 && wins >= 0.0 && losses >= 0.0 && ties >= 0.0 && wins + losses + ties == n
    ensures 2.0 * (wins + ties / 2.0) / n - 1.0 == (wins - losses) / n
    ensures -1.0 <= (wins - losses) / n <= 1.0
    ensures (losses - wins) / n == -((wins - losses) / n)
  {
    var d := (wins - losses) / n;
    assert d * n == wins - losses;
    Quotient(2.0 * (wins + ties / 2.0), n, d + 1.0);
    Quotient(losses - wins, n, -d);
  }

  lemma Quotient(x: real, n: real, q: real)
    requires n > 0.0 && q * n == x
    ensures x / n == q
  {
    assert (x / n) * n == x;
    assert (x / n - q) * n == 0.0;
  }

  // ---- The code: ranks ---------------------------------------------------------------

  /** An observation with its sample: 0 for the first, 1 for the second. */
  datatype Obs = Obs(value: real, group: int)

  function Pool(c: seq<Obs>): seq<real> {
    seq(|c|, i requires 0 <= i < |c| => c[i].value)
  }

  function Tag(s: seq<real>, group: int): seq<Obs> {
    seq(|s|, i requires 0 <= i < |s| => Obs(s[i], group))
  }

  predicate NotAfter(x: Obs, y: Obs) {
    x.value < y.value || (x.value == y.value && x.group <= y.group)
  }

  predicate Sorted(c: seq<Obs>) {
    forall i, j :: 0 <= i < j < |c| ==> NotAfter(c[i], c[j])
  }

  function Insert(x: Obs, c: seq<Obs>): (r: seq<Obs>)
    ensures multiset(r) == multiset(c) + multiset{x}
  {
    if c == [] then [x]
    else if NotAfter(x, c[0]) then [x] + c
    else
      assert c == [c[0]] + c[1..];
      [c[0]] + Insert(x, c[1..])
  }

  lemma {:induction false} InsertSorts(x: Obs, c: seq<Obs>)
    requires Sorted(c)
    ensures Sorted(Insert(x, c))
    decreases |c|
  {
    if c == [] {
    } else if NotAfter(x, c[0]) {
      var r := [x] + c;
      forall j | 0 < j < |r|
        ensures NotAfter(r[0], r[j])
      {
        assert j > 1 ==> NotAfter(c[0], c[j - 1]);
      }
    } else {
      var rest := Insert(x, c[1..]);
      InsertSorts(x, c[1..]);
      forall y | y in rest
        ensures NotAfter(c[0], y)
      {
        assert y in multiset(rest);
        assert y == x || y in c[1..];
      }
    }
  }

  /** The built-in sort. */
  function Sort(c: seq<Obs>): (r: seq<Obs>)
    ensures multiset(r) == multiset(c)
  {
    if c == [] then []
    else
      assert c == [c[0]] + c[1..];
      Insert(c[0], Sort(c[1..]))
  }

  lemma {:induction false} SortSorts(c: seq<Obs>)
    ensures Sorted(Sort(c))
    decreases |c|
  {
    if c != [] {
      SortSorts(c[1..]);
      InsertSorts(c[0], Sort(c[1..]));
    }
  }

  lemma CountThree(low: seq<real>, mid: seq<real>, high: seq<real>, v: real)
    requires forall x :: x in low ==> x < v
    requires forall x :: x in mid ==> x == v
    requires forall x :: x in high ==> x > v
    ensures RankOf(low + (mid + high), v) == |low| as real + (|mid| as real + 1.0) / 2.0
  {
    var rest := mid + high;
    SumAppend(low, rest, Below(v));
    SumAppend(low, rest, Tied(v));
    SumAppend(mid, high, Tied(v));
    SumOnes(low, Below(v));
    SumZeros(rest, Below(v));
    SumZeros(low, Tied(v));
    SumOnes(mid, Tied(v));
    SumZeros(high, Tied(v));
  }

  /** The block of equal values from i to j has i values below it and j - i + 1 tied. */
  lemma BlockRank(c: seq<Obs>, i: nat, j: nat)
    requires Sorted(c) && i <= j < |c|
    requires forall k :: i <= k <= j ==> c[k].value == c[i].value
    requires i > 0 ==> c[i - 1].value < c[i].value
    requires j + 1 < |c| ==> c[j + 1].value != c[i].value
    ensures RankOf(Pool(c), c[i].value) == (i + 1 + j + 1) as real / 2.0
  {
    var p, v := Pool(c), c[i].value;
    forall k | 0 <= k < i
      ensures p[k] < v
    {
      assert NotAfter(c[k], c[i]);
      assert k < i - 1 ==> NotAfter(c[k], c[i - 1]);
    }
    forall k | j < k < |c|
      ensures p[k] > v
    {
      assert NotAfter(c[j], c[j + 1]);
      assert k > j + 1 ==> NotAfter(c[j + 1], c[k]);
    }
    assert p == p[..i] + (p[i..j + 1] + p[j + 1..]);
    CountThree(p[..i], p[i..j + 1], p[j + 1..], v);
  }

  /** Average ranks, 1-based, filled block by block. */
  method AverageRanks(c: seq<Obs>) returns (ranks: seq<real>)
    requires Sorted(c)
    ensures |ranks| == |c|
    ensures forall k :: 0 <= k < |c| ==> ranks[k] == RankOf(Pool(c), c[k].value)
  {
    var filled := new real[|c|];
    var i := 0;
    while i < |c|
      invariant 0 <= i <= |c|
      invariant 0 < i < |c| ==> c[i - 1].value < c[i].value
      invariant forall k :: 0 <= k < i ==> filled[k] == RankOf(Pool(c), c[k].value)
    {
      var j := i;
      while j + 1 < |c| && c[j + 1].value == c[i].value
        invariant i <= j < |c|
        invariant forall k :: i <= k <= j ==> c[k].value == c[i].value
      {
        j := j + 1;
      }
      var avg := (i + 1 + j + 1) as real / 2.0;
      BlockRank(c, i, j);
      for k := i to j + 1
        invariant forall m :: 0 <= m < i ==> filled[m] == RankOf(Pool(c), c[m].value)
        invariant forall m :: i <= m < k ==> filled[m] == avg
      {
        filled[k] := avg;
      }
      assert j + 1 < |c| ==> NotAfter(c[j], c[j + 1]);
      i := j + 1;
    }
    return filled[..];
  }

  function RankIfFirst(pool: seq<real>): Obs -> real {
    (x: Obs) => if x.group == 0 then RankOf(pool, x.value) else 0.0
  }

  /** The ranks of the first sample, summed in the sorted order. */
  method RankSum(c: seq<Obs>) returns (r: real)
    requires Sorted(c)
    ensures r == Sum(c, RankIfFirst(Pool(c)))
  {
    var ranks := AverageRanks(c);
    r := 0.0;
    for k := 0 to |c|
      invariant r == Sum(c[..k], RankIfFirst(Pool(c)))
    {
      assert c[..k + 1] == c[..k] + [c[k]];
      SumAppend(c[..k], [c[k]], RankIfFirst(Pool(c)));
      SumOne(c[k], RankIfFirst(Pool(c)));
      if c[k].group == 0 {
        r := r + ranks[k];
      }
    }
    assert c[..|c|] == c;
  }

  lemma SumOne<T>(x: T, g: T -> real)
    ensures Sum([x], g) == g(x)
  {
    assert [x][1..] == [];
  }

  lemma {:induction false} SumOfValues(c: seq<Obs>, g: real -> real, h: Obs -> real)
    requires forall x :: x in c ==> h(x) == g(x.value)
    ensures Sum(Pool(c), g) == Sum(c, h)
    decreases |c|
  {
    if c != [] {
      assert Pool(c)[1..] == Pool(c[1..]);
      SumOfValues(c[1..], g, h);
    }
  }

  lemma RankIgnoresOrder(c: seq<Obs>, d: seq<Obs>, v: real)
    requires multiset(c) == multiset(d)
    ensures RankOf(Pool(c), v) == RankOf(Pool(d), v)
  {
    var below := (x: Obs) => Below(v)(x.value);
    var tied := (x: Obs) => Tied(v)(x.value);
    SumOfValues(c, Below(v), below);
    SumOfValues(d, Below(v), below);
    SumOfValues(c, Tied(v), tied);
    SumOfValues(d, Tied(v), tied);
    SumPermutes(c, d, below);
    SumPermutes(c, d, tied);
  }

  /** What the sorted loop adds up is the first sample's ranks in the pool. */
  lemma SortedRankSum(a: seq<real>, b: seq<real>, c: seq<Obs>)
    requires multiset(c) == multiset(Tag(a, 0) + Tag(b, 1))
    ensures Sum(c, RankIfFirst(Pool(c))) == Sum(a, RankIn(a + b))
  {
    var first, second := Tag(a, 0), Tag(b, 1);
    var d := first + second;
    assert Pool(d) == a + b;
    forall x | x in c
      ensures RankIfFirst(Pool(c))(x) == RankIfFirst(a + b)(x)
    {
      RankIgnoresOrder(c, d, x.value);
    }
    SumSame(c, RankIfFirst(Pool(c)), RankIfFirst(a + b));
    SumPermutes(c, d, RankIfFirst(a + b));
    SumAppend(first, second, RankIfFirst(a + b));
    SumZeros(second, RankIfFirst(a + b));
    assert Pool(first) == a;
    SumOfValues(first, RankIn(a + b), RankIfFirst(a + b));
  }

  // ---- The tie correction ------------------------------------------------------------

  function TieOf(p: seq<real>): real -> real {
    x => CountTied(p, x) * CountTied(p, x) - 1.0
  }

  /** The tie term: every value of a class of t adds t*t - 1, so a class adds t*t*t - t. */
  function Tie(p: seq<real>): real {
    Sum(p, TieOf(p))
  }

  function TieWithin(p: seq<real>, values: set<real>): real -> real {
    x => if x in values then TieOf(p)(x) else 0.0
  }

  lemma {:induction false} SumScaled<T>(s: seq<T>, g: T -> real, h: T -> real, k: real)
    requires forall x :: x in s ==> h(x) == k * g(x)
    ensures Sum(s, h) == k * Sum(s, g)
    decreases |s|
  {
    if s != [] {
      SumScaled(s[1..], g, h, k);
      Distributes(k, g(s[0]), Sum(s[1..], g));
    }
  }

  lemma Distributes(k: real, a: real, b: real)
    ensures k * (a + b) == k * a + k * b
  {
  }

  function ClassShare(p: seq<real>, v: real): real -> real {
    x => if x == v then TieOf(p)(v) else 0.0
  }

  lemma ClassAddsUp(p: seq<real>, v: real)
    ensures var t := CountTied(p, v); Sum(p, ClassShare(p, v)) == t * t * t - t
  {
    var t := CountTied(p, v);
    var k := TieOf(p)(v);
    forall x | x in p
      ensures ClassShare(p, v)(x) == k * Tied(v)(x)
    {
    }
    SumScaled(p, Tied(v), ClassShare(p, v), k);
    ShareOfClass(t);
  }

  /** One class leaves the tie term with its share. */
  lemma TieOfClass(p: seq<real>, values: set<real>, v: real)
    requires v in values
    ensures var t := CountTied(p, v);
            Sum(p, TieWithin(p, values)) == Sum(p, TieWithin(p, values - {v})) + (t * t * t - t)
  {
    forall x | x in p
      ensures TieWithin(p, values)(x) == TieWithin(p, values - {v})(x) + ClassShare(p, v)(x)
    {
    }
    SumSplits(p, TieWithin(p, values), TieWithin(p, values - {v}), ClassShare(p, v));
    ClassAddsUp(p, v);
  }

  lemma ShareOfClass(t: real)
    ensures (t * t - 1.0) * t == t * t * t - t
  {
  }

  /** Each value of the sample listed once, with how often it occurs. */
  ghost predicate Counted(order: seq<real>, counts: map<real, int>, p: seq<real>) {
    && (forall v :: v in p ==> v in order)
    && (forall i :: 0 <= i < |order| ==> order[i] in counts)
    && (forall v :: v in counts ==> v in order && counts[v] as real == CountTied(p, v))
    && (forall v :: v !in counts ==> CountTied(p, v) == 0.0)
    && (forall i, j :: 0 <= i < j < |order| ==> order[i] != order[j])
  }

  /** How often each value occurs, the values in the order they came. */
  method CountValues(p: seq<real>) returns (order: seq<real>, counts: map<real, int>)
    ensures Counted(order, counts, p)
  {
    order, counts := [], map[];
    for k := 0 to |p|
      invariant Counted(order, counts, p[..k])
    {
      CountOneMore(p, k);
      CountedGrows(order, counts, p[..k], p[k], p[..k + 1]);
      if p[k] !in counts {
        order := order + [p[k]];
      }
      counts := counts[p[k] := (if p[k] in counts then counts[p[k]] else 0) + 1];
    }
    assert p[..|p|] == p;
  }

  lemma CountedGrows(order: seq<real>, counts: map<real, int>, p: seq<real>, x: real, q: seq<real>)
    requires Counted(order, counts, p) && q == p + [x]
    requires forall v :: CountTied(q, v) == CountTied(p, v) + (if x == v then 1.0 else 0.0)
    ensures Counted(if x in counts then order else order + [x],
                    counts[x := (if x in counts then counts[x] else 0) + 1], q)
  {
    var longer := if x in counts then order else order + [x];
    var more := counts[x := (if x in counts then counts[x] else 0) + 1];
    assert forall v :: v in more <==> v in counts || v == x;
    assert forall v :: v in longer <==> v in order || v == x;
    forall v | v in q
      ensures v in longer
    {
      assert v in p || v == x;
    }
  }

  lemma CountOneMore(p: seq<real>, k: nat)
    requires k < |p|
    ensures p[..k + 1] == p[..k] + [p[k]]
    ensures forall v :: CountTied(p[..k + 1], v) == CountTied(p[..k], v) + (if p[k] == v then 1.0 else 0.0)
  {
    assert p[..k + 1] == p[..k] + [p[k]];
    forall v
      ensures CountTied(p[..k + 1], v) == CountTied(p[..k], v) + (if p[k] == v then 1.0 else 0.0)
    {
      SumAppend(p[..k], [p[k]], Tied(v));
      SumOne(p[k], Tied(v));
    }
  }

  /** The classes' shares added up. */
  method TieTerm(p: seq<real>) returns (tie: real)
    ensures tie == Tie(p)
  {
    var order, counts := CountValues(p);
    tie := 0.0;
    assert order[0..] == order;
    SumSame(p, TieOf(p), TieWithin(p, Members(order, 0)));
    for i := 0 to |order|
      invariant tie + Sum(p, TieWithin(p, Members(order, i))) == Tie(p)
    {
      var t := counts[order[i]];
      TieStep(p, order, i, t);
      tie := tie + (t * t * t - t) as real;
    }
    SumZeros(p, TieWithin(p, Members(order, |order|)));
  }

  ghost function Members(order: seq<real>, from: nat): set<real>
    requires from <= |order|
  {
    set v | v in order[from..]
  }

  lemma TieStep(p: seq<real>, order: seq<real>, i: nat, t: int)
    requires i < |order| && t as real == CountTied(p, order[i])
    requires forall i, j :: 0 <= i < j < |order| ==> order[i] != order[j]
    ensures Sum(p, TieWithin(p, Members(order, i))) ==
            Sum(p, TieWithin(p, Members(order, i + 1))) + (t * t * t - t) as real
  {
    assert order[i..] == [order[i]] + order[i + 1..];
    assert Members(order, i) - {order[i]} == Members(order, i + 1);
    TieOfClass(p, Members(order, i), order[i]);
    Cube(t);
  }

  lemma Cube(t: int)
    ensures (t * t * t - t) as real == t as real * t as real * t as real - t as real
  {
    assert (t * t) as real == t as real * t as real;
    assert (t * t * t) as real == (t * t) as real * t as real;
  }

  lemma {:induction false} SumAtMost<T>(s: seq<T>, g: T -> real, c: real)
    requires forall x :: x in s ==> g(x) <= c
    ensures Sum(s, g) <= |s| as real * c
    ensures (exists x :: x in s && g(x) < c) ==> Sum(s, g) < |s| as real * c
    decreases |s|
  {
    if s != [] {
      SumAtMost(s[1..], g, c);
      Distributes(c, |s[1..]| as real, 1.0);
    }
  }

  lemma TiedAtMost(p: seq<real>, v: real)
    ensures 0.0 <= CountTied(p, v) <= |p| as real
    ensures (exists x :: x in p && x != v) ==> CountTied(p, v) < |p| as real
  {
    CountsAreNotNegative(p, Tied(v));
    SumAtMost(p, Tied(v), 1.0);
    if x :| x in p && x != v {
      assert Tied(v)(x) < 1.0;
    }
  }

  predicate AllEqual(p: seq<real>) {
    forall i, j :: 0 <= i < |p| && 0 <= j < |p| ==> p[i] == p[j]
  }

  /** An observation's largest share of the tie term of `n` observations. */
  function MostShare(n: nat): real {
    n as real * n as real - 1.0
  }

  lemma TieOfAtMost(p: seq<real>, x: real)
    ensures TieOf(p)(x) <= MostShare(|p|)
    ensures CountTied(p, x) < |p| as real ==> TieOf(p)(x) < MostShare(|p|)
  {
    TiedAtMost(p, x);
    Squares(CountTied(p, x), |p| as real);
  }

  lemma EqualShares(p: seq<real>, x: real)
    requires AllEqual(p) && x in p
    ensures TieOf(p)(x) == MostShare(|p|)
  {
    SumOnes(p, Tied(x));
  }

  /** The tie term is at most n*n*n - n, and reaches it exactly when every value is equal. */
  lemma TieBound(p: seq<real>)
    ensures Tie(p) <= |p| as real * MostShare(|p|)
    ensures Tie(p) == |p| as real * MostShare(|p|) <==> AllEqual(p)
  {
    forall x | x in p
      ensures TieOf(p)(x) <= MostShare(|p|)
    {
      TieOfAtMost(p, x);
    }
    SumAtMost(p, TieOf(p), MostShare(|p|));
    if AllEqual(p) {
      forall x | x in p
        ensures TieOf(p)(x) == MostShare(|p|)
      {
        EqualShares(p, x);
      }
      SumConstant(p, TieOf(p), MostShare(|p|));
    } else {
      SmallShareOfUnequal(p);
    }
  }

  lemma SmallShareOfUnequal(p: seq<real>)
    requires !AllEqual(p)
    ensures exists x :: x in p && TieOf(p)(x) < MostShare(|p|)
  {
    var i, j :| 0 <= i < |p| && 0 <= j < |p| && p[i] != p[j];
    assert p[j] in p && p[i] in p;
    TiedAtMost(p, p[i]);
    TieOfAtMost(p, p[i]);
  }

  lemma Squares(t: real, n: real)
    requires 0.0 <= t <= n
    ensures t * t <= n * n
    ensures t < n ==> t * t < n * n
  {
    assert n * n - t * t == (n - t) * (n + t);
    if t < n {
      PositiveProduct(n - t, n + t);
    }
  }

  function TieCorrection(n: real, tie: real): real
    requires n > 1.0
  {
    PositiveProduct(n, n - 1.0);
    tie / (n * (n - 1.0))
  }

  function VarianceOf(na: real, nb: real, tie: real): real
    requires na + nb > 1.0
  {
    na * nb / 12.0 * ((na + nb + 1.0) - TieCorrection(na + nb, tie))
  }

  /** The tie-corrected variance. */
  function Variance(a: seq<real>, b: seq<real>): real
    requires a != [] && b != []
  {
    VarianceOf(|a| as real, |b| as real, Tie(a + b))
  }

  lemma VarianceSign(na: real, nb: real, tie: real)
    requires na >= 1.0 && nb >= 1.0
    requires var n := na + nb; tie <= n * (n * n - 1.0)
    ensures VarianceOf(na, nb, tie) >= 0.0
    ensures VarianceOf(na, nb, tie) == 0.0 <==> (var n := na + nb; tie == n * (n * n - 1.0))
  {
    var n := na + nb;
    PositiveProduct(n, n - 1.0);
    PositiveProduct(na, nb);
    var d := n * (n - 1.0);
    assert n * (n * n - 1.0) == d * (n + 1.0);
    BoundedQuotient(tie, d, n + 1.0);
    assert TieCorrection(n, tie) == tie / d;
    ScaledSign(na * nb / 12.0, (n + 1.0) - TieCorrection(n, tie));
  }

  /** The variance is never negative, and zero exactly when all pooled values are equal. */
  lemma VarianceVanishes(a: seq<real>, b: seq<real>)
    requires a != [] && b != []
    ensures Variance(a, b) >= 0.0
    ensures Variance(a, b) == 0.0 <==> AllEqual(a + b)
  {
    assert |a + b| as real == |a| as real + |b| as real;
    TieBound(a + b);
    VarianceSign(|a| as real, |b| as real, Tie(a + b));
  }

  lemma BoundedQuotient(x: real, d: real, m: real)
    requires d > 0.0 && x <= d * m
    ensures x / d <= m
    ensures x / d == m <==> x == d * m
  {
    assert (x / d) * d == x;
    assert (m - x / d) * d == d * m - x;
  }

  lemma ScaledSign(k: real, x: real)
    requires k > 0.0 && x >= 0.0
    ensures k * x >= 0.0
    ensures k * x == 0.0 <==> x == 0.0
  {
  }

  // ---- The test ----------------------------------------------------------------------

  /** `p` is None where the source returns NaN. */
  datatype MWResult = MWResult(u: real, p: Option<real>, cliffsDelta: real)

  function Smaller(x: real, y: real): real {
    if x <= y then x else y
  }

  /** The result is the pair counts' and has a p-value unless all pooled values are equal. */
  method MannWhitneyU(a: seq<real>, b: seq<real>, sqrt: real -> real, normalSf: real -> real)
    returns (r: Option<MWResult>)
    requires forall x :: x > 0.0 ==> sqrt(x) > 0.0
    ensures r.None? <==> a == [] || b == []
    ensures r.Some? ==>
              && r.value.u == Smaller(U(a, b), U(b, a))
              && r.value.cliffsDelta == (Wins(a, b) - Wins(b, a)) / (|a| as real * |b| as real)
              && r.value.p == PValue(a, b, sqrt, normalSf)
              && (r.value.p.None? <==> AllEqual(a + b))
              && (r.value.p.Some? ==> r.value.p.value <= 1.0)
  {
    if |a| == 0 || |b| == 0 {
      return None;
    }
    var combined := Combined(a, b);
    var u, cliffs := Statistics(a, b, combined);
    var tie := TieTerm(Pool(combined));
    SortedTie(a, b, combined);
    var sigma2 := VarianceOf(|a| as real, |b| as real, tie);
    VarianceVanishes(a, b);
    var p := TwoSidedP(u, |a| as real * |b| as real / 2.0, sigma2, sqrt, normalSf);
    return Some(MWResult(u, p, cliffs));
  }

  /** The smaller statistic, and Cliff's delta from the first one. */
  method Statistics(a: seq<real>, b: seq<real>, combined: seq<Obs>) returns (u: real, cliffs: real)
    requires a != [] && b != []
    requires Sorted(combined) && multiset(combined) == multiset(Tag(a, 0) + Tag(b, 1))
    ensures u == Smaller(U(a, b), U(b, a))
    ensures cliffs == (Wins(a, b) - Wins(b, a)) / (|a| as real * |b| as real)
  {
    var ua := FirstStatistic(a, b, combined);
    DeltaIsWinDifference(a, b);
    var ub := |a| as real * |b| as real - ua;
    u := Smaller(ua, ub);
    PositiveProduct(|a| as real, |b| as real);
    cliffs := 2.0 * ua / (|a| as real * |b| as real) - 1.0;
    assert cliffs == CliffsDelta(a, b);
  }

  /** The continuity-corrected normal approximation, undefined without variance. */
  function TwoSidedP(u: real, mu: real, sigma2: real, sqrt: real -> real, normalSf: real -> real): (p: Option<real>)
    requires forall x :: x > 0.0 ==> sqrt(x) > 0.0
    ensures p.None? <==> sigma2 <= 0.0
    ensures p.Some? ==> p.value <= 1.0
  {
    if sigma2 <= 0.0 then None
    else
      var z := ((if u > mu then u - mu else mu - u) - 0.5) / sqrt(sigma2);
      Some(Smaller(1.0, 2.0 * normalSf(if z > 0.0 then z else 0.0)))
  }

  /** What the test answers for two samples, in terms of their pair counts and their ties. */
  function PValue(a: seq<real>, b: seq<real>, sqrt: real -> real, normalSf: real -> real): Option<real>
    requires a != [] && b != []
    requires forall x :: x > 0.0 ==> sqrt(x) > 0.0
  {
    TwoSidedP(Smaller(U(a, b), U(b, a)), |a| as real * |b| as real / 2.0, Variance(a, b), sqrt, normalSf)
  }

  lemma SwapKeepsVariance(a: seq<real>, b: seq<real>)
    requires a != [] && b != []
    ensures Variance(a, b) == Variance(b, a)
  {
    var swapped := Tag(b, 1) + Tag(a, 0);
    assert Pool(swapped) == b + a;
    SortedTie(a, b, swapped);
    assert |a| as real * |b| as real == |b| as real * |a| as real;
  }

  /** The test is two-sided: swapping the samples changes neither the statistic nor the p-value. */
  lemma SwapKeepsPValue(a: seq<real>, b: seq<real>, sqrt: real -> real, normalSf: real -> real)
    requires a != [] && b != []
    requires forall x :: x > 0.0 ==> sqrt(x) > 0.0
    ensures Smaller(U(a, b), U(b, a)) == Smaller(U(b, a), U(a, b))
    ensures PValue(a, b, sqrt, normalSf) == PValue(b, a, sqrt, normalSf)
  {
    SwapKeepsVariance(a, b);
    assert |a| as real * |b| as real == |b| as real * |a| as real;
  }

  /** Both samples' observations, sorted by value. */
  method Combined(a: seq<real>, b: seq<real>) returns (combined: seq<Obs>)
    ensures Sorted(combined) && multiset(combined) == multiset(Tag(a, 0) + Tag(b, 1))
  {
    SortSorts(Tag(a, 0) + Tag(b, 1));
    return Sort(Tag(a, 0) + Tag(b, 1));
  }

  /** U of the first sample, from the rank sum of the sorted pool. */
  method FirstStatistic(a: seq<real>, b: seq<real>, combined: seq<Obs>) returns (ua: real)
    requires Sorted(combined) && multiset(combined) == multiset(Tag(a, 0) + Tag(b, 1))
    ensures ua == U(a, b)
  {
    var ra := RankSum(combined);
    SortedRankSum(a, b, combined);
    RankSumIsPairCount(a, b);
    ua := ra - |a| as real * (|a| as real + 1.0) / 2.0;
  }

  /** The tie term of the sorted pool is that of the samples as given. */
  lemma SortedTie(a: seq<real>, b: seq<real>, c: seq<Obs>)
    requires multiset(c) == multiset(Tag(a, 0) + Tag(b, 1))
    ensures Tie(Pool(c)) == Tie(a + b)
  {
    var d := Tag(a, 0) + Tag(b, 1);
    assert Pool(d) == a + b;
    var share := (x: Obs) => TieOf(a + b)(x.value);
    forall v
      ensures CountTied(Pool(c), v) == CountTied(a + b, v)
    {
      var tied := (x: Obs) => Tied(v)(x.value);
      SumOfValues(c, Tied(v), tied);
      SumOfValues(d, Tied(v), tied);
      SumPermutes(c, d, tied);
    }
    SumSame(Pool(c), TieOf(Pool(c)), TieOf(a + b));
    SumOfValues(c, TieOf(a + b), share);
    SumOfValues(d, TieOf(a + b), share);
    SumPermutes(c, d, share);
  }

  // ---- The Wilson interval -----------------------------------------------------------

  /** The interval of `wilson_ci`; `root` is the square root in the half width. */
  function WilsonCi(k: int, n: int, z: real, root: real): (real, real)
    requires n >= 0
  {
    if n == 0 then (0.0, 1.0)
    else
      var lower := WilsonCentre(k, n, z) - WilsonHalf(n, z, root);
      var upper := WilsonCentre(k, n, z) + WilsonHalf(n, z, root);
      (if lower > 0.0 then lower else 0.0, if upper < 1.0 then upper else 1.0)
  }

  function WilsonCentre(k: int, n: int, z: real): real
    requires n > 0
  {
    var p := k as real / n as real;
    (p + z * z / (2.0 * n as real)) / (1.0 + z * z / n as real)
  }

  function WilsonRadicand(k: int, n: int, z: real): real
    requires n > 0
  {
    var p := k as real / n as real;
    (p * (1.0 - p) + z * z / (4.0 * n as real)) / n as real
  }

  function WilsonHalf(n: int, z: real, root: real): real
    requires n > 0
  {
    z * root / (1.0 + z * z / n as real)
  }

  lemma SquareOrder(a: real, b: real)
    requires b >= 0.0 && a * a <= b * b
    ensures a <= b && -a <= b
  {
    if a > b { LargerSquare(b, a); }
    if -a > b { LargerSquare(b, -a); }
  }

  lemma LargerSquare(a: real, b: real)
    requires 0.0 <= a < b
    ensures a * a < b * b
  {
    PositiveTimes(a, b - a);
    assert (b - a) * b > 0.0;
  }

  lemma PositiveTimes(a: real, b: real)
    requires a >= 0.0 && b >= 0.0
    ensures a * b >= 0.0
  {
  }

  /** `u` is z²/n: the squared half width is (p + u/2)² less p²(1 + u). */
  lemma LowerGap(p: real, u: real, h: real)
    requires h * h == u * (p * (1.0 - p) + u / 4.0)
    ensures (p + u / 2.0) * (p + u / 2.0) - h * h == p * p * (1.0 + u)
  {
    calc {
      (p + u / 2.0) * (p + u / 2.0);
      p * p + p * u + u * u / 4.0;
    }
    calc {
      u * (p * (1.0 - p) + u / 4.0);
      u * p - u * p * p + u * u / 4.0;
    }
  }

  lemma LowerBound(p: real, u: real, h: real)
    requires 0.0 <= p && 0.0 <= u && 0.0 <= h
    requires h * h == u * (p * (1.0 - p) + u / 4.0)
    ensures h <= p + u / 2.0
    ensures h == p + u / 2.0 <==> p == 0.0
  {
    LowerGap(p, u, h);
    var gap := p * p * (1.0 + u);
    PositiveTimes(p, p);
    PositiveTimes(p * p, 1.0 + u);
    SquareOrder(h, p + u / 2.0);
    if p > 0.0 {
      LargerSquare(0.0, p);
      PositiveTimes(p * p, u);
      assert gap == p * p + p * p * u;
    } else {
      SquareOrder(p + u / 2.0, h);
    }
  }

  /** The centre is off p by at most the half width. */
  lemma Encloses(p: real, u: real, h: real)
    requires 0.0 <= p <= 1.0 && 0.0 <= u && 0.0 <= h
    requires h * h == u * (p * (1.0 - p) + u / 4.0)
    ensures -h <= u * (0.5 - p) <= h
  {
    var d := u * (0.5 - p);
    var v := p * (1.0 - p);
    PositiveTimes(p, 1.0 - p);
    PositiveTimes(u, v);
    PositiveTimes(u, u * v);
    calc {
      d * d;
      u * u * ((0.5 - p) * (0.5 - p));
      { assert (0.5 - p) * (0.5 - p) == 0.25 - v; }
      u * u * (0.25 - v);
      u * u / 4.0 - u * (u * v);
    }
    assert h * h == u * v + u * u / 4.0;
    SquareOrder(d, h);
  }

  lemma DividedOrder(a: real, b: real, d: real)
    requires d > 0.0
    ensures a <= b <==> a / d <= b / d
    ensures a == b <==> a / d == b / d
  {
    assert a / d * d == a && b / d * d == b;
    if a < b { assert (b - a) / d > 0.0; }
    if a > b { assert (a - b) / d > 0.0; }
  }

  lemma FractionOfSample(k: int, n: int)
    requires 0 <= k <= n && n > 0
    ensures 0.0 <= k as real / n as real <= 1.0
    ensures k as real / n as real == 0.0 <==> k == 0
    ensures k as real / n as real == 1.0 <==> k == n
  {
    DividedOrder(0.0, k as real, n as real);
    DividedOrder(k as real, n as real, n as real);
  }

  /** The radicand times z², with z²/n written `u`. */
  lemma HalfSquared(p: real, n: real, z: real, root: real, u: real)
    requires n > 0.0 && u == z * z / n
    requires root * root == (p * (1.0 - p) + z * z / (4.0 * n)) / n
    ensures (z * root) * (z * root) == u * (p * (1.0 - p) + u / 4.0)
  {
    var r := p * (1.0 - p) + u / 4.0;
    assert z * z / (4.0 * n) == u / 4.0 by { Quarter(z * z, n); }
    assert root * root == r / n;
    calc {
      (z * root) * (z * root);
      (z * z) * (root * root);
      (z * z) * (r / n);
      { MoveDivisor(z * z, r, n); }
      (z * z / n) * r;
    }
  }

  lemma Quarter(a: real, n: real)
    requires n > 0.0
    ensures a / (4.0 * n) == a / n / 4.0
    ensures a / (2.0 * n) == a / n / 2.0
  {
    var q := a / n;
    assert q * n == a;
    assert (q / 4.0) * (4.0 * n) == a;
    assert (q / 2.0) * (2.0 * n) == a;
  }

  lemma MoveDivisor(a: real, b: real, n: real)
    requires n > 0.0
    ensures a * (b / n) == (a / n) * b
  {
    assert (b / n) * n == b && (a / n) * n == a;
  }

  /** The bounds before the clamps lie in [0, 1] and enclose the observed proportion, so neither
      clamp changes the interval. A bound is at the end of the unit interval exactly when every
      trial, or none, succeeded.
   */
  lemma WilsonIsSound(k: int, n: int, z: real, root: real)
    requires 0 <= k <= n && n > 0
    requires z >= 0.0 && root >= 0.0 && root * root == WilsonRadicand(k, n, z)
    ensures WilsonCi(k, n, z, root)
         == (WilsonCentre(k, n, z) - WilsonHalf(n, z, root), WilsonCentre(k, n, z) + WilsonHalf(n, z, root))
    ensures 0.0 <= WilsonCi(k, n, z, root).0 <= k as real / n as real <= WilsonCi(k, n, z, root).1 <= 1.0
    ensures WilsonCi(k, n, z, root).0 == 0.0 <==> k == 0
    ensures WilsonCi(k, n, z, root).1 == 1.0 <==> k == n
  {
    FractionOfSample(k, n);
    WilsonTerms(k, n, z, root);
    IntervalInTerms(k as real / n as real, n as real, z, root);
  }

  /** `u` is z²/n and `h` the half width before the division by 1 + u. */
  lemma IntervalInTerms(p: real, n: real, z: real, root: real)
    requires 0.0 <= p <= 1.0 && n > 0.0 && z >= 0.0 && root >= 0.0
    requires root * root == (p * (1.0 - p) + z * z / (4.0 * n)) / n
    ensures var u := z * z / n; var c, w := (p + u / 2.0) / (1.0 + u), (z * root) / (1.0 + u);
            && u >= 0.0
            && 0.0 <= c - w <= p <= c + w <= 1.0
            && (c - w == 0.0 <==> p == 0.0)
            && (c + w == 1.0 <==> p == 1.0)
  {
    var u, h := z * z / n, z * root;
    PositiveTimes(z, z);
    DividedOrder(0.0, z * z, n);
    PositiveTimes(z, root);
    HalfSquared(p, n, z, root, u);
    BoundsInTerms(p, u, h);
  }

  lemma BoundsInTerms(p: real, u: real, h: real)
    requires 0.0 <= p <= 1.0 && 0.0 <= u && 0.0 <= h
    requires h * h == u * (p * (1.0 - p) + u / 4.0)
    ensures var c, w := (p + u / 2.0) / (1.0 + u), h / (1.0 + u);
            && 0.0 <= c - w <= p <= c + w <= 1.0
            && (c - w == 0.0 <==> p == 0.0)
            && (c + w == 1.0 <==> p == 1.0)
  {
    LowerBound(p, u, h);
    var q := 1.0 - p;
    assert q * (1.0 - q) == p * (1.0 - p);
    LowerBound(q, u, h);
    Encloses(p, u, h);
    ScaledInterval(p, u, h);
  }

  lemma WilsonTerms(k: int, n: int, z: real, root: real)
    requires n > 0
    ensures WilsonCentre(k, n, z) == (k as real / n as real + z * z / n as real / 2.0) / (1.0 + z * z / n as real)
    ensures WilsonHalf(n, z, root) == (z * root) / (1.0 + z * z / n as real)
  {
    Quarter(z * z, n as real);
  }

  /** Dividing the bounds by 1 + u. */
  lemma ScaledInterval(p: real, u: real, h: real)
    requires 0.0 <= u
    requires h <= p + u / 2.0 && h <= 1.0 - p + u / 2.0
    requires -h <= u * (0.5 - p) <= h
    ensures var c, w := (p + u / 2.0) / (1.0 + u), h / (1.0 + u);
            && 0.0 <= c - w <= p <= c + w <= 1.0
            && (c - w == 0.0 <==> h == p + u / 2.0)
            && (c + w == 1.0 <==> h == 1.0 - p + u / 2.0)
  {
    var v, d, c0 := u * (0.5 - p), 1.0 + u, p + u / 2.0;
    BoundsInOrder(p, u, h, v);
    Divided(c0, h, d);
    assert p * d == c0 - v;
    ScaledChain(c0 / d - h / d, p, c0 / d + h / d, d, c0 - h, c0 - v, c0 + h);
  }

  lemma Divided(c0: real, h: real, d: real)
    requires d > 0.0
    ensures (c0 / d - h / d) * d == c0 - h && (c0 / d + h / d) * d == c0 + h
  {
    assert c0 / d * d == c0 && h / d * d == h;
    Spread(c0 / d, h / d, d);
  }

  lemma BoundsInOrder(p: real, u: real, h: real, v: real)
    requires h <= p + u / 2.0 && h <= 1.0 - p + u / 2.0
    requires -h <= v <= h
    ensures var c, d := p + u / 2.0, 1.0 + u;
            && 0.0 <= c - h <= c - v <= c + h <= d
            && (c + h == d <==> h == 1.0 - p + u / 2.0)
  {
  }

  lemma ScaledChain(a: real, b: real, c: real, d: real, x: real, y: real, z: real)
    requires d > 0.0 && a * d == x && b * d == y && c * d == z
    requires 0.0 <= x <= y <= z <= d
    ensures 0.0 <= a <= b <= c <= 1.0
    ensures a == 0.0 <==> x == 0.0
    ensures c == 1.0 <==> z == d
  {
    ScaledOrder(0.0, a, d);
    ScaledOrder(a, b, d);
    ScaledOrder(b, c, d);
    ScaledOrder(c, 1.0, d);
  }

  lemma Spread(c: real, w: real, d: real)
    ensures (c - w) * d == c * d - w * d && (c + w) * d == c * d + w * d
  {
  }

  lemma ScaledOrder(a: real, b: real, d: real)
    requires d > 0.0
    ensures a <= b <==> a * d <= b * d
    ensures a == b <==> a * d == b * d
  {
    if a < b { assert (b - a) * d > 0.0; }
    if a > b { assert (a - b) * d > 0.0; }
  }
}

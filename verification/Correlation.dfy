/** Average ranks and the Pearson correlation of the stage-A dependence surface.
    `Decimal` is modelled as exact `real`. */
module Correlation {
  import opened Common
  import opened Sorting
  import opened Dispersion

  // ----- average ranks -----

  /** Weight of `v` below `x`: one if smaller, a half if equal. */
  function Below(x: real): real -> real {
    v => if v < x then 1.0 else if v == x then 0.5 else 0.0
  }

  /** Counting definition of the average rank: the number of smaller values plus
      half of one plus the number of equal ones. */
  function RankOf(values: seq<real>, x: real): real { SumBy(values, Below(x)) + 0.5 }

  type Indexed = (int, real)

  predicate IndexedLe(a: Indexed, b: Indexed) { a.1 < b.1 || (a.1 == b.1 && a.0 <= b.0) }

  function ValueOf(): Indexed -> real { (a: Indexed) => a.1 }

  function Enumerate(values: seq<real>): (s: seq<Indexed>)
    ensures |s| == |values| && forall i :: 0 <= i < |s| ==> s[i] == (i, values[i])
  {
    seq(|values|, i requires 0 <= i < |values| => (i, values[i]))
  }

  lemma {:induction false} SumOfOneValue(s: seq<real>, i: nat, j: nat, x: real)
    requires i <= j <= |s|
    requires forall k :: 0 <= k < i ==> s[k] < x
    requires forall k :: i <= k < j ==> s[k] == x
    requires forall k :: j <= k < |s| ==> s[k] > x
    ensures SumBy(s, Below(x)) == (i + j) as real / 2.0
  {
    if s != [] {
      var n := |s| - 1;
      SumOfOneValue(s[..n], if i == |s| then n else i, if j == |s| then n else j, x);
    }
  }

  ghost predicate Covers(values: seq<real>, indexed: seq<Indexed>) {
    && |indexed| == |values|
    && (forall k :: 0 <= k < |indexed| ==> 0 <= indexed[k].0 < |values| && indexed[k].1 == values[indexed[k].0])
    && (forall i :: 0 <= i < |values| ==> (i, values[i]) in indexed)
  }

  /** What the sorted list of the program looks like. */
  ghost predicate Arranged(values: seq<real>, indexed: seq<Indexed>) {
    && Covers(values, indexed)
    && (forall k, l :: 0 <= k < l < |indexed| ==> indexed[k].1 <= indexed[l].1)
    && multiset(MapOver(indexed, ValueOf())) == multiset(values)
  }

  lemma {:induction false} EnumerateValues(values: seq<real>)
    ensures MapOver(Enumerate(values), ValueOf()) == values
  {
    forall i | 0 <= i < |values| ensures MapOver(Enumerate(values), ValueOf())[i] == values[i] {
      MapOverAt(Enumerate(values), ValueOf(), i);
    }
  }

  lemma PermutationCovers(values: seq<real>, indexed: seq<Indexed>)
    requires multiset(indexed) == multiset(Enumerate(values)) && |indexed| == |values|
    ensures Covers(values, indexed)
  {
    var all := Enumerate(values);
    forall k | 0 <= k < |indexed| ensures indexed[k] in all {
      SameElements(all, indexed, indexed[k]);
    }
    forall i | 0 <= i < |values| ensures (i, values[i]) in indexed {
      assert all[i] in all;
      SameElements(all, indexed, all[i]);
    }
  }

  lemma SortArranges(values: seq<real>)
    ensures Arranged(values, SortBy(Enumerate(values), IndexedLe))
  {
    var (all, indexed) := (Enumerate(values), SortBy(Enumerate(values), IndexedLe));
    SortByContents(all, IndexedLe);
    SortBySorts(all, IndexedLe);
    SortMapped(all, IndexedLe, ValueOf());
    EnumerateValues(values);
    PermutationCovers(values, indexed);
    forall k, l | 0 <= k < l < |indexed| ensures indexed[k].1 <= indexed[l].1 {
    }
  }

  /** A maximal run of equal values occupies exactly its average rank. */
  lemma RunRank(values: seq<real>, indexed: seq<Indexed>, i: nat, j: nat)
    requires Arranged(values, indexed) && i < j <= |indexed|
    requires i > 0 ==> indexed[i - 1].1 < indexed[i].1
    requires forall k :: i <= k < j ==> indexed[k].1 == indexed[i].1
    requires j < |indexed| ==> indexed[j].1 != indexed[i].1
    ensures RankOf(values, indexed[i].1) == ((i + 1) as real + j as real) / 2.0
  {
    var (s, x) := (MapOver(indexed, ValueOf()), indexed[i].1);
    forall k | 0 <= k < |indexed| ensures s[k] == indexed[k].1 {
      MapOverAt(indexed, ValueOf(), k);
    }
    SumOfOneValue(s, i, j, x);
    SumsPermute(s, values, Below(x));
  }

  ghost predicate RankedUpTo(values: seq<real>, indexed: seq<Indexed>, ranks: seq<real>, i: nat) {
    && |ranks| == |values| == |indexed|
    && (forall k :: 0 <= k < i && k < |indexed| ==>
      0 <= indexed[k].0 < |ranks| && ranks[indexed[k].0] == RankOf(values, indexed[k].1))
  }

  /** End of the run of equal values that starts at `i`. */
  method RunEnd(indexed: seq<Indexed>, i: nat) returns (j: nat)
    requires i < |indexed|
    ensures i < j <= |indexed|
    ensures forall k :: i <= k < j ==> indexed[k].1 == indexed[i].1
    ensures j < |indexed| ==> indexed[j].1 != indexed[i].1
  {
    j := i + 1;
    while j < |indexed| && indexed[j].1 == indexed[i].1
      invariant i < j <= |indexed|
      invariant forall k :: i <= k < j ==> indexed[k].1 == indexed[i].1
    {
      j := j + 1;
    }
  }

  method AssignRun(ghost values: seq<real>, indexed: seq<Indexed>, before: seq<real>, i: nat, j: nat, rank: real)
    returns (ranks: seq<real>)
    requires Arranged(values, indexed) && RankedUpTo(values, indexed, before, i) && i < j <= |indexed|
    requires forall k :: i <= k < j ==> RankOf(values, indexed[k].1) == rank
    ensures RankedUpTo(values, indexed, ranks, j)
  {
    ranks := before;
    for k := i to j
      invariant RankedUpTo(values, indexed, ranks, k)
    {
      ranks := ranks[indexed[k].0 := rank];
    }
  }

  /** Ranks by the run-scanning loop equal the counting definition at every index. */
  method AverageRanks(values: seq<real>) returns (ranks: seq<real>)
    ensures |ranks| == |values|
    ensures forall i :: 0 <= i < |values| ==> ranks[i] == RankOf(values, values[i])
  {
    var indexed := SortBy(Enumerate(values), IndexedLe);
    SortArranges(values);
    ranks := seq(|values|, _ => 0.0);
    var i := 0;
    while i < |indexed|
      invariant i <= |indexed|
      invariant 0 < i < |indexed| ==> indexed[i - 1].1 < indexed[i].1
      invariant RankedUpTo(values, indexed, ranks, i)
    {
      var j := RunEnd(indexed, i);
      var rank := ((i + 1) as real + j as real) / 2.0;
      RunRank(values, indexed, i, j);
      ranks := AssignRun(values, indexed, ranks, i, j, rank);
      i := j;
    }
  }

  // ----- laws of ranks -----

  ghost function RankSum(values: seq<real>, of: seq<real>): real {
    if of == [] then 0.0 else RankSum(values, of[..|of| - 1]) + RankOf(values, of[|of| - 1])
  }

  lemma {:induction false} RankSumAppend(values: seq<real>, x: real, of: seq<real>)
    ensures RankSum(values + [x], of) + SumBy(of, Below(x)) == RankSum(values, of) + |of| as real
  {
    if of != [] {
      var n := |of| - 1;
      var w := of[n];
      RankSumAppend(values, x, of[..n]);
      SumByAppend(values, x, Below(w));
      assert Below(w)(x) + Below(x)(w) == 1.0;
    }
  }

  /** Ranks of n values always sum to n(n+1)/2, ties or not. */
  lemma {:induction false} RanksSum(values: seq<real>)
    ensures RankSum(values, values) == (|values| * (|values| + 1)) as real / 2.0
  {
    if values != [] {
      var n := |values| - 1;
      var (front, x) := (values[..n], values[n]);
      RanksSum(front);
      RankSumAppend(front, x, front);
      SumByAppend(front, x, Below(x));
      assert values == front + [x];
      assert (n + 1) * (n + 2) == n * (n + 1) + 2 * (n + 1);
    }
  }

  lemma {:induction false} SumByMonotone(xs: seq<real>, f: real -> real, g: real -> real)
    requires forall x :: f(x) <= g(x)
    ensures SumBy(xs, f) <= SumBy(xs, g)
    ensures forall i :: 0 <= i < |xs| && f(xs[i]) < g(xs[i]) ==> SumBy(xs, f) < SumBy(xs, g)
  {
    if xs != [] {
      SumByMonotone(xs[..|xs| - 1], f, g);
    }
  }

  /** Ranks order the values as the values order themselves. */
  lemma RanksPreserveOrder(values: seq<real>, i: nat, j: nat)
    requires i < |values| && j < |values|
    ensures values[i] < values[j] <==> RankOf(values, values[i]) < RankOf(values, values[j])
    ensures values[i] == values[j] <==> RankOf(values, values[i]) == RankOf(values, values[j])
  {
    var (x, y) := (values[i], values[j]);
    if x < y {
      SumByMonotone(values, Below(x), Below(y));
      assert Below(x)(values[i]) < Below(y)(values[i]);
    } else if y < x {
      SumByMonotone(values, Below(y), Below(x));
      assert Below(y)(values[j]) < Below(x)(values[j]);
    }
  }

  // ----- Pearson correlation -----

  type Pair = (real, real)

  function SumPairs(ps: seq<Pair>, f: Pair -> real): real {
    if ps == [] then 0.0 else SumPairs(ps[..|ps| - 1], f) + f(ps[|ps| - 1])
  }

  function Product(): Pair -> real { (p: Pair) => p.0 * p.1 }

  function LeftSquare(): Pair -> real { (p: Pair) => p.0 * p.0 }

  function RightSquare(): Pair -> real { (p: Pair) => p.1 * p.1 }

  /** Squared residual of the right component after `t` times the left one. */
  ghost function ResidualSquare(t: real): Pair -> real {
    (p: Pair) => (p.0 * t - p.1) * (p.0 * t - p.1)
  }

  ghost function Times(c: real): real -> real { x => c * x }

  lemma {:induction false} SumPairsNonNegative(ps: seq<Pair>, f: Pair -> real)
    requires forall p :: f(p) >= 0.0
    ensures SumPairs(ps, f) >= 0.0
  {
    if ps != [] {
      SumPairsNonNegative(ps[..|ps| - 1], f);
    }
  }

  lemma {:induction false} SumPairsLinear(
    ps: seq<Pair>, h: Pair -> real, f: Pair -> real, g: Pair -> real, k: Pair -> real, a: real -> real, b: real -> real)
    requires forall p :: h(p) == a(f(p)) + b(g(p)) + k(p)
    requires Additive(a) && Additive(b)
    ensures SumPairs(ps, h) == a(SumPairs(ps, f)) + b(SumPairs(ps, g)) + SumPairs(ps, k)
  {
    if ps == [] {
      AdditiveAtZero(a);
      AdditiveAtZero(b);
    } else {
      SumPairsLinear(ps[..|ps| - 1], h, f, g, k, a, b);
    }
  }

  lemma TimesAdds(c: real, u: real, v: real)
    ensures Times(c)(u + v) == Times(c)(u) + Times(c)(v)
  {
  }

  lemma TimesIsAdditive(c: real)
    ensures Additive(Times(c))
  {
    forall u, v ensures Times(c)(u + v) == Times(c)(u) + Times(c)(v) {
      TimesAdds(c, u, v);
    }
  }

  lemma ResidualExpansion(t: real, quadratic: real, linear: real)
    requires quadratic == t * t && linear == -2.0 * t
    ensures forall p: Pair :: ResidualSquare(t)(p) ==
                              Times(quadratic)(LeftSquare()(p)) + Times(linear)(Product()(p)) + RightSquare()(p)
  {
  }

  lemma ResidualNonNegative(ps: seq<Pair>, t: real)
    ensures SumPairs(ps, ResidualSquare(t)) >= 0.0
  {
    forall p: Pair ensures ResidualSquare(t)(p) >= 0.0 {
      SquareNonNegative(p.0 * t - p.1);
    }
    SumPairsNonNegative(ps, ResidualSquare(t));
  }

  /** The sum of squared residuals is a quadratic in `t`, and never negative. */
  lemma ResidualQuadratic(ps: seq<Pair>, t: real, quadratic: real, linear: real)
    requires quadratic == t * t && linear == -2.0 * t
    ensures 0.0 <= Times(quadratic)(SumPairs(ps, LeftSquare())) + Times(linear)(SumPairs(ps, Product()))
                   + SumPairs(ps, RightSquare())
  {
    ResidualNonNegative(ps, t);
    ResidualExpansion(t, quadratic, linear);
    TimesIsAdditive(quadratic);
    TimesIsAdditive(linear);
    SumPairsLinear(ps, ResidualSquare(t), LeftSquare(), Product(), RightSquare(), Times(quadratic), Times(linear));
  }

  lemma Discriminant(a: real, p: real, b: real)
    requires a > 0.0
    requires var t := p / a; 0.0 <= t * t * a + -2.0 * t * p + b
    ensures p * p <= a * b
  {
  }

  lemma FlatDiscriminant(p: real, b: real, t: real)
    requires p != 0.0 && t == (b + 1.0) / (2.0 * p)
    ensures t * t * 0.0 + -2.0 * t * p + b < 0.0
  {
  }

  lemma SquaresNonNegative(ps: seq<Pair>)
    ensures SumPairs(ps, LeftSquare()) >= 0.0 && SumPairs(ps, RightSquare()) >= 0.0
  {
    forall p: Pair ensures LeftSquare()(p) >= 0.0 && RightSquare()(p) >= 0.0 {
      SquareNonNegative(p.0);
      SquareNonNegative(p.1);
    }
    SumPairsNonNegative(ps, LeftSquare());
    SumPairsNonNegative(ps, RightSquare());
  }

  /** Cauchy-Schwarz for every list of pairs. */
  lemma CauchySchwarz(ps: seq<Pair>, p: real, a: real, b: real)
    requires p == SumPairs(ps, Product()) && a == SumPairs(ps, LeftSquare()) && b == SumPairs(ps, RightSquare())
    ensures a >= 0.0 && b >= 0.0 && p * p <= a * b
  {
    SquaresNonNegative(ps);
    if a == 0.0 {
      if p != 0.0 {
        var t := (b + 1.0) / (2.0 * p);
        ResidualQuadratic(ps, t, t * t, -2.0 * t);
        FlatDiscriminant(p, b, t);
      }
    } else {
      var t := p / a;
      ResidualQuadratic(ps, t, t * t, -2.0 * t);
      Discriminant(a, p, b);
    }
  }

  function Left(): Pair -> real { (p: Pair) => p.0 }

  function Right(): Pair -> real { (p: Pair) => p.1 }

  function Lefts(pairs: seq<Pair>): seq<real> { MapOver(pairs, Left()) }

  function Rights(pairs: seq<Pair>): seq<real> { MapOver(pairs, Right()) }

  function Deviation(mx: real, my: real): Pair -> Pair { (p: Pair) => (p.0 - mx, p.1 - my) }

  /** Both components as deviations from their means. */
  function Centred(pairs: seq<Pair>): seq<Pair> {
    MapOver(pairs, Deviation(Mean(Lefts(pairs)), Mean(Rights(pairs))))
  }

  lemma SumPairsAppend(ps: seq<Pair>, p: Pair, f: Pair -> real)
    ensures SumPairs(ps + [p], f) == SumPairs(ps, f) + f(p)
  {
    assert (ps + [p])[..|ps|] == ps;
  }

  lemma {:induction false} LeftDeviations(pairs: seq<Pair>, mx: real, my: real)
    ensures SumPairs(MapOver(pairs, Deviation(mx, my)), LeftSquare()) == SumBy(Lefts(pairs), SquaredFrom(mx))
  {
    if pairs != [] {
      var (front, last) := (pairs[..|pairs| - 1], pairs[|pairs| - 1]);
      LeftDeviations(front, mx, my);
      SumPairsAppend(MapOver(front, Deviation(mx, my)), Deviation(mx, my)(last), LeftSquare());
      SumByAppend(Lefts(front), Left()(last), SquaredFrom(mx));
    }
  }

  lemma {:induction false} RightDeviations(pairs: seq<Pair>, mx: real, my: real)
    ensures SumPairs(MapOver(pairs, Deviation(mx, my)), RightSquare()) == SumBy(Rights(pairs), SquaredFrom(my))
  {
    if pairs != [] {
      var (front, last) := (pairs[..|pairs| - 1], pairs[|pairs| - 1]);
      RightDeviations(front, mx, my);
      SumPairsAppend(MapOver(front, Deviation(mx, my)), Deviation(mx, my)(last), RightSquare());
      SumByAppend(Rights(front), Right()(last), SquaredFrom(my));
    }
  }

  /** The sums of squares are zero exactly when the component is constant. */
  lemma FlatIffConstant(pairs: seq<Pair>)
    ensures SumPairs(Centred(pairs), LeftSquare()) == 0.0 <==> Constant(Lefts(pairs))
    ensures SumPairs(Centred(pairs), RightSquare()) == 0.0 <==> Constant(Rights(pairs))
  {
    LeftDeviations(pairs, Mean(Lefts(pairs)), Mean(Rights(pairs)));
    RightDeviations(pairs, Mean(Lefts(pairs)), Mean(Rights(pairs)));
    ZeroSpreadIffConstant(Lefts(pairs));
    ZeroSpreadIffConstant(Rights(pairs));
  }

  ghost predicate IsSquareRoot(sqrt: real -> real) {
    forall x :: x >= 0.0 ==> sqrt(x) >= 0.0 && sqrt(x) * sqrt(x) == x
  }

  lemma SquareAbove(x: real, y: real)
    requires 0.0 <= y < x
    ensures x * x > y * y
  {
    PositiveProduct(x - y, x + y, x * x - y * y);
  }

  lemma SquareOrder(x: real, y: real)
    requires y >= 0.0
    ensures x * x <= y * y ==> -y <= x <= y
  {
    if x > y {
      SquareAbove(x, y);
    } else if -x > y {
      SquareAbove(-x, y);
      assert (-x) * (-x) == x * x;
    }
  }

  /** Root of the product of the two spreads. */
  function RootOfSpreads(c: seq<Pair>, sqrt: real -> real): real {
    sqrt(SumPairs(c, LeftSquare()) * SumPairs(c, RightSquare()))
  }

  /** `r` is the ratio of `num` to `root`, and within [-1, 1]. */
  ghost predicate IsCorrelation(r: real, num: real, root: real) {
    root > 0.0 && r * root == num && -1.0 <= r <= 1.0
  }

  lemma QuotientBounded(num: real, root: real)
    requires root > 0.0 && -root <= num <= root
    ensures num / root * root == num && -1.0 <= num / root <= 1.0
  {
    var q := num / root;
    assert q * root == num;
    if q > 1.0 {
      PositiveProduct(q - 1.0, root, num - root);
    } else if q < -1.0 {
      PositiveProduct(-1.0 - q, root, -root - num);
    }
  }

  lemma RootPositive(root: real, square: real)
    requires root >= 0.0 && square > 0.0 && root * root == square
    ensures root > 0.0
  {
    if root == 0.0 {
      ZeroSquare(root);
    }
  }

  lemma CorrelationBounded(c: seq<Pair>, num: real, sx: real, sy: real, root: real, sqrt: real -> real)
    requires num == SumPairs(c, Product()) && sx == SumPairs(c, LeftSquare()) && sy == SumPairs(c, RightSquare())
    requires sx != 0.0 && sy != 0.0 && IsSquareRoot(sqrt) && root == RootOfSpreads(c, sqrt)
    ensures root != 0.0 && IsCorrelation(num / root, num, root)
  {
    CauchySchwarz(c, num, sx, sy);
    PositiveProduct(sx, sy, sx * sy);
    assert root >= 0.0 && root * root == sx * sy;
    SquareOrder(num, root);
    RootPositive(root, sx * sy);
    QuotientBounded(num, root);
  }

  // ----- closed form -----

  lemma CrossOfDifferences(p: Pair, mx: real, my: real)
    ensures Product()(Deviation(mx, my)(p)) == Product()(p) - Times(my)(Left()(p)) - Times(mx)(Right()(p)) + mx * my
  {
    assert (p.0 - mx) * (p.1 - my) == p.0 * p.1 - my * p.0 - mx * p.1 + mx * my;
  }

  lemma {:induction false} SumMapped(
    pairs: seq<Pair>, dev: Pair -> Pair, h: Pair -> real, left: Pair -> real, right: Pair -> real,
    f: real -> real, g: real -> real, k: real)
    requires forall p :: h(dev(p)) == h(p) - f(left(p)) - g(right(p)) + k
    requires Additive(f) && Additive(g)
    ensures SumPairs(MapOver(pairs, dev), h) ==
            SumPairs(pairs, h) - f(SumBy(MapOver(pairs, left), Itself())) - g(SumBy(MapOver(pairs, right), Itself()))
            + Multiple(|pairs|, k)
  {
    if pairs == [] {
      AdditiveAtZero(f);
      AdditiveAtZero(g);
    } else {
      var (front, last) := (pairs[..|pairs| - 1], pairs[|pairs| - 1]);
      SumMapped(front, dev, h, left, right, f, g, k);
      SumPairsAppend(MapOver(front, dev), dev(last), h);
      SumByAppend(MapOver(front, left), left(last), Itself());
      SumByAppend(MapOver(front, right), right(last), Itself());
    }
  }

  lemma CrossExpand(pairs: seq<Pair>, mx: real, my: real, k: real)
    requires k == mx * my
    ensures SumPairs(MapOver(pairs, Deviation(mx, my)), Product()) ==
            SumPairs(pairs, Product()) - Times(my)(SumBy(Lefts(pairs), Itself()))
            - Times(mx)(SumBy(Rights(pairs), Itself())) + Multiple(|pairs|, k)
  {
    forall p ensures Product()(Deviation(mx, my)(p)) == Product()(p) - Times(my)(Left()(p)) - Times(mx)(Right()(p)) + k {
      CrossOfDifferences(p, mx, my);
    }
    TimesIsAdditive(mx);
    TimesIsAdditive(my);
    SumMapped(pairs, Deviation(mx, my), Product(), Left(), Right(), Times(my), Times(mx), k);
  }

  /** The parts of a centred product sum. */
  ghost predicate CrossParts(n: real, mx: real, my: real, x: real, y: real, a: real, b: real, many: real) {
    n != 0.0 && mx == x / n && my == y / n && a == my * x && b == mx * y && many == n * (mx * my)
  }

  lemma CrossForm(n: real, mx: real, my: real, x: real, y: real, xy: real, a: real, b: real, many: real, num: real)
    requires CrossParts(n, mx, my, x, y, a, b, many) && num == xy - a - b + many
    ensures n * num == n * xy - x * y
  {
    assert n * mx == x && n * my == y;
    assert n * a == (n * my) * x && n * b == (n * mx) * y;
    assert n * many == (n * mx) * (n * my);
    assert n * num == n * xy - n * a - n * b + n * many;
  }

  lemma TimesIs(c: real, x: real)
    ensures Times(c)(x) == c * x
  {
  }

  lemma ManyIs(pairs: seq<Pair>, n: real, mx: real, my: real, k: real)
    requires n == |pairs| as real && k == mx * my
    ensures Multiple(|pairs|, k) == n * (mx * my)
  {
    MultipleIsProduct(|pairs|, k);
  }

  lemma CrossHasParts(pairs: seq<Pair>, n: real, mx: real, my: real, x: real, y: real, k: real)
    requires pairs != [] && n == |pairs| as real && x == SumBy(Lefts(pairs), Itself()) && y == SumBy(Rights(pairs), Itself())
    requires mx == Mean(Lefts(pairs)) && my == Mean(Rights(pairs)) && k == mx * my
    ensures CrossParts(n, mx, my, x, y, Times(my)(x), Times(mx)(y), Multiple(|pairs|, k))
  {
    MeanIs(Lefts(pairs), n, x);
    MeanIs(Rights(pairs), n, y);
    TimesIs(my, x);
    TimesIs(mx, y);
    ManyIs(pairs, n, mx, my, k);
  }

  /** The centred product sum in closed form. */
  lemma CrossClosedForm(pairs: seq<Pair>, n: real, x: real, y: real, xy: real, num: real)
    requires pairs != [] && n == |pairs| as real && x == SumBy(Lefts(pairs), Itself()) && y == SumBy(Rights(pairs), Itself())
    requires xy == SumPairs(pairs, Product()) && num == SumPairs(Centred(pairs), Product())
    ensures n * num == n * xy - x * y
  {
    var (mx, my) := (Mean(Lefts(pairs)), Mean(Rights(pairs)));
    var k := mx * my;
    CrossHasParts(pairs, n, mx, my, x, y, k);
    CrossExpand(pairs, mx, my, k);
    CrossForm(n, mx, my, x, y, xy, Times(my)(x), Times(mx)(y), Multiple(|pairs|, k), num);
  }

  lemma {:induction false} RawSquares(pairs: seq<Pair>)
    ensures SumPairs(pairs, LeftSquare()) == SumBy(Lefts(pairs), Square())
    ensures SumPairs(pairs, RightSquare()) == SumBy(Rights(pairs), Square())
  {
    if pairs != [] {
      var (front, last) := (pairs[..|pairs| - 1], pairs[|pairs| - 1]);
      RawSquares(front);
      SumByAppend(Lefts(front), Left()(last), Square());
      SumByAppend(Rights(front), Right()(last), Square());
    }
  }

  /** Centred sums from raw ones. */
  ghost predicate CentredAs(n: real, x: real, y: real, xx: real, yy: real, xy: real, num: real, sx: real, sy: real) {
    n * num == n * xy - x * y && n * sx == n * xx - x * x && n * sy == n * yy - y * y
  }

  /** The centred sums in closed form. */
  lemma CentredSums(pairs: seq<Pair>, n: real, x: real, y: real, xx: real, yy: real, xy: real, num: real, sx: real, sy: real)
    requires pairs != [] && n == |pairs| as real && x == SumBy(Lefts(pairs), Itself()) && y == SumBy(Rights(pairs), Itself())
    requires xx == SumPairs(pairs, LeftSquare()) && yy == SumPairs(pairs, RightSquare()) && xy == SumPairs(pairs, Product())
    requires num == SumPairs(Centred(pairs), Product())
    requires sx == SumPairs(Centred(pairs), LeftSquare()) && sy == SumPairs(Centred(pairs), RightSquare())
    ensures CentredAs(n, x, y, xx, yy, xy, num, sx, sy)
  {
    RawSquares(pairs);
    LeftDeviations(pairs, Mean(Lefts(pairs)), Mean(Rights(pairs)));
    RightDeviations(pairs, Mean(Lefts(pairs)), Mean(Rights(pairs)));
    SseClosedForm(Lefts(pairs), n, x, xx, sx);
    SseClosedForm(Rights(pairs), n, y, yy, sy);
    CrossClosedForm(pairs, n, x, y, xy, num);
  }

  lemma NonNegativeProduct(a: real, b: real)
    requires a >= 0.0 && b >= 0.0
    ensures a * b >= 0.0
  {
  }

  lemma RootSquares(c: seq<Pair>, sqrt: real -> real, sx: real, sy: real, root: real)
    requires IsSquareRoot(sqrt) && root == RootOfSpreads(c, sqrt)
    requires sx == SumPairs(c, LeftSquare()) && sy == SumPairs(c, RightSquare())
    ensures root * root == sx * sy
  {
    SquaresNonNegative(c);
    NonNegativeProduct(sx, sy);
  }

  /** The correlation exists exactly when there are three pairs and neither side
      is constant; it is then the covariance sum over the root of the spreads, and
      lies in [-1, 1]. */
  method PearsonPairs(pairs: seq<Pair>, sqrt: real -> real) returns (r: Option<real>)
    requires IsSquareRoot(sqrt)
    ensures r.None? <==> |pairs| < 3 || Constant(Lefts(pairs)) || Constant(Rights(pairs))
    ensures r.Some? ==>
      IsCorrelation(r.value, SumPairs(Centred(pairs), Product()), RootOfSpreads(Centred(pairs), sqrt))
  {
    if |pairs| < 3 {
      return None;
    }
    FlatIffConstant(pairs);
    var c := Centred(pairs);
    var num := SumPairs(c, Product());
    var sx := SumPairs(c, LeftSquare());
    var sy := SumPairs(c, RightSquare());
    if sx == 0.0 || sy == 0.0 {
      return None;
    }
    var root := RootOfSpreads(c, sqrt);
    CorrelationBounded(c, num, sx, sy, root, sqrt);
    r := Some(num / root);
  }
}

/** Sums of squares about group means: the mean is the best centre, order does not
    matter, and refining a grouping never raises the spread inside its groups.
    `Decimal` is modelled as exact `real`. */
module Dispersion {
  import opened Common
  import opened Sorting

  // ----- sums over values -----

  function SumBy(xs: seq<real>, f: real -> real): real {
    if xs == [] then 0.0 else SumBy(xs[..|xs| - 1], f) + f(xs[|xs| - 1])
  }

  function Itself(): real -> real { x => x }

  /** Signed deviation from `m`. */
  function Offset(m: real): real -> real { x => x - m }

  /** Squared deviation from `c`. */
  function SquaredFrom(c: real): real -> real { x => (x - c) * (x - c) }

  function Mean(xs: seq<real>): real {
    if xs == [] then 0.0 else SumBy(xs, Itself()) / |xs| as real
  }

  /** Sum of squared errors; undefined below two values. */
  function Sse(values: seq<real>): Option<real> {
    if |values| < 2 then None else Some(SumBy(values, SquaredFrom(Mean(values))))
  }

  function SquaresAboutMean(xs: seq<real>): real { SumBy(xs, SquaredFrom(Mean(xs))) }

  lemma SumByAppend(xs: seq<real>, x: real, f: real -> real)
    ensures SumBy(xs + [x], f) == SumBy(xs, f) + f(x)
  {
    assert (xs + [x])[..|xs|] == xs;
  }

  /** An undefined error is a spread of zero, so leaving it out changes no total. */
  lemma SseOrZero(values: seq<real>)
    ensures SquaresAboutMean(values) == if Sse(values).Some? then Sse(values).value else 0.0
  {
    if |values| == 1 {
      SumByAppend([], values[0], Itself());
      SumByAppend([], values[0], SquaredFrom(Mean(values)));
      assert values == [] + [values[0]];
      assert Mean(values) == values[0] / 1.0;
    }
  }

  ghost predicate Additive(f: real -> real) {
    forall u, v :: f(u + v) == f(u) + f(v)
  }

  lemma AdditiveAtZero(f: real -> real)
    requires Additive(f)
    ensures f(0.0) == 0.0
  {
    assert f(0.0 + 0.0) == f(0.0) + f(0.0);
  }

  /** If `f` beats `g` by an additive function of the offset, so do their sums. */
  lemma {:induction false} SumByShift(
    xs: seq<real>, f: real -> real, g: real -> real, offset: real -> real, tilt: real -> real)
    requires forall x :: f(x) >= g(x) + tilt(offset(x))
    requires Additive(tilt)
    ensures SumBy(xs, f) >= SumBy(xs, g) + tilt(SumBy(xs, offset))
  {
    if xs == [] {
      AdditiveAtZero(tilt);
    } else {
      SumByShift(xs[..|xs| - 1], f, g, offset, tilt);
    }
  }

  lemma {:induction false} OffsetsSum(xs: seq<real>, m: real)
    ensures SumBy(xs, Offset(m)) == SumBy(xs, Itself()) - Multiple(|xs|, m)
  {
    if xs != [] {
      OffsetsSum(xs[..|xs| - 1], m);
    }
  }

  lemma MultipleOfQuotient(n: nat, s: real)
    requires n > 0
    ensures Multiple(n, s / n as real) == s
  {
    MultipleIsProduct(n, s / n as real);
  }

  lemma OffsetsFromMeanCancel(xs: seq<real>)
    ensures SumBy(xs, Offset(Mean(xs))) == 0.0
  {
    OffsetsSum(xs, Mean(xs));
    if xs != [] {
      MultipleOfQuotient(|xs|, SumBy(xs, Itself()));
    }
  }

  lemma SquareTilt(x: real, c: real, m: real)
    ensures (x - c) * (x - c) >= (x - m) * (x - m) + 2.0 * (m - c) * (x - m)
  {
    var (d, t) := (m - c, x - m);
    assert x - c == t + d;
    assert (t + d) * (t + d) == t * t + 2.0 * d * t + d * d;
    assert d * d >= 0.0;
  }

  lemma TiltIsAdditive(d: real, u: real, v: real)
    ensures d * (u + v) == d * u + d * v
  {
  }

  ghost function Tilt(c: real, m: real): real -> real { t => 2.0 * (m - c) * t }

  lemma TiltAdds(c: real, m: real, u: real, v: real)
    ensures Tilt(c, m)(u + v) == Tilt(c, m)(u) + Tilt(c, m)(v)
  {
    TiltIsAdditive(2.0 * (m - c), u, v);
  }

  lemma TiltLaws(c: real, m: real)
    ensures forall x :: SquaredFrom(c)(x) >= SquaredFrom(m)(x) + Tilt(c, m)(Offset(m)(x))
    ensures Additive(Tilt(c, m))
  {
    forall x ensures SquaredFrom(c)(x) >= SquaredFrom(m)(x) + Tilt(c, m)(Offset(m)(x)) {
      SquareTilt(x, c, m);
    }
    forall u, v ensures Tilt(c, m)(u + v) == Tilt(c, m)(u) + Tilt(c, m)(v) {
      TiltAdds(c, m, u, v);
    }
  }

  /** The mean is the best single centre. */
  lemma MeanIsBest(xs: seq<real>, c: real)
    ensures SquaresAboutMean(xs) <= SumBy(xs, SquaredFrom(c))
  {
    var m := Mean(xs);
    TiltLaws(c, m);
    SumByShift(xs, SquaredFrom(c), SquaredFrom(m), Offset(m), Tilt(c, m));
    OffsetsFromMeanCancel(xs);
    AdditiveAtZero(Tilt(c, m));
  }

  /** All values are the same. */
  ghost predicate Constant(xs: seq<real>) {
    forall i, j :: 0 <= i < |xs| && 0 <= j < |xs| ==> xs[i] == xs[j]
  }

  /** A sum of non-negative terms vanishes exactly when every term does. */
  lemma {:induction false} ZeroSum(xs: seq<real>, f: real -> real)
    requires forall x :: f(x) >= 0.0
    ensures SumBy(xs, f) >= 0.0
    ensures SumBy(xs, f) == 0.0 <==> forall i :: 0 <= i < |xs| ==> f(xs[i]) == 0.0
  {
    if xs != [] {
      var n := |xs| - 1;
      ZeroSum(xs[..n], f);
      assert forall i :: 0 <= i < n ==> xs[..n][i] == xs[i];
    }
  }

  lemma SquarePositive(d: real, square: real)
    requires d != 0.0 && square == d * d
    ensures square > 0.0
  {
    if d > 0.0 {
      PositiveProduct(d, d, square);
    } else {
      assert square == (-d) * (-d);
      PositiveProduct(-d, -d, square);
    }
  }

  lemma SquaredFromPositive(c: real, x: real)
    requires x != c
    ensures SquaredFrom(c)(x) > 0.0
  {
    SquarePositive(x - c, SquaredFrom(c)(x));
  }

  lemma ZeroSquare(d: real)
    requires d == 0.0
    ensures d * d == 0.0
  {
  }

  lemma SquaredFromItself(c: real)
    ensures SquaredFrom(c)(c) == 0.0
  {
    ZeroSquare(c - c);
  }

  lemma SumVanishesAt(xs: seq<real>, f: real -> real, c: real)
    requires f(c) == 0.0 && forall x :: x != c ==> f(x) > 0.0
    ensures SumBy(xs, f) >= 0.0
    ensures SumBy(xs, f) == 0.0 <==> forall i :: 0 <= i < |xs| ==> xs[i] == c
  {
    ZeroSum(xs, f);
  }

  lemma SquaresVanishAt(xs: seq<real>, c: real)
    ensures SumBy(xs, SquaredFrom(c)) >= 0.0
    ensures SumBy(xs, SquaredFrom(c)) == 0.0 <==> forall i :: 0 <= i < |xs| ==> xs[i] == c
  {
    SquaredFromItself(c);
    forall x | x != c ensures SquaredFrom(c)(x) > 0.0 {
      SquaredFromPositive(c, x);
    }
    SumVanishesAt(xs, SquaredFrom(c), c);
  }

  /** The spread about the mean vanishes exactly when all values are the same. */
  lemma ZeroSpreadIffConstant(xs: seq<real>)
    ensures SquaresAboutMean(xs) == 0.0 <==> Constant(xs)
  {
    var c := if Constant(xs) && xs != [] then xs[0] else Mean(xs);
    SquaresVanishAt(xs, c);
    SquaresVanishAt(xs, Mean(xs));
    MeanIsBest(xs, c);
  }

  function Square(): real -> real { x => x * x }

  ghost function Twice(c: real): real -> real { t => 2.0 * c * t }

  lemma SquareOfDifference(x: real, c: real)
    ensures SquaredFrom(c)(x) == Square()(x) - Twice(c)(x) + c * c
  {
    assert (x - c) * (x - c) == x * x - 2.0 * c * x + c * c;
  }

  lemma TwiceAdds(c: real, u: real, v: real)
    ensures Twice(c)(u + v) == Twice(c)(u) + Twice(c)(v)
  {
    TiltIsAdditive(2.0 * c, u, v);
  }

  lemma {:induction false} SquaresExpand(xs: seq<real>, c: real)
    ensures SumBy(xs, SquaredFrom(c)) == SumBy(xs, Square()) - Twice(c)(SumBy(xs, Itself())) + Multiple(|xs|, c * c)
  {
    if xs != [] {
      var (front, last) := (xs[..|xs| - 1], xs[|xs| - 1]);
      SquaresExpand(front, c);
      SquareOfDifference(last, c);
      TwiceAdds(c, SumBy(front, Itself()), last);
    }
  }

  /** The parts of a sum of squares about the mean c of n values with sum s and sum of
      squares q. */
  ghost predicate Parts(n: real, c: real, s: real, q: real, twice: real, many: real, squares: real) {
    n != 0.0 && c == s / n && twice == 2.0 * c * s && many == n * (c * c) && squares == q - twice + many
  }

  lemma CentredForm(n: real, c: real, s: real, q: real, twice: real, many: real, squares: real)
    requires Parts(n, c, s, q, twice, many, squares)
    ensures n * squares == n * q - s * s
  {
    assert n * c == s;
    assert n * twice == 2.0 * (n * c) * s;
    assert n * many == (n * c) * (n * c);
    assert n * squares == n * q - n * twice + n * many;
  }

  lemma TwiceIs(c: real, s: real)
    ensures Twice(c)(s) == 2.0 * c * s
  {
  }

  lemma MeanIs(xs: seq<real>, n: real, s: real)
    requires xs != [] && n == |xs| as real && s == SumBy(xs, Itself())
    ensures n != 0.0 && Mean(xs) == s / n
  {
  }

  lemma MultipleIs(xs: seq<real>, n: real, x: real)
    requires n == |xs| as real
    ensures Multiple(|xs|, x) == n * x
  {
    MultipleIsProduct(|xs|, x);
  }

  lemma SquaresSplit(xs: seq<real>, c: real, s: real, q: real, squares: real, twice: real, many: real)
    requires s == SumBy(xs, Itself()) && q == SumBy(xs, Square()) && squares == SumBy(xs, SquaredFrom(c))
    requires twice == Twice(c)(s) && many == Multiple(|xs|, c * c)
    ensures squares == q - twice + many
  {
    SquaresExpand(xs, c);
  }

  lemma PartsHold(n: real, c: real, s: real, q: real, twice: real, many: real, squares: real)
    requires n != 0.0 && c == s / n && squares == q - twice + many
    requires twice == 2.0 * c * s && many == n * (c * c)
    ensures Parts(n, c, s, q, twice, many, squares)
  {
  }

  /** The sum of squared errors in closed form: n times it is n times the sum of the
      squares less the square of the sum. */
  lemma SseClosedForm(xs: seq<real>, n: real, s: real, q: real, squares: real)
    requires xs != [] && n == |xs| as real && s == SumBy(xs, Itself()) && q == SumBy(xs, Square())
    requires squares == SumBy(xs, SquaredFrom(Mean(xs)))
    ensures n * squares == n * q - s * s
  {
    var c := Mean(xs);
    var (twice, many) := (Twice(c)(s), Multiple(|xs|, c * c));
    MeanIs(xs, n, s);
    SquaresSplit(xs, c, s, q, squares, twice, many);
    TwiceIs(c, s);
    MultipleIs(xs, n, c * c);
    PartsHold(n, c, s, q, twice, many, squares);
    CentredForm(n, c, s, q, twice, many, squares);
  }

  // ----- sums do not depend on order -----

  predicate RealLe(x: real, y: real) { x <= y }

  lemma {:induction false} InsertSums(xs: seq<real>, x: real, f: real -> real)
    ensures SumBy(Insert(xs, x, RealLe), f) == SumBy(xs, f) + f(x)
  {
    if xs == [] {
      SumByAppend([], x, f);
      assert [] + [x] == [x];
    } else {
      var n := |xs| - 1;
      InsertSums(xs[..n], x, f);
      SumByAppend(Insert(xs[..n], x, RealLe), xs[n], f);
      SumByAppend(xs, x, f);
    }
  }

  lemma {:induction false} SortSums(xs: seq<real>, f: real -> real)
    ensures SumBy(SortBy(xs, RealLe), f) == SumBy(xs, f)
  {
    if xs != [] {
      var n := |xs| - 1;
      SortSums(xs[..n], f);
      InsertSums(SortBy(xs[..n], RealLe), xs[n], f);
    }
  }

  lemma SumsPermute(xs: seq<real>, ys: seq<real>, f: real -> real)
    requires multiset(xs) == multiset(ys)
    ensures SumBy(xs, f) == SumBy(ys, f) && |xs| == |ys|
  {
    SortByContents(xs, RealLe);
    SortByContents(ys, RealLe);
    SortBySorts(xs, RealLe);
    SortBySorts(ys, RealLe);
    SortedUnique(SortBy(xs, RealLe), SortBy(ys, RealLe), RealLe);
    SortSums(xs, f);
    SortSums(ys, f);
  }

  lemma SquaresPermute(xs: seq<real>, ys: seq<real>)
    requires multiset(xs) == multiset(ys)
    ensures SquaresAboutMean(xs) == SquaresAboutMean(ys)
  {
    SumsPermute(xs, ys, Itself());
    SumsPermute(xs, ys, SquaredFrom(Mean(xs)));
  }

  // ----- grouping -----

  /** A value that enters the statistics, with the group labels of its record. */
  datatype Observation = Observation(side: string, slot: string, signature: string, value: real)

  type Stratum = (string, string)

  function StratumOf(o: Observation): Stratum { (o.side, o.slot) }

  function CellOf(o: Observation): (Stratum, string) { ((o.side, o.slot), o.signature) }

  /** Values of the observations with key `k`, in order. */
  function Group<K(==)>(obs: seq<Observation>, key: Observation -> K, k: K): seq<real> {
    if obs == [] then []
    else
      var n := |obs| - 1;
      Group(obs[..n], key, k) + if key(obs[n]) == k then [obs[n].value] else []
  }

  /** Distinct keys in order of first appearance, as a dictionary keeps them. */
  function Keys<K(==)>(obs: seq<Observation>, key: Observation -> K): seq<K> {
    if obs == [] then []
    else
      var n := |obs| - 1;
      var ks := Keys(obs[..n], key);
      if key(obs[n]) in ks then ks else ks + [key(obs[n])]
  }

  ghost predicate Distinct<K>(ks: seq<K>) {
    forall i, j :: 0 <= i < j < |ks| ==> ks[i] != ks[j]
  }

  lemma {:induction false} KeysAreDistinct<K>(obs: seq<Observation>, key: Observation -> K)
    ensures Distinct(Keys(obs, key))
    ensures forall i :: 0 <= i < |obs| ==> key(obs[i]) in Keys(obs, key)
  {
    if obs != [] {
      KeysAreDistinct(obs[..|obs| - 1], key);
    }
  }

  /** Sum, over the listed groups, of a cost of each value that may depend on its group. */
  ghost function OverGroups<K>(obs: seq<Observation>, key: Observation -> K, ks: seq<K>,
                               cost: K -> real -> real): real
  {
    if ks == [] then 0.0
    else
      var n := |ks| - 1;
      OverGroups(obs, key, ks[..n], cost) + SumBy(Group(obs, key, ks[n]), cost(ks[n]))
  }

  /** The same total taken observation by observation. */
  ghost function OverAll<K>(obs: seq<Observation>, key: Observation -> K, cost: K -> real -> real): real {
    if obs == [] then 0.0
    else
      var n := |obs| - 1;
      OverAll(obs[..n], key, cost) + cost(key(obs[n]))(obs[n].value)
  }

  ghost function AboutCentres<K>(centre: K -> real): K -> real -> real {
    k => SquaredFrom(centre(k))
  }

  ghost function AboutGroupMeans<K>(obs: seq<Observation>, key: Observation -> K): K -> real -> real {
    k => SquaredFrom(Mean(Group(obs, key, k)))
  }

  /** Within-group spread: the squared deviation of every value from the mean of
      its own group. */
  ghost function Spread<K>(obs: seq<Observation>, key: Observation -> K): real {
    OverAll(obs, key, AboutGroupMeans(obs, key))
  }

  lemma GroupAppend<K>(obs: seq<Observation>, o: Observation, key: Observation -> K, k: K)
    ensures Group(obs + [o], key, k) == if key(o) == k then Group(obs, key, k) + [o.value] else Group(obs, key, k)
  {
    assert (obs + [o])[..|obs|] == obs;
  }

  lemma {:induction false} OverGroupsAppend<K>(
    obs: seq<Observation>, o: Observation, key: Observation -> K, ks: seq<K>, cost: K -> real -> real)
    requires Distinct(ks)
    ensures OverGroups(obs + [o], key, ks, cost) ==
            OverGroups(obs, key, ks, cost) + if key(o) in ks then cost(key(o))(o.value) else 0.0
  {
    if ks != [] {
      var n := |ks| - 1;
      OverGroupsAppend(obs, o, key, ks[..n], cost);
      GroupAppend(obs, o, key, ks[n]);
      SumByAppend(Group(obs, key, ks[n]), o.value, cost(ks[n]));
      assert ks == ks[..n] + [ks[n]];
    }
  }

  lemma OverGroupsGrow<K>(obs: seq<Observation>, key: Observation -> K, ks: seq<K>, k: K, cost: K -> real -> real)
    ensures OverGroups(obs, key, ks + [k], cost) == OverGroups(obs, key, ks, cost) + SumBy(Group(obs, key, k), cost(k))
  {
    assert (ks + [k])[..|ks|] == ks;
  }

  lemma {:induction false} OverNoObservations<K>(key: Observation -> K, ks: seq<K>, cost: K -> real -> real)
    ensures OverGroups([], key, ks, cost) == 0.0
  {
    if ks != [] {
      OverNoObservations(key, ks[..|ks| - 1], cost);
      assert SumBy([], cost(ks[|ks| - 1])) == 0.0;
    }
  }

  /** Grouping loses nothing: the two totals agree, whatever the cost. */
  lemma {:induction false} Regroup<K>(obs: seq<Observation>, key: Observation -> K, ks: seq<K>, cost: K -> real -> real)
    requires Distinct(ks) && forall i :: 0 <= i < |obs| ==> key(obs[i]) in ks
    ensures OverGroups(obs, key, ks, cost) == OverAll(obs, key, cost)
  {
    if obs == [] {
      OverNoObservations(key, ks, cost);
    } else {
      var (front, last) := (obs[..|obs| - 1], obs[|obs| - 1]);
      Regroup(front, key, ks, cost);
      OverGroupsAppend(front, last, key, ks, cost);
      assert obs == front + [last];
    }
  }

  lemma {:induction false} MeansAreBest<K>(obs: seq<Observation>, key: Observation -> K, ks: seq<K>, centre: K -> real)
    ensures OverGroups(obs, key, ks, AboutGroupMeans(obs, key)) <= OverGroups(obs, key, ks, AboutCentres(centre))
  {
    if ks != [] {
      var n := |ks| - 1;
      MeansAreBest(obs, key, ks[..n], centre);
      MeanIsBest(Group(obs, key, ks[n]), centre(ks[n]));
    }
  }

  lemma {:induction false} SameCostSameTotal<K, L>(
    obs: seq<Observation>, key: Observation -> K, other: Observation -> L, cost: K -> real -> real, otherCost: L -> real -> real)
    requires forall o :: cost(key(o)) == otherCost(other(o))
    ensures OverAll(obs, key, cost) == OverAll(obs, other, otherCost)
  {
    if obs != [] {
      SameCostSameTotal(obs[..|obs| - 1], key, other, cost, otherCost);
    }
  }

  lemma {:induction false} OverAllNonNegative<K>(obs: seq<Observation>, key: Observation -> K, cost: K -> real -> real)
    requires forall i :: 0 <= i < |obs| ==> cost(key(obs[i]))(obs[i].value) >= 0.0
    ensures OverAll(obs, key, cost) >= 0.0
  {
    if obs != [] {
      OverAllNonNegative(obs[..|obs| - 1], key, cost);
    }
  }

  lemma SquareNonNegative(d: real)
    ensures d * d >= 0.0
  {
    if d != 0.0 {
      SquarePositive(d, d * d);
    }
  }

  lemma SpreadNonNegative<K>(obs: seq<Observation>, key: Observation -> K)
    ensures Spread(obs, key) >= 0.0
  {
    var cost := AboutGroupMeans(obs, key);
    forall i | 0 <= i < |obs| ensures cost(key(obs[i]))(obs[i].value) >= 0.0 {
      SquareNonNegative(obs[i].value - Mean(Group(obs, key, key(obs[i]))));
    }
    OverAllNonNegative(obs, key, cost);
  }

  /** Law of total variance as an inequality: refining the groups never raises
      the within-group spread. */
  lemma FinerSpreadIsSmaller<K, L>(
    obs: seq<Observation>, fine: Observation -> K, coarse: Observation -> L, lift: K -> L)
    requires forall o :: coarse(o) == lift(fine(o))
    ensures 0.0 <= Spread(obs, fine) <= Spread(obs, coarse)
  {
    var ks := Keys(obs, fine);
    var means := k => Mean(Group(obs, coarse, lift(k)));
    KeysAreDistinct(obs, fine);
    Regroup(obs, fine, ks, AboutGroupMeans(obs, fine));
    Regroup(obs, fine, ks, AboutCentres(means));
    MeansAreBest(obs, fine, ks, means);
    forall o ensures AboutCentres(means)(fine(o)) == AboutGroupMeans(obs, coarse)(coarse(o)) {
    }
    SameCostSameTotal(obs, fine, coarse, AboutCentres(means), AboutGroupMeans(obs, coarse));
    SpreadNonNegative(obs, fine);
  }

  // ----- when the spread vanishes -----

  lemma {:induction false} OverAllZero<K>(obs: seq<Observation>, key: Observation -> K, cost: K -> real -> real)
    requires forall i :: 0 <= i < |obs| ==> cost(key(obs[i]))(obs[i].value) >= 0.0
    ensures OverAll(obs, key, cost) >= 0.0
    ensures OverAll(obs, key, cost) == 0.0 <==> forall i :: 0 <= i < |obs| ==> cost(key(obs[i]))(obs[i].value) == 0.0
  {
    if obs != [] {
      var n := |obs| - 1;
      assert forall i :: 0 <= i < n ==> obs[..n][i] == obs[i];
      OverAllZero(obs[..n], key, cost);
    }
  }

  lemma {:induction false} GroupIs<K>(obs: seq<Observation>, key: Observation -> K, k: K, v: real)
    ensures v in Group(obs, key, k) <==> exists i :: 0 <= i < |obs| && key(obs[i]) == k && obs[i].value == v
  {
    if obs != [] {
      var n := |obs| - 1;
      GroupIs(obs[..n], key, k, v);
      assert forall i :: 0 <= i < n ==> obs[..n][i] == obs[i];
    }
  }

  lemma SquaredFromVanishes(c: real, x: real)
    ensures SquaredFrom(c)(x) >= 0.0
    ensures SquaredFrom(c)(x) == 0.0 <==> x == c
  {
    SumByAppend([], x, SquaredFrom(c));
    assert [] + [x] == [x] && [x][0] == x;
    SquaresVanishAt([x], c);
  }

  lemma ConstantIsMean(xs: seq<real>, x: real)
    requires Constant(xs) && x in xs
    ensures x == Mean(xs)
  {
    ZeroSpreadIffConstant(xs);
    SquaresVanishAt(xs, Mean(xs));
  }

  /** Observations with the same key have the same value. */
  ghost predicate FlatWithin<K>(obs: seq<Observation>, key: Observation -> K) {
    forall i, j :: 0 <= i < |obs| && 0 <= j < |obs| && key(obs[i]) == key(obs[j]) ==> obs[i].value == obs[j].value
  }

  /** Every observation sits on the mean of its group. */
  ghost predicate OnMeans<K>(obs: seq<Observation>, key: Observation -> K) {
    forall i :: 0 <= i < |obs| ==> obs[i].value == Mean(Group(obs, key, key(obs[i])))
  }

  lemma OnMeansIffFlat<K>(obs: seq<Observation>, key: Observation -> K)
    ensures OnMeans(obs, key) <==> FlatWithin(obs, key)
  {
    if FlatWithin(obs, key) {
      forall i | 0 <= i < |obs| ensures obs[i].value == Mean(Group(obs, key, key(obs[i]))) {
        var (k, g) := (key(obs[i]), Group(obs, key, key(obs[i])));
        GroupIs(obs, key, k, obs[i].value);
        forall a, b | 0 <= a < |g| && 0 <= b < |g| ensures g[a] == g[b] {
          GroupIs(obs, key, k, g[a]);
          GroupIs(obs, key, k, g[b]);
        }
        ConstantIsMean(g, obs[i].value);
      }
    }
  }

  /** The spread is zero exactly when no group holds two different values. */
  lemma ZeroSpreadIffFlat<K(!new)>(obs: seq<Observation>, key: Observation -> K)
    ensures Spread(obs, key) >= 0.0
    ensures Spread(obs, key) == 0.0 <==> FlatWithin(obs, key)
  {
    var cost := AboutGroupMeans(obs, key);
    forall i | 0 <= i < |obs|
      ensures cost(key(obs[i]))(obs[i].value) >= 0.0
      ensures cost(key(obs[i]))(obs[i].value) == 0.0 <==> obs[i].value == Mean(Group(obs, key, key(obs[i])))
    {
      SquaredFromVanishes(Mean(Group(obs, key, key(obs[i]))), obs[i].value);
    }
    OverAllZero(obs, key, cost);
    OnMeansIffFlat(obs, key);
  }
}

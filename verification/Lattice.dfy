/** Lattice crossings: how many price levels `step * k` a move from one close to
    the next crosses.  `Decimal` is modelled as exact `real`. */
module Lattice {
  import opened Common

  /** `Decimal.to_integral_value` with the default ROUND_HALF_EVEN. */
  function RoundHalfEven(x: real): int {
    var f := x.Floor;
    var rest := x - f as real;
    if rest < 0.5 || (rest == 0.5 && f % 2 == 0) then f else f + 1
  }

  /** An integer nearest to `x`, and the even one of two. */
  ghost predicate NearestEven(x: real, k: int) {
    && -0.5 <= x - k as real <= 0.5
    && (x - k as real == 0.5 || x - k as real == -0.5 ==> k % 2 == 0)
  }

  /** Rounding gives that integer, and there is only one. */
  lemma RoundsToNearestEven(x: real, k: int)
    ensures NearestEven(x, RoundHalfEven(x))
    ensures NearestEven(x, k) ==> k == RoundHalfEven(x)
  {
    var f := x.Floor;
    if NearestEven(x, k) {
      assert k == f || k == f + 1 || k == f - 1;
    }
  }

  function Level(step: real, k: int): real { step * k as real }

  /** A move crosses a level that it leaves behind or lands on, not the one it
      starts from. */
  predicate Crosses(previous: real, current: real, level: real) {
    (previous < current && previous < level <= current) || (previous > current && previous > level >= current)
  }

  function CountHits(lo: int, hi: int, hit: int -> bool): nat
    decreases hi - lo
  {
    if hi < lo then 0 else CountHits(lo, hi - 1, hit) + if hit(hi) then 1 else 0
  }

  function Crossed(previous: real, current: real, step: real): int -> bool {
    k => Crosses(previous, current, Level(step, k))
  }

  function Crossings(previous: real, current: real, step: real, lower: real, upper: real): nat
    requires step != 0.0
  {
    CountHits(RoundHalfEven(lower / step), RoundHalfEven(upper / step), Crossed(previous, current, step))
  }

  lemma {:induction false} NoMoveNoHit(lo: int, hi: int, hit: int -> bool)
    requires forall k :: !hit(k)
    ensures CountHits(lo, hi, hit) == 0
    decreases hi - lo
  {
    if lo <= hi {
      NoMoveNoHit(lo, hi - 1, hit);
    }
  }

  method LatticeCrossingCount(previous: real, current: real, step: real, lower: real, upper: real) returns (r: Result<nat>)
    ensures previous == current ==> r == Ok(0)
    ensures previous != current && step == 0.0 ==> r == Err("DivisionByZero")
    ensures step != 0.0 ==> r == Ok(Crossings(previous, current, step, lower, upper))
  {
    if previous == current {
      if step != 0.0 {
        NoMoveNoHit(RoundHalfEven(lower / step), RoundHalfEven(upper / step), Crossed(previous, current, step));
      }
      return Ok(0);
    }
    if step == 0.0 {
      return Err("DivisionByZero");
    }
    var lowK := RoundHalfEven(lower / step);
    var highK := RoundHalfEven(upper / step);
    var count := 0;
    var k := lowK;
    while k < highK + 1
      invariant lowK <= k && (k <= highK + 1 || k == lowK)
      invariant count == CountHits(lowK, k - 1, Crossed(previous, current, step))
    {
      var level := Level(step, k);
      if previous < current && previous < level <= current {
        count := count + 1;
      } else if previous > current && previous > level >= current {
        count := count + 1;
      }
      k := k + 1;
    }
    assert highK < lowK ==> count == 0;
    r := Ok(count);
  }

  // ----- closed form -----

  function Max(a: int, b: int): int { if a < b then b else a }

  function Min(a: int, b: int): int { if a < b then a else b }

  /** Size of the overlap of two integer intervals. */
  function Overlap(lo: int, hi: int, first: int, last: int): int {
    Max(0, Min(hi, last) - Max(lo, first) + 1)
  }

  lemma {:induction false} CountInterval(lo: int, hi: int, hit: int -> bool, first: int, last: int)
    requires forall k :: hit(k) <==> first <= k <= last
    ensures CountHits(lo, hi, hit) == Overlap(lo, hi, first, last)
    decreases hi - lo
  {
    if lo <= hi {
      CountInterval(lo, hi - 1, hit, first, last);
      assert hit(hi) <==> first <= hi <= last;
    }
  }

  function Ceiling(y: real): int { -((-y).Floor) }

  lemma ScaleOrder(step: real, i: real, q: real, level: real, x: real)
    requires step != 0.0 && level == step * i && x == step * q
    ensures if step > 0.0 then (level < x <==> i < q) && (level > x <==> i > q)
            else (level > x <==> i < q) && (level < x <==> i > q)
  {
    if i == q {
      assert level == x;
    } else if step > 0.0 {
      if i < q {
        PositiveProduct(step, q - i, x - level);
      } else {
        PositiveProduct(step, i - q, level - x);
      }
    } else if i < q {
      PositiveProduct(-step, q - i, level - x);
    } else {
      PositiveProduct(-step, i - q, x - level);
    }
  }

  lemma Unscale(step: real, x: real)
    requires step != 0.0
    ensures step * (x / step) == x
  {
  }

  /** Where a level lies relative to a price: as its index relates to the price in
      units of the step, and the other way round for a negative step. */
  lemma LevelOrder(step: real, x: real, k: int)
    requires step != 0.0
    ensures var (level, q, i) := (Level(step, k), x / step, k as real);
      if step > 0.0 then (level < x <==> i < q) && (level > x <==> i > q)
      else (level > x <==> i < q) && (level < x <==> i > q)
  {
    Unscale(step, x);
    ScaleOrder(step, k as real, x / step, Level(step, k), x);
  }

  /** Whatever the sign of the step, a move crosses a level exactly when, in units of the
      step, it crosses the level's index. */
  lemma CrossesInUnits(previous: real, current: real, step: real, k: int)
    requires step != 0.0
    ensures Crosses(previous, current, Level(step, k)) <==> Crosses(previous / step, current / step, k as real)
  {
    LevelOrder(step, previous, k);
    LevelOrder(step, current, k);
  }

  /** For every step the count is, in units of the step, a clamped difference of floors
      when the move rises and of ceilings when it falls. */
  lemma CrossingClosedForm(previous: real, current: real, step: real, lower: real, upper: real)
    requires step != 0.0
    ensures var (lo, hi, p, c) := (RoundHalfEven(lower / step), RoundHalfEven(upper / step), previous / step, current / step);
      Crossings(previous, current, step, lower, upper) ==
      if p <= c then Overlap(lo, hi, p.Floor + 1, c.Floor) else Overlap(lo, hi, Ceiling(c), Ceiling(p) - 1)
  {
    var (lo, hi, p, c) := (RoundHalfEven(lower / step), RoundHalfEven(upper / step), previous / step, current / step);
    var (first, last) := if p <= c then (p.Floor + 1, c.Floor) else (Ceiling(c), Ceiling(p) - 1);
    forall k: int ensures Crossed(previous, current, step)(k) <==> first <= k <= last {
      CrossesInUnits(previous, current, step, k);
    }
    CountInterval(lo, hi, Crossed(previous, current, step), first, last);
  }

  // ----- additivity and reversal, for every step -----

  function Indicator(b: bool): int { if b then 1 else 0 }

  lemma {:induction false} CountSum(lo: int, hi: int, a: int -> bool, b: int -> bool, c: int -> bool, d: int -> bool)
    requires forall k :: Indicator(a(k)) + Indicator(b(k)) == Indicator(c(k)) + Indicator(d(k))
    ensures CountHits(lo, hi, a) + CountHits(lo, hi, b) == CountHits(lo, hi, c) + CountHits(lo, hi, d)
    decreases hi - lo
  {
    if lo <= hi {
      CountSum(lo, hi - 1, a, b, c, d);
      assert Indicator(a(hi)) + Indicator(b(hi)) == Indicator(c(hi)) + Indicator(d(hi));
    }
  }

  ghost predicate Monotone(a: real, b: real, c: real) { a <= b <= c || a >= b >= c }

  /** Passing through an intermediate close of a monotone move changes nothing. */
  lemma CrossingAdditive(a: real, b: real, c: real, step: real, lower: real, upper: real)
    requires step != 0.0 && Monotone(a, b, c)
    ensures Crossings(a, c, step, lower, upper) ==
            Crossings(a, b, step, lower, upper) + Crossings(b, c, step, lower, upper)
  {
    var (lo, hi) := (RoundHalfEven(lower / step), RoundHalfEven(upper / step));
    var never := (k: int) => false;
    var (ac, ab, bc) := (Crossed(a, c, step), Crossed(a, b, step), Crossed(b, c, step));
    forall k: int ensures Indicator(ac(k)) + Indicator(never(k)) == Indicator(ab(k)) + Indicator(bc(k)) {
    }
    CountSum(lo, hi, ac, never, ab, bc);
    NoMoveNoHit(lo, hi, never);
  }

  /** Crossings of the steps of a path, added up. */
  ghost function PathCrossings(path: seq<real>, step: real, lower: real, upper: real): nat
    requires step != 0.0
  {
    if |path| < 2 then 0
    else
      var n := |path| - 1;
      PathCrossings(path[..n], step, lower, upper) + Crossings(path[n - 1], path[n], step, lower, upper)
  }

  /** Along every monotone path the counts add up to the count of the whole move. */
  lemma {:induction false} PathTelescopes(path: seq<real>, step: real, lower: real, upper: real)
    requires step != 0.0 && path != []
    requires forall i, j, k :: 0 <= i < j < k < |path| ==> Monotone(path[i], path[j], path[k])
    ensures PathCrossings(path, step, lower, upper) == Crossings(path[0], path[|path| - 1], step, lower, upper)
  {
    var n := |path| - 1;
    if n == 0 {
      NoMoveNoHit(RoundHalfEven(lower / step), RoundHalfEven(upper / step), Crossed(path[0], path[0], step));
    } else {
      PathTelescopes(path[..n], step, lower, upper);
      if n > 1 {
        assert Monotone(path[0], path[n - 1], path[n]);
      }
      CrossingAdditive(path[0], path[n - 1], path[n], step, lower, upper);
    }
  }

  function OnLevel(x: real, step: real): int -> bool { k => Level(step, k) == x }

  /** Levels of the band that coincide with `x`. */
  function LevelsAt(x: real, step: real, lower: real, upper: real): nat
    requires step != 0.0
  {
    CountHits(RoundHalfEven(lower / step), RoundHalfEven(upper / step), OnLevel(x, step))
  }

  /** Reversing an upward move trades the level it lands on for the one it left. */
  lemma CrossingReversal(a: real, b: real, step: real, lower: real, upper: real)
    requires step != 0.0 && a <= b
    ensures Crossings(a, b, step, lower, upper) + LevelsAt(a, step, lower, upper) ==
            Crossings(b, a, step, lower, upper) + LevelsAt(b, step, lower, upper)
  {
    var (lo, hi) := (RoundHalfEven(lower / step), RoundHalfEven(upper / step));
    var (up, down, atA, atB) := (Crossed(a, b, step), Crossed(b, a, step), OnLevel(a, step), OnLevel(b, step));
    forall k: int ensures Indicator(up(k)) + Indicator(atA(k)) == Indicator(down(k)) + Indicator(atB(k)) {
    }
    CountSum(lo, hi, up, atA, down, atB);
  }

  lemma {:induction false} AtMostOneHit(lo: int, hi: int, hit: int -> bool)
    requires forall j, k :: hit(j) && hit(k) ==> j == k
    ensures CountHits(lo, hi, hit) <= 1
    ensures CountHits(lo, hi, hit) == 1 <==> exists k :: lo <= k <= hi && hit(k)
    decreases hi - lo
  {
    if lo <= hi {
      AtMostOneHit(lo, hi - 1, hit);
    }
  }

  /** The endpoint term is an indicator: one when the close lies on a level of the
      band, else zero. */
  lemma LevelsAtIsIndicator(x: real, step: real, lower: real, upper: real)
    requires step != 0.0
    ensures var (lo, hi) := (RoundHalfEven(lower / step), RoundHalfEven(upper / step));
      LevelsAt(x, step, lower, upper) == if exists k :: lo <= k <= hi && OnLevel(x, step)(k) then 1 else 0
  {
    forall j: int, k: int | OnLevel(x, step)(j) && OnLevel(x, step)(k) ensures j == k {
      LevelOrder(step, x, j);
      LevelOrder(step, x, k);
    }
    AtMostOneHit(RoundHalfEven(lower / step), RoundHalfEven(upper / step), OnLevel(x, step));
  }
}

/** The two event clocks of the stage-A kernel: the directional-change detector
    and the variation clock, both driven by a series of closes.  `Decimal` is
    modelled as exact `real`. */
module EventTime {
  import opened Common

  datatype Bar = Bar(timestampMs: int, close: real)

  datatype Direction = Up | Down

  // ----- events on a series -----

  /** Index of the latest event, or 0 when there is none (bar 0 never fires). */
  function LastEvent<T>(events: seq<Option<T>>): (p: nat)
    ensures p <= |events| && (events != [] ==> p < |events|)
  {
    if events == [] then 0
    else if events[|events| - 1].Some? then |events| - 1
    else LastEvent(events[..|events| - 1])
  }

  function EventCount<T>(events: seq<Option<T>>): nat {
    if events == [] then 0
    else EventCount(events[..|events| - 1]) + if events[|events| - 1].Some? then 1 else 0
  }

  lemma AppendEvent<T>(events: seq<Option<T>>, e: Option<T>)
    ensures LastEvent(events + [e]) == if e.Some? then |events| else LastEvent(events)
    ensures EventCount(events + [e]) == EventCount(events) + if e.Some? then 1 else 0
  {
  }

  lemma {:induction false} LastEventIs<T>(events: seq<Option<T>>, i: nat)
    requires i < |events| && events[i].Some? && forall k :: i < k < |events| ==> events[k].None?
    ensures LastEvent(events) == i
  {
    if i < |events| - 1 {
      LastEventIs(events[..|events| - 1], i);
    }
  }

  /** Direction of the latest event. */
  function Mode(events: seq<Option<Direction>>): Option<Direction> {
    if events == [] then None else events[LastEvent(events)]
  }

  /** The dictionary that the program builds: one count per timestamp, where a
      repeated timestamp keeps its last count. */
  function Tabulate<T>(bars: seq<Bar>, events: seq<Option<T>>): map<int, nat>
    requires |bars| == |events|
  {
    if bars == [] then map[]
    else
      var n := |bars| - 1;
      Tabulate(bars[..n], events[..n])[bars[n].timestampMs := if events[n].Some? then 1 else 0]
  }

  function Closes(bars: seq<Bar>): (s: seq<real>)
    ensures |s| == |bars| && forall i :: 0 <= i < |s| ==> s[i] == bars[i].close
  {
    seq(|bars|, i requires 0 <= i < |bars| => bars[i].close)
  }

  function Abs(x: real): real { if x < 0.0 then -x else x }

  /** Total absolute close variation between two bars. */
  function Variation(closes: seq<real>, lo: nat, hi: nat): (v: real)
    requires lo <= hi < |closes|
    ensures v >= 0.0
    decreases hi
  {
    if lo == hi then 0.0
    else Variation(closes, lo, hi - 1) + Abs(closes[hi] - closes[hi - 1])
  }

  // ----- specifications -----

  /** Some close since bar `p` lies at least `threshold` above the last close. */
  ghost predicate Fell(closes: seq<real>, p: nat, threshold: real)
    requires closes != []
  {
    exists k :: p <= k < |closes| && closes[k] - closes[|closes| - 1] >= threshold
  }

  /** Some close since bar `p` lies at least `threshold` below the last close. */
  ghost predicate Rose(closes: seq<real>, p: nat, threshold: real)
    requires closes != []
  {
    exists k :: p <= k < |closes| && closes[|closes| - 1] - closes[k] >= threshold
  }

  /** What the last bar does, given the events before it: it fires against the
      current mode exactly when it retraces by the threshold from some close
      since the previous event. */
  ghost function DcEventAt(closes: seq<real>, before: seq<Option<Direction>>, threshold: real): Option<Direction>
    requires |closes| == |before| + 1
  {
    if before == [] then None
    else if Mode(before) != Some(Down) && Fell(closes, LastEvent(before), threshold) then Some(Down)
    else if Mode(before) != Some(Up) && Rose(closes, LastEvent(before), threshold) then Some(Up)
    else None
  }

  ghost function DcEvents(closes: seq<real>, threshold: real): (events: seq<Option<Direction>>)
    ensures |events| == |closes|
  {
    if closes == [] then []
    else
      var before := DcEvents(closes[..|closes| - 1], threshold);
      before + [DcEventAt(closes, before, threshold)]
  }

  /** The variation clock fires when the variation since its previous event
      reaches the target. */
  ghost function VarEventAt(closes: seq<real>, before: seq<Option<()>>, target: real): Option<()>
    requires |closes| == |before| + 1
  {
    if before != [] && Variation(closes, LastEvent(before), |before|) >= target then Some(()) else None
  }

  ghost function VarEvents(closes: seq<real>, target: real): (events: seq<Option<()>>)
    ensures |events| == |closes|
  {
    if closes == [] then []
    else
      var before := VarEvents(closes[..|closes| - 1], target);
      before + [VarEventAt(closes, before, target)]
  }

  /** Variation not yet spent on an event. */
  ghost function Unspent(closes: seq<real>, events: seq<Option<()>>): real
    requires |closes| == |events| > 0
  {
    Variation(closes, LastEvent(events), |closes| - 1)
  }

  lemma AppendClose(bars: seq<Bar>, i: nat)
    requires i < |bars|
    ensures Closes(bars[..i + 1]) == Closes(bars[..i]) + [bars[i].close]
  {
  }

  lemma AppendDc(seen: seq<real>, c: real, x: real)
    ensures DcEvents(seen + [c], x) == DcEvents(seen, x) + [DcEventAt(seen + [c], DcEvents(seen, x), x)]
  {
  }

  lemma AppendVar(seen: seq<real>, c: real, x: real)
    ensures VarEvents(seen + [c], x) == VarEvents(seen, x) + [VarEventAt(seen + [c], VarEvents(seen, x), x)]
  {
  }

  lemma AppendTabulate<T>(bars: seq<Bar>, i: nat, events: seq<Option<T>>, e: Option<T>)
    requires i < |bars| && |events| == i
    ensures Tabulate(bars[..i + 1], events + [e]) ==
            Tabulate(bars[..i], events)[bars[i].timestampMs := if e.Some? then 1 else 0]
  {
    assert bars[..i + 1][..i] == bars[..i];
    assert (events + [e])[..i] == events;
  }

  // ----- the loops -----

  ghost predicate IsHighest(x: real, closes: seq<real>, p: nat) {
    (forall k :: p <= k < |closes| ==> closes[k] <= x) && exists k :: p <= k < |closes| && closes[k] == x
  }

  ghost predicate IsLowest(x: real, closes: seq<real>, p: nat) {
    (forall k :: p <= k < |closes| ==> x <= closes[k]) && exists k :: p <= k < |closes| && closes[k] == x
  }

  /** What `high`, `low` and `mode` mean: `high` is the highest close since the
      latest event unless the mode is down, and `low` the lowest unless it is up. */
  ghost predicate Tracks(high: real, low: real, mode: Option<Direction>, seen: seq<real>,
                         events: seq<Option<Direction>>)
  {
    && |events| == |seen| > 0
    && mode == Mode(events)
    && (mode != Some(Down) ==> IsHighest(high, seen, LastEvent(events)))
    && (mode != Some(Up) ==> IsLowest(low, seen, LastEvent(events)))
  }

  function Higher(x: real, c: real): real { if c > x then c else x }

  function Lower(x: real, c: real): real { if c < x then c else x }

  lemma WidenHigh(high: real, seen: seq<real>, p: nat, c: real, threshold: real)
    requires p < |seen| && IsHighest(high, seen, p)
    ensures IsHighest(Higher(high, c), seen + [c], p)
    ensures Fell(seen + [c], p, threshold) <==> Higher(high, c) - c >= threshold
  {
    var k :| p <= k < |seen| && seen[k] == high;
    assert (seen + [c])[k] == high && (seen + [c])[|seen|] == c;
  }

  lemma WidenLow(low: real, seen: seq<real>, p: nat, c: real, threshold: real)
    requires p < |seen| && IsLowest(low, seen, p)
    ensures IsLowest(Lower(low, c), seen + [c], p)
    ensures Rose(seen + [c], p, threshold) <==> c - Lower(low, c) >= threshold
  {
    var k :| p <= k < |seen| && seen[k] == low;
    assert (seen + [c])[k] == low && (seen + [c])[|seen|] == c;
  }

  /** One turn of the loop decides exactly the specified event and re-establishes
      the meaning of its variables. */
  lemma TrackStep(high: real, low: real, mode: Option<Direction>, seen: seq<real>,
                  events: seq<Option<Direction>>, c: real, threshold: real)
    requires Tracks(high, low, mode, seen, events)
    ensures var (h, l, e) := (Higher(high, c), Lower(low, c), DcEventAt(seen + [c], events, threshold));
      if mode != Some(Down) && h - c >= threshold then
        e == Some(Down) && Tracks(h, c, Some(Down), seen + [c], events + [e])
      else if mode != Some(Up) && c - l >= threshold then
        e == Some(Up) && Tracks(c, l, Some(Up), seen + [c], events + [e])
      else
        e == None && Tracks(h, l, mode, seen + [c], events + [e])
  {
    var p, all, e := LastEvent(events), seen + [c], DcEventAt(seen + [c], events, threshold);
    AppendEvent(events, e);
    assert all[|seen|] == c && (events + [e])[|seen|] == e && (events + [e])[p] == events[p];
    if mode != Some(Down) {
      WidenHigh(high, seen, p, c, threshold);
    }
    if mode != Some(Up) {
      WidenLow(low, seen, p, c, threshold);
    }
  }

  method DirectionalChangeCounts(bars: seq<Bar>, threshold: real) returns (result: map<int, nat>)
    ensures result == Tabulate(bars, DcEvents(Closes(bars), threshold))
  {
    if bars == [] {
      return map[];
    }
    var high, low := bars[0].close, bars[0].close;
    var mode: Option<Direction> := None;
    result := map[bars[0].timestampMs := 0];
    ghost var events: seq<Option<Direction>> := [None];
    AppendClose(bars, 0);
    AppendDc([], bars[0].close, threshold);
    AppendTabulate<Direction>(bars, 0, [], None);
    for i := 1 to |bars|
      invariant events == DcEvents(Closes(bars[..i]), threshold)
      invariant result == Tabulate(bars[..i], events)
      invariant Tracks(high, low, mode, Closes(bars[..i]), events)
    {
      var c := bars[i].close;
      ghost var seen := Closes(bars[..i]);
      ghost var event := DcEventAt(seen + [c], events, threshold);
      TrackStep(high, low, mode, seen, events, c, threshold);
      AppendClose(bars, i);
      AppendDc(seen, c, threshold);
      AppendTabulate(bars, i, events, event);
      high := Higher(high, c);
      low := Lower(low, c);
      var value := 0;
      if mode != Some(Down) && high - c >= threshold {
        value := 1;
        mode := Some(Down);
        low := c;
      } else if mode != Some(Up) && c - low >= threshold {
        value := 1;
        mode := Some(Up);
        high := c;
      }
      result := result[bars[i].timestampMs := value];
      events := events + [event];
    }
    assert bars[..|bars|] == bars;
  }

  /** What `acc` means. */
  ghost predicate Accumulates(acc: real, seen: seq<real>, events: seq<Option<()>>) {
    |events| == |seen| > 0 && acc == Unspent(seen, events)
  }

  lemma {:induction false} VariationLocal(closes: seq<real>, seen: seq<real>, lo: nat, hi: nat)
    requires lo <= hi < |seen| <= |closes| && seen == closes[..|seen|]
    ensures Variation(closes, lo, hi) == Variation(seen, lo, hi)
    decreases hi
  {
    if lo < hi {
      VariationLocal(closes, seen, lo, hi - 1);
    }
  }

  lemma AccumulateStep(acc: real, seen: seq<real>, events: seq<Option<()>>, c: real, target: real)
    requires Accumulates(acc, seen, events)
    ensures var (e, sum) := (VarEventAt(seen + [c], events, target), acc + Abs(c - seen[|seen| - 1]));
      && e.Some? == (sum >= target)
      && Accumulates(if sum >= target then 0.0 else sum, seen + [c], events + [e])
  {
    var all, i, p := seen + [c], |seen|, LastEvent(events);
    AppendEvent(events, VarEventAt(all, events, target));
    assert all[..i] == seen;
    VariationLocal(all, seen, p, i - 1);
    assert Variation(all, p, i) == Variation(all, p, i - 1) + Abs(all[i] - all[i - 1]);
  }

  /** The variation loop after `i` bars. */
  ghost predicate VarLoop(bars: seq<Bar>, i: nat, target: real, acc: real, result: map<int, nat>)
    requires i <= |bars|
  {
    var (seen, events) := (Closes(bars[..i]), VarEvents(Closes(bars[..i]), target));
    result == Tabulate(bars[..i], events) && Accumulates(acc, seen, events)
  }

  lemma VarEnd(bars: seq<Bar>, target: real, acc: real, result: map<int, nat>)
    requires VarLoop(bars, |bars|, target, acc, result)
    ensures result == Tabulate(bars, VarEvents(Closes(bars), target))
  {
    assert bars[..|bars|] == bars;
  }

  lemma VarTurn(bars: seq<Bar>, i: nat, target: real, sum: real, result: map<int, nat>)
    requires 0 < i < |bars| && VarLoop(bars, i, target, sum - Abs(bars[i].close - bars[i - 1].close), result)
    ensures sum >= target ==> VarLoop(bars, i + 1, target, 0.0, result[bars[i].timestampMs := 1])
    ensures sum < target ==> VarLoop(bars, i + 1, target, sum, result[bars[i].timestampMs := 0])
  {
    var seen := Closes(bars[..i]);
    var events := VarEvents(seen, target);
    var acc := sum - Abs(bars[i].close - bars[i - 1].close);
    AccumulateStep(acc, seen, events, bars[i].close, target);
    AppendClose(bars, i);
    AppendVar(seen, bars[i].close, target);
    AppendTabulate(bars, i, events, VarEventAt(seen + [bars[i].close], events, target));
  }

  method VariationCounts(bars: seq<Bar>, target: real) returns (result: map<int, nat>)
    ensures result == Tabulate(bars, VarEvents(Closes(bars), target))
  {
    if bars == [] {
      return map[];
    }
    var acc := 0.0;
    var previous := bars[0];
    result := map[previous.timestampMs := 0];
    for i := 1 to |bars|
      invariant VarLoop(bars, i, target, acc, result)
      invariant previous == bars[i - 1]
    {
      var current := bars[i];
      acc := acc + Abs(current.close - previous.close);
      var value := 0;
      VarTurn(bars, i, target, acc, result);
      if acc >= target {
        value := 1;
        acc := 0.0;
      }
      result := result[current.timestampMs := value];
      previous := current;
    }
    VarEnd(bars, target, acc, result);
  }

  // ----- facts about variation -----

  lemma {:induction false} VariationSplit(closes: seq<real>, i: nat, j: nat, k: nat)
    requires i <= j <= k < |closes|
    ensures Variation(closes, i, k) == Variation(closes, i, j) + Variation(closes, j, k)
    decreases k
  {
    if j < k {
      VariationSplit(closes, i, j, k - 1);
    }
  }

  /** Variation bounds the distance between any two closes of the window. */
  lemma {:induction false} VariationCovers(closes: seq<real>, p: nat, k: nat, j: nat)
    requires p <= k <= j < |closes|
    ensures Variation(closes, p, j) >= Abs(closes[k] - closes[j])
    decreases j
  {
    if k < j {
      VariationCovers(closes, p, k, j - 1);
    }
  }

  // ----- theorems -----

  lemma {:induction false} DcIsCausal(closes: seq<real>, n: nat, x: real)
    requires n <= |closes|
    ensures DcEvents(closes, x)[..n] == DcEvents(closes[..n], x)
  {
    if n == |closes| {
      assert closes[..n] == closes;
    } else {
      var shorter := closes[..|closes| - 1];
      DcIsCausal(shorter, n, x);
      assert shorter[..n] == closes[..n];
    }
  }

  lemma {:induction false} VarIsCausal(closes: seq<real>, n: nat, x: real)
    requires n <= |closes|
    ensures VarEvents(closes, x)[..n] == VarEvents(closes[..n], x)
  {
    if n == |closes| {
      assert closes[..n] == closes;
    } else {
      var shorter := closes[..|closes| - 1];
      VarIsCausal(shorter, n, x);
      assert shorter[..n] == closes[..n];
    }
  }

  /** Both clocks are causal: a longer series never revises earlier events. */
  lemma EventsAreCausal(closes: seq<real>, n: nat, x: real)
    requires n <= |closes|
    ensures DcEvents(closes, x)[..n] == DcEvents(closes[..n], x)
    ensures VarEvents(closes, x)[..n] == VarEvents(closes[..n], x)
  {
    DcIsCausal(closes, n, x);
    VarIsCausal(closes, n, x);
  }

  /** What the greedy argument carries along a series. */
  ghost predicate Ahead(fast: seq<Option<()>>, slow: seq<Option<Direction>>) {
    EventCount(fast) > EventCount(slow) ||
    (EventCount(fast) == EventCount(slow) && LastEvent(fast) <= LastEvent(slow))
  }

  /** A retracement of the threshold needs at least that much variation. */
  lemma RetraceCostsVariation(closes: seq<real>, before: seq<Option<Direction>>, threshold: real)
    requires |closes| == |before| + 1 && before != []
    requires DcEventAt(closes, before, threshold).Some?
    ensures Variation(closes, LastEvent(before), |before|) >= threshold
  {
    var q, j := LastEvent(before), |before|;
    var k :| q <= k <= j && Abs(closes[k] - closes[j]) >= threshold;
    VariationCovers(closes, q, k, j);
  }

  lemma AheadStep(closes: seq<real>, fast: seq<Option<()>>, slow: seq<Option<Direction>>,
                  target: real, threshold: real)
    requires target <= threshold && |closes| == |fast| + 1 == |slow| + 1
    requires Ahead(fast, slow)
    ensures Ahead(fast + [VarEventAt(closes, fast, target)], slow + [DcEventAt(closes, slow, threshold)])
  {
    var f, s := VarEventAt(closes, fast, target), DcEventAt(closes, slow, threshold);
    AppendEvent(fast, f);
    AppendEvent(slow, s);
    if s.Some? && EventCount(fast) == EventCount(slow) {
      RetraceCostsVariation(closes, slow, threshold);
      VariationSplit(closes, LastEvent(fast), LastEvent(slow), |fast|);
    }
  }

  lemma {:induction false} AheadAlways(closes: seq<real>, target: real, threshold: real)
    requires target <= threshold
    ensures Ahead(VarEvents(closes, target), DcEvents(closes, threshold))
  {
    if closes != [] {
      var shorter := closes[..|closes| - 1];
      AheadAlways(shorter, target, threshold);
      AheadStep(closes, VarEvents(shorter, target), DcEvents(shorter, threshold), target, threshold);
    }
  }

  /** Greedy dominance.  On every prefix of every series, the variation clock has
      fired at least as often as a directional-change detector whose threshold is
      no smaller than the clock's target: its k-th event is never the later one. */
  lemma GreedyDominance(closes: seq<real>, target: real, threshold: real, n: nat)
    requires target <= threshold && n <= |closes|
    ensures EventCount(VarEvents(closes, target)[..n]) >= EventCount(DcEvents(closes, threshold)[..n])
  {
    EventsAreCausal(closes, n, target);
    EventsAreCausal(closes, n, threshold);
    AheadAlways(closes[..n], target, threshold);
  }

  lemma EventAtIs(closes: seq<real>, threshold: real, j: nat)
    requires j < |closes|
    ensures DcEvents(closes, threshold)[j] == DcEventAt(closes[..j + 1], DcEvents(closes, threshold)[..j], threshold)
  {
    var (seen, e) := (closes[..j + 1], DcEvents(closes, threshold));
    EventsAreCausal(closes, j + 1, threshold);
    EventsAreCausal(closes, j, threshold);
    assert seen[..j] == closes[..j] && e[..j + 1][j] == e[j];
  }

  /** Bar `j` lies the threshold away, against direction `d`, from some close since `p`. */
  ghost predicate Retraces(closes: seq<real>, p: nat, j: nat, d: Direction, threshold: real)
    requires j < |closes|
  {
    exists k :: p <= k <= j && (if d == Up then closes[k] - closes[j] else closes[j] - closes[k]) >= threshold
  }

  lemma RetracesIs(closes: seq<real>, p: nat, j: nat, threshold: real)
    requires j < |closes|
    ensures Retraces(closes, p, j, Up, threshold) <==> Fell(closes[..j + 1], p, threshold)
    ensures Retraces(closes, p, j, Down, threshold) <==> Rose(closes[..j + 1], p, threshold)
  {
    assert forall k :: 0 <= k <= j ==> closes[..j + 1][k] == closes[k];
  }

  lemma EventAfter(closes: seq<real>, threshold: real, p: nat, j: nat)
    requires p < j < |closes|
    requires var e := DcEvents(closes, threshold); e[p].Some? && forall k :: p < k < j ==> e[k].None?
    ensures var e := DcEvents(closes, threshold);
      && (e[j].Some? <==> Retraces(closes, p, j, e[p].value, threshold))
      && (e[j].Some? ==> e[j] != e[p])
  {
    EventAtIs(closes, threshold, j);
    LastEventIs(DcEvents(closes, threshold)[..j], p);
    RetracesIs(closes, p, j, threshold);
  }

  /** After an event, the next one fires at the first bar that retraces by the threshold
      from a close since that event: a bar with no event since `p` is one if and only if
      it retraces, it then reverses the direction, and no bar in between retraced. */
  lemma NextEventIsFirstRetrace(closes: seq<real>, threshold: real, p: nat, j: nat)
    requires p < j < |closes|
    requires var e := DcEvents(closes, threshold); e[p].Some? && forall k :: p < k < j ==> e[k].None?
    ensures var (e, d) := (DcEvents(closes, threshold), DcEvents(closes, threshold)[p].value);
      && (e[j].Some? <==> Retraces(closes, p, j, d, threshold))
      && (e[j].Some? ==> e[j].value != d)
      && forall k :: p < k < j ==> !Retraces(closes, p, k, d, threshold)
  {
    forall k | p < k <= j ensures var e := DcEvents(closes, threshold);
      && (e[k].Some? <==> Retraces(closes, p, k, e[p].value, threshold))
      && (e[k].Some? ==> e[k] != e[p])
    {
      EventAfter(closes, threshold, p, k);
    }
  }

  lemma {:induction false} NoEventYet<T>(events: seq<Option<T>>)
    requires forall k :: 0 <= k < |events| ==> events[k].None?
    ensures LastEvent(events) == 0
  {
    if events != [] {
      NoEventYet(events[..|events| - 1]);
    }
  }

  /** The first event of all fires at the first bar that has moved by the threshold, in
      either direction, from some close since the start; a fall is noticed first. */
  lemma FirstEventIsFirstMove(closes: seq<real>, threshold: real, j: nat)
    requires 0 < j < |closes| && forall k :: 0 <= k < j ==> DcEvents(closes, threshold)[k].None?
    ensures DcEvents(closes, threshold)[j] ==
      if Retraces(closes, 0, j, Up, threshold) then Some(Down)
      else if Retraces(closes, 0, j, Down, threshold) then Some(Up)
      else None
  {
    RetracesIs(closes, 0, j, threshold);
    EventAtIs(closes, threshold, j);
    NoEventYet(DcEvents(closes, threshold)[..j]);
  }

  /** Sum of the upward steps between two bars. */
  function Rise(closes: seq<real>, lo: nat, hi: nat): real
    requires lo <= hi < |closes|
    decreases hi
  {
    if lo == hi then 0.0
    else Rise(closes, lo, hi - 1) + if closes[hi] > closes[hi - 1] then closes[hi] - closes[hi - 1] else 0.0
  }

  /** Sum of the downward steps. */
  function Fall(closes: seq<real>, lo: nat, hi: nat): real
    requires lo <= hi < |closes|
    decreases hi
  {
    if lo == hi then 0.0
    else Fall(closes, lo, hi - 1) + if closes[hi] < closes[hi - 1] then closes[hi - 1] - closes[hi] else 0.0
  }

  /** Variation counts every upward and every downward step once; their difference is the
      net move. */
  lemma {:induction false} VariationIsRiseAndFall(closes: seq<real>, lo: nat, hi: nat)
    requires lo <= hi < |closes|
    ensures Variation(closes, lo, hi) == Rise(closes, lo, hi) + Fall(closes, lo, hi)
    ensures Rise(closes, lo, hi) - Fall(closes, lo, hi) == closes[hi] - closes[lo]
    decreases hi
  {
    if lo < hi {
      VariationIsRiseAndFall(closes, lo, hi - 1);
    }
  }

  lemma TickAtIs(closes: seq<real>, target: real, j: nat)
    requires j < |closes|
    ensures VarEvents(closes, target)[j] == VarEventAt(closes[..j + 1], VarEvents(closes, target)[..j], target)
  {
    var (seen, e) := (closes[..j + 1], VarEvents(closes, target));
    EventsAreCausal(closes, j + 1, target);
    EventsAreCausal(closes, j, target);
    assert seen[..j] == closes[..j] && e[..j + 1][j] == e[j];
  }

  /** With `p` the previous tick of the variation clock, or the first bar if there is none,
      bar `j` ticks if and only if the moves up and down since `p` add up to the target. */
  lemma NextTickIff(closes: seq<real>, target: real, p: nat, j: nat)
    requires p < j < |closes| && (p == 0 || VarEvents(closes, target)[p].Some?)
    requires forall k :: p < k < j ==> VarEvents(closes, target)[k].None?
    ensures VarEvents(closes, target)[j].Some? <==> Rise(closes, p, j) + Fall(closes, p, j) >= target
  {
    var before := VarEvents(closes, target)[..j];
    TickAtIs(closes, target, j);
    if before[p].Some? {
      LastEventIs(before, p);
    } else {
      NoEventYet(before);
    }
    VariationLocal(closes, closes[..j + 1], p, j);
    VariationIsRiseAndFall(closes, p, j);
  }

  /** Directions strictly alternate from one event to the next. */
  lemma EventsAlternate(closes: seq<real>, threshold: real, i: nat, j: nat)
    requires i < j < |closes|
    requires var e := DcEvents(closes, threshold);
      e[i].Some? && e[j].Some? && forall k :: i < k < j ==> e[k].None?
    ensures DcEvents(closes, threshold)[i] != DcEvents(closes, threshold)[j]
  {
    var e := DcEvents(closes, threshold);
    EventAtIs(closes, threshold, j);
    LastEventIs(e[..j], i);
  }

  lemma {:induction false} MultipleIsMonotone(n: nat, m: nat, x: real)
    requires n <= m && x >= 0.0
    ensures Multiple(n, x) <= Multiple(m, x)
  {
    if n < m {
      MultipleIsMonotone(n, m - 1, x);
    }
  }

  lemma {:induction false} MultipleIsNegative(n: nat, x: real)
    requires x < 0.0
    ensures Multiple(n, x) <= 0.0
  {
    if n > 0 {
      MultipleIsNegative(n - 1, x);
    }
  }

  lemma VarCountStep(seen: seq<real>, c: real, before: seq<Option<()>>, target: real)
    requires |seen| == |before| > 0
    requires Multiple(EventCount(before), target) + Unspent(seen, before) <= Variation(seen, 0, |seen| - 1)
    ensures var events := before + [VarEventAt(seen + [c], before, target)];
      Multiple(EventCount(events), target) + Unspent(seen + [c], events) <= Variation(seen + [c], 0, |seen|)
  {
    var all, i := seen + [c], |seen|;
    AccumulateStep(Unspent(seen, before), seen, before, c, target);
    AppendEvent(before, VarEventAt(all, before, target));
    assert all[..i] == seen;
    VariationLocal(all, seen, 0, i - 1);
    assert Variation(all, 0, i) == Variation(all, 0, i - 1) + Abs(all[i] - all[i - 1]);
  }

  lemma {:induction false} VarCountBound(closes: seq<real>, target: real)
    requires closes != []
    ensures Multiple(EventCount(VarEvents(closes, target)), target) + Unspent(closes, VarEvents(closes, target))
            <= Variation(closes, 0, |closes| - 1)
  {
    var j := |closes| - 1;
    var seen := closes[..j];
    if j == 0 {
      AppendEvent<()>([], None);
      assert VarEvents(closes, target) == [None];
    } else {
      VarCountBound(seen, target);
      VarCountStep(seen, closes[j], VarEvents(seen, target), target);
      assert closes == seen + [closes[j]];
    }
  }

  lemma DcMultipleBound(closes: seq<real>, threshold: real)
    requires closes != []
    ensures Multiple(EventCount(DcEvents(closes, threshold)), threshold) <= Variation(closes, 0, |closes| - 1)
  {
    var d, v := EventCount(DcEvents(closes, threshold)), EventCount(VarEvents(closes, threshold));
    if threshold >= 0.0 {
      AheadAlways(closes, threshold, threshold);
      VarCountBound(closes, threshold);
      MultipleIsMonotone(d, v, threshold);
    } else {
      MultipleIsNegative(d, threshold);
    }
  }

  /** Event count times threshold never exceeds the total absolute variation. */
  lemma DcCountBound(closes: seq<real>, threshold: real, n: nat)
    requires closes != [] && n == EventCount(DcEvents(closes, threshold))
    ensures n as real * threshold <= Variation(closes, 0, |closes| - 1)
  {
    MultipleIsProduct(n, threshold);
    DcMultipleBound(closes, threshold);
  }

  /** With the unique timestamps that `load_bars` insists on, the dictionary
      reads back the event at every bar. */
  lemma {:induction false} TabulateLooksUp<T>(bars: seq<Bar>, events: seq<Option<T>>, j: nat)
    requires |bars| == |events| && j < |bars|
    requires forall a, b :: 0 <= a < b < |bars| ==> bars[a].timestampMs != bars[b].timestampMs
    ensures bars[j].timestampMs in Tabulate(bars, events)
    ensures Tabulate(bars, events)[bars[j].timestampMs] == if events[j].Some? then 1 else 0
  {
    var n := |bars| - 1;
    if j < n {
      TabulateLooksUp(bars[..n], events[..n], j);
    }
  }
}

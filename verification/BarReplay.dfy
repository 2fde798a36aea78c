/** The C1 bar replay: every admissible bar becomes a record of seventeen measurements,
    four of which need the bar before it, and a gap is never bridged. */
module BarReplay {
  import opened Common

  datatype Clock = M15 | H2

  datatype Side = Bid | Ask

  type Key = (Clock, Side)

  function ClockMs(clock: Clock): (ms: int)
    ensures ms > 0
  {
    match clock case M15 => 15 * 60 * 1000 case H2 => 2 * 60 * 60 * 1000
  }

  const PRICE_INCREMENT: real := 0.00001

  datatype Meta = Meta(release: string, manifest: string)

  /** A source row, with the clock, side and file it was read under. */
  datatype Bar = Bar(clock: Clock, side: Side, path: string, ts: int, o: real, h: real, l: real, c: real)

  function KeyOf(b: Bar): Key { (b.clock, b.side) }

  datatype Prior = Prior(release: string, manifest: string, clock: Clock, side: Side, ts: int, close: real)

  datatype Field =
    | RangeAbs | RangeTicks | BodySigned | BodyAbs | BodyUtilisation | UpperWickAbs | LowerWickAbs
    | UpperWickShare | LowerWickShare | WickBalance | OpenLocation | CloseLocation | SignedEfficiency
    | TrueRangeAbs | TrueRangeTicks | CloseChange | OpenGap

  datatype Reason = ZeroRange | NoPriorBar | PriorIdentityMismatch | NoContiguousPriorBar

  datatype Direction = Up | Down | Flat

  datatype Record = Record(
    release: string, manifest: string, clock: Clock, side: Side, ts: int, path: string,
    measurements: map<Field, Option<real>>, direction: Direction, nulls: map<Field, Reason>)

  const ZERO_NULLS: set<Field> :=
    {BodyUtilisation, UpperWickShare, LowerWickShare, WickBalance, OpenLocation, CloseLocation, SignedEfficiency}

  const PRIOR_FIELDS: set<Field> := {TrueRangeAbs, TrueRangeTicks, CloseChange, OpenGap}

  // ----- one bar -----

  predicate Admissible(b: Bar) { b.l <= b.o <= b.h && b.l <= b.c <= b.h }

  function Max(x: real, y: real): real { if x >= y then x else y }

  function Min(x: real, y: real): real { if x <= y then x else y }

  function Abs(x: real): real { if x < 0.0 then -x else x }

  function Ratio(x: real, r: real): Option<real> { if r == 0.0 then None else Some(x / r) }

  function TrueRange(b: Bar, pc: real): real { Max(b.h - b.l, Max(Abs(b.h - pc), Abs(b.l - pc))) }

  function Measure(b: Bar, pc: Option<real>, f: Field): Option<real> {
    var r := b.h - b.l;
    var body := b.c - b.o;
    var upper := b.h - Max(b.o, b.c);
    var lower := Min(b.o, b.c) - b.l;
    match f
    case RangeAbs => Some(r)
    case RangeTicks => Some(r / PRICE_INCREMENT)
    case BodySigned => Some(body)
    case BodyAbs => Some(Abs(body))
    case BodyUtilisation => Ratio(Abs(body), r)
    case UpperWickAbs => Some(upper)
    case LowerWickAbs => Some(lower)
    case UpperWickShare => Ratio(upper, r)
    case LowerWickShare => Ratio(lower, r)
    case WickBalance => Ratio(upper - lower, r)
    case OpenLocation => Ratio(b.o - b.l, r)
    case CloseLocation => Ratio(b.c - b.l, r)
    case SignedEfficiency => Ratio(body, r)
    case TrueRangeAbs => if pc.None? then None else Some(TrueRange(b, pc.value))
    case TrueRangeTicks => if pc.None? then None else Some(TrueRange(b, pc.value) / PRICE_INCREMENT)
    case CloseChange => if pc.None? then None else Some(b.c - pc.value)
    case OpenGap => if pc.None? then None else Some(b.o - pc.value)
  }

  /** Why the prior bar cannot be used, if it cannot. */
  function PriorReason(meta: Meta, b: Bar, prior: Option<Prior>): Option<Reason> {
    match prior
    case None => Some(NoPriorBar)
    case Some(p) =>
      if !(p.release == meta.release && p.manifest == meta.manifest && p.clock == b.clock && p.side == b.side)
      then Some(PriorIdentityMismatch)
      else if p.ts + ClockMs(b.clock) != b.ts then Some(NoContiguousPriorBar)
      else None
  }

  function PriorClose(meta: Meta, b: Bar, prior: Option<Prior>): Option<real> {
    if prior.Some? && PriorReason(meta, b, prior).None? then Some(prior.value.close) else None
  }

  function NullReasons(b: Bar, reason: Option<Reason>): map<Field, Reason> {
    (if b.h - b.l == 0.0 then map f | f in ZERO_NULLS :: ZeroRange else map[])
    + (if reason.Some? then map f | f in PRIOR_FIELDS :: reason.value else map[])
  }

  function DirectionOf(b: Bar): Direction { if b.c > b.o then Up else if b.c < b.o then Down else Flat }

  function BuildRecord(meta: Meta, b: Bar, prior: Option<Prior>): (r: Result<Record>)
    ensures r.Ok? <==> Admissible(b)
  {
    if !Admissible(b) then Err("SOURCE_BAR_INADMISSIBLE")
    else
      Ok(Record(meta.release, meta.manifest, b.clock, b.side, b.ts, b.path,
                map f: Field | true :: Measure(b, PriorClose(meta, b, prior), f),
                DirectionOf(b), NullReasons(b, PriorReason(meta, b, prior))))
  }

  lemma ReasonsByField(b: Bar, reason: Option<Reason>, f: Field)
    ensures f in NullReasons(b, reason) <==> (f in ZERO_NULLS && b.h == b.l) || (f in PRIOR_FIELDS && reason.Some?)
    ensures f in NullReasons(b, reason) ==>
              NullReasons(b, reason)[f] == if f in PRIOR_FIELDS && reason.Some? then reason.value else ZeroRange
  {
  }

  /** The null reasons explain exactly the null measurements. */
  lemma NullReasonsExact(meta: Meta, b: Bar, prior: Option<Prior>, f: Field)
    requires Admissible(b)
    ensures var r := BuildRecord(meta, b, prior).value;
            f in r.measurements && (f in r.nulls <==> r.measurements[f] == None)
  {
    ReasonsByField(b, PriorReason(meta, b, prior), f);
  }

  /** The parts of an admissible bar add up to its range, the upper wick leads from the
      higher of open and close to the high and the lower one from the lower to the low,
      ticks scale back to the range, and the direction is the sign of the body. */
  lemma PartsAddUp(b: Bar)
    requires Admissible(b)
    ensures Measure(b, None, BodyAbs).value + Measure(b, None, UpperWickAbs).value + Measure(b, None, LowerWickAbs).value
            == b.h - b.l
    ensures Measure(b, None, UpperWickAbs).value >= 0.0 && Measure(b, None, LowerWickAbs).value >= 0.0
    ensures var upper := Measure(b, None, UpperWickAbs).value;
            b.o + upper <= b.h && b.c + upper <= b.h && (b.o + upper == b.h || b.c + upper == b.h)
    ensures var lower := Measure(b, None, LowerWickAbs).value;
            b.o - lower >= b.l && b.c - lower >= b.l && (b.o - lower == b.l || b.c - lower == b.l)
    ensures Measure(b, None, RangeTicks).value * 0.00001 == Measure(b, None, RangeAbs).value == b.h - b.l
    ensures Measure(b, None, BodySigned).value == b.c - b.o
    ensures DirectionOf(b) == Up <==> Measure(b, None, BodySigned).value > 0.0
    ensures DirectionOf(b) == Down <==> Measure(b, None, BodySigned).value < 0.0
  {
  }

  lemma RatioAdds(x: real, y: real, r: real)
    requires r != 0.0
    ensures (x + y) / r == x / r + y / r
  {
  }

  lemma RatioWithin(x: real, r: real)
    requires 0.0 <= x <= r && r > 0.0
    ensures 0.0 <= x / r <= 1.0
  {
  }

  lemma RatioScalesBack(x: real, r: real, q: real)
    requires r != 0.0 && q == x / r
    ensures q * r == x
  {
  }

  /** A share or location times the range is the length it stands for. */
  lemma SharesScaleBack(b: Bar, r: real, upper: real, lower: real, open: real, close: real)
    requires b.h != b.l && r == b.h - b.l
    requires Measure(b, None, UpperWickShare) == Some(upper) && Measure(b, None, LowerWickShare) == Some(lower)
    requires Measure(b, None, OpenLocation) == Some(open) && Measure(b, None, CloseLocation) == Some(close)
    ensures Measure(b, None, UpperWickAbs) == Some(upper * r) && Measure(b, None, LowerWickAbs) == Some(lower * r)
    ensures b.l + open * r == b.o && b.l + close * r == b.c
  {
    RatioScalesBack(b.h - Max(b.o, b.c), r, upper);
    RatioScalesBack(Min(b.o, b.c) - b.l, r, lower);
    RatioScalesBack(b.o - b.l, r, open);
    RatioScalesBack(b.c - b.l, r, close);
  }

  lemma SharesAddUp(b: Bar)
    requires Admissible(b) && b.h != b.l
    ensures Measure(b, None, BodyUtilisation).value + Measure(b, None, UpperWickShare).value
            + Measure(b, None, LowerWickShare).value == 1.0
    ensures Measure(b, None, WickBalance).value
            == Measure(b, None, UpperWickShare).value - Measure(b, None, LowerWickShare).value
    ensures Measure(b, None, SignedEfficiency).value
            == Measure(b, None, CloseLocation).value - Measure(b, None, OpenLocation).value
    ensures 0.0 <= Measure(b, None, OpenLocation).value <= 1.0 && 0.0 <= Measure(b, None, CloseLocation).value <= 1.0
  {
    var r := b.h - b.l;
    var (body, upper, lower) := (Abs(b.c - b.o), b.h - Max(b.o, b.c), Min(b.o, b.c) - b.l);
    RatioAdds(body, upper, r);
    RatioAdds(body + upper, lower, r);
    RatioAdds(upper - lower, lower, r);
    RatioAdds(b.c - b.o, b.o - b.l, r);
    assert (body + upper + lower) / r == 1.0;
    RatioWithin(b.o - b.l, r);
    RatioWithin(b.c - b.l, r);
  }

  // ----- the stream -----

  function Remembered(meta: Meta, b: Bar): Prior { Prior(meta.release, meta.manifest, b.clock, b.side, b.ts, b.c) }

  /** The last accepted bar under a key, as the replay remembers it. */
  function PriorOf(meta: Meta, bars: seq<Bar>, key: Key): Option<Prior> {
    if bars == [] then None
    else
      var b := bars[|bars| - 1];
      if KeyOf(b) == key && Admissible(b) then Some(Remembered(meta, b)) else PriorOf(meta, bars[..|bars| - 1], key)
  }

  function RecordAt(meta: Meta, bars: seq<Bar>, i: nat): Result<Record>
    requires i < |bars|
  {
    BuildRecord(meta, bars[i], PriorOf(meta, bars[..i], KeyOf(bars[i])))
  }

  /** The records of the admissible bars, in order. */
  function Outputs(meta: Meta, bars: seq<Bar>): seq<Record> {
    if bars == [] then []
    else
      var n := |bars| - 1;
      var r := RecordAt(meta, bars, n);
      Outputs(meta, bars[..n]) + (if r.Ok? then [r.value] else [])
  }

  function InputCount(bars: seq<Bar>, key: Key): nat {
    if bars == [] then 0
    else InputCount(bars[..|bars| - 1], key) + if KeyOf(bars[|bars| - 1]) == key then 1 else 0
  }

  function OutputCount(bars: seq<Bar>, key: Key): nat {
    if bars == [] then 0
    else
      var b := bars[|bars| - 1];
      OutputCount(bars[..|bars| - 1], key) + if KeyOf(b) == key && Admissible(b) then 1 else 0
  }

  function Rejected(bars: seq<Bar>): nat {
    if bars == [] then 0 else Rejected(bars[..|bars| - 1]) + if Admissible(bars[|bars| - 1]) then 0 else 1
  }

  function ReasonFields(nulls: map<Field, Reason>, reason: Reason): set<Field> {
    set f | f in nulls.Keys && nulls[f] == reason
  }

  /** How many null fields of the whole run carry a reason. */
  function NullTotal(meta: Meta, bars: seq<Bar>, reason: Reason): nat {
    if bars == [] then 0
    else
      var n := |bars| - 1;
      var r := RecordAt(meta, bars, n);
      NullTotal(meta, bars[..n], reason) + if r.Ok? then |ReasonFields(r.value.nulls, reason)| else 0
  }

  // ----- the loop -----

  function Get<K>(m: map<K, nat>, k: K): nat { if k in m then m[k] else 0 }

  function Bump<K>(m: map<K, nat>, k: K): map<K, nat> { m[k := Get(m, k) + 1] }

  ghost predicate Remembers(meta: Meta, bars: seq<Bar>, prior: map<Key, Prior>) {
    forall key ::
      PriorOf(meta, bars, key) == if key in prior then Some(prior[key]) else None
  }

  ghost predicate Counted(bars: seq<Bar>, inputs: map<Key, nat>, outputs: map<Key, nat>, rejects: nat) {
    && (forall key :: Get(inputs, key) == InputCount(bars, key))
    && (forall key :: Get(outputs, key) == OutputCount(bars, key))
    && rejects == Rejected(bars)
  }

  ghost predicate NullsCounted(meta: Meta, bars: seq<Bar>, nulls: map<Reason, nat>) {
    forall reason :: Get(nulls, reason) == NullTotal(meta, bars, reason)
  }

  /** The counter after the fields `done` of one record. */
  ghost predicate Tallied(found: map<Field, Reason>, before: map<Reason, nat>, nulls: map<Reason, nat>, done: set<Field>) {
    forall reason :: Get(nulls, reason) == Get(before, reason) + |ReasonFields(found, reason) * done|
  }

  lemma MeetOne(s: set<Field>, done: set<Field>, f: Field)
    requires f !in done
    ensures |s * (done + {f})| == |s * done| + if f in s then 1 else 0
  {
    assert s * (done + {f}) == if f in s then s * done + {f} else s * done;
  }

  lemma TallyOne(found: map<Field, Reason>, before: map<Reason, nat>, nulls: map<Reason, nat>, done: set<Field>, f: Field)
    requires Tallied(found, before, nulls, done) && f in found && f !in done
    ensures Tallied(found, before, Bump(nulls, found[f]), done + {f})
  {
    forall reason ensures Get(Bump(nulls, found[f]), reason) == Get(before, reason) + |ReasonFields(found, reason) * (done + {f})| {
      assert Get(nulls, reason) == Get(before, reason) + |ReasonFields(found, reason) * done|;
      MeetOne(ReasonFields(found, reason), done, f);
    }
  }

  /** One record's null reasons, added to the counter one field at a time. */
  method CountReasons(found: map<Field, Reason>, before: map<Reason, nat>) returns (nulls: map<Reason, nat>)
    ensures forall reason :: Get(nulls, reason) == Get(before, reason) + |ReasonFields(found, reason)|
  {
    nulls := before;
    var rest := found.Keys;
    ghost var done: set<Field> := {};
    while rest != {}
      invariant done !! rest && done + rest == found.Keys
      invariant Tallied(found, before, nulls, done)
      decreases |rest|
    {
      var f :| f in rest;
      TallyOne(found, before, nulls, done, f);
      nulls := Bump(nulls, found[f]);
      rest, done := rest - {f}, done + {f};
    }
    assert forall reason :: ReasonFields(found, reason) * done == ReasonFields(found, reason);
  }

  lemma RejectStep(meta: Meta, bars: seq<Bar>, b: Bar, prior: map<Key, Prior>, inputs: map<Key, nat>,
                   outputs: map<Key, nat>, rejects: nat, nulls: map<Reason, nat>)
    requires Remembers(meta, bars, prior) && Counted(bars, inputs, outputs, rejects) && NullsCounted(meta, bars, nulls)
    requires !Admissible(b)
    ensures Remembers(meta, bars + [b], prior) && NullsCounted(meta, bars + [b], nulls)
    ensures Counted(bars + [b], Bump(inputs, KeyOf(b)), outputs, rejects + 1)
    ensures Outputs(meta, bars + [b]) == Outputs(meta, bars)
  {
  }

  lemma AcceptStep(meta: Meta, bars: seq<Bar>, b: Bar, prior: map<Key, Prior>, inputs: map<Key, nat>,
                   outputs: map<Key, nat>, rejects: nat)
    requires Remembers(meta, bars, prior) && Counted(bars, inputs, outputs, rejects) && Admissible(b)
    ensures Remembers(meta, bars + [b], prior[KeyOf(b) := Remembered(meta, b)])
    ensures Counted(bars + [b], Bump(inputs, KeyOf(b)), Bump(outputs, KeyOf(b)), rejects)
    ensures Outputs(meta, bars + [b]) == Outputs(meta, bars) + [BuildRecord(meta, b, PriorOf(meta, bars, KeyOf(b))).value]
  {
  }

  lemma NullStep(meta: Meta, bars: seq<Bar>, b: Bar, before: map<Reason, nat>, after: map<Reason, nat>)
    requires NullsCounted(meta, bars, before) && Admissible(b)
    requires var found := BuildRecord(meta, b, PriorOf(meta, bars, KeyOf(b))).value.nulls;
             forall reason :: Get(after, reason) == Get(before, reason) + |ReasonFields(found, reason)|
    ensures NullsCounted(meta, bars + [b], after)
  {
  }

  /** The mutable state of a replay: the remembered bars and the four counters. */
  datatype Tally = Tally(
    prior: map<Key, Prior>, inputs: map<Key, nat>, outputs: map<Key, nat>, rejects: nat, nulls: map<Reason, nat>)

  /** The state is right for the bars seen so far. */
  ghost predicate Right(meta: Meta, bars: seq<Bar>, t: Tally) {
    Remembers(meta, bars, t.prior) && Counted(bars, t.inputs, t.outputs, t.rejects) && NullsCounted(meta, bars, t.nulls)
  }

  /** The bars `more`, after those seen, add the records to the output. */
  ghost predicate Adds(meta: Meta, seen: seq<Bar>, more: seq<Bar>, records: seq<Record>) {
    Outputs(meta, seen + more) == Outputs(meta, seen) + records
  }

  /** One row: the line it adds to the output, if any, and the next state. */
  method ReplayRow(meta: Meta, ghost seen: seq<Bar>, b: Bar, t: Tally) returns (added: seq<Record>, next: Tally)
    requires Right(meta, seen, t)
    ensures Right(meta, seen + [b], next)
    ensures Adds(meta, seen, [b], added)
  {
    var key := KeyOf(b);
    var built := BuildRecord(meta, b, if key in t.prior then Some(t.prior[key]) else None);
    if built.Err? {
      RejectStep(meta, seen, b, t.prior, t.inputs, t.outputs, t.rejects, t.nulls);
      return [], t.(inputs := Bump(t.inputs, key), rejects := t.rejects + 1);
    }
    AcceptStep(meta, seen, b, t.prior, t.inputs, t.outputs, t.rejects);
    var nulls := CountReasons(built.value.nulls, t.nulls);
    NullStep(meta, seen, b, t.nulls, nulls);
    return [built.value],
      Tally(t.prior[key := Remembered(meta, b)], Bump(t.inputs, key), Bump(t.outputs, key), t.rejects, nulls);
  }

  datatype Row = Row(ts: int, o: real, h: real, l: real, c: real)

  /** A source file with the clock and side of its directory. */
  datatype Source = Source(clock: Clock, side: Side, path: string, rows: seq<Row>)

  function BarsIn(s: Source): (bars: seq<Bar>)
    ensures |bars| == |s.rows|
  {
    seq(|s.rows|, i requires 0 <= i < |s.rows| =>
      var r := s.rows[i]; Bar(s.clock, s.side, s.path, r.ts, r.o, r.h, r.l, r.c))
  }

  /** The bars of the files, in the order of the loops. */
  function BarsOf(sources: seq<Source>): seq<Bar> {
    if sources == [] then [] else BarsOf(sources[..|sources| - 1]) + BarsIn(sources[|sources| - 1])
  }

  /** The state within a file, after its bars `part`. */
  ghost predicate InFile(meta: Meta, seen: seq<Bar>, part: seq<Bar>, records: seq<Record>, t: Tally) {
    Right(meta, seen + part, t) && Adds(meta, seen, part, records)
  }

  lemma FileStarts(meta: Meta, seen: seq<Bar>, t: Tally)
    requires Right(meta, seen, t)
    ensures InFile(meta, seen, [], [], t)
  {
    assert seen + [] == seen;
  }

  lemma AddsJoin(meta: Meta, seen: seq<Bar>, a: seq<Bar>, b: seq<Bar>, ra: seq<Record>, rb: seq<Record>)
    requires Adds(meta, seen, a, ra) && Adds(meta, seen + a, b, rb)
    ensures Adds(meta, seen, a + b, ra + rb)
  {
    assert seen + (a + b) == seen + a + b;
  }

  method ReplayNext(meta: Meta, ghost seen: seq<Bar>, ghost part: seq<Bar>, b: Bar, before: seq<Record>, t: Tally)
    returns (records: seq<Record>, next: Tally)
    requires InFile(meta, seen, part, before, t)
    ensures InFile(meta, seen, part + [b], records, next)
  {
    var added;
    added, next := ReplayRow(meta, seen + part, b, t);
    AddsJoin(meta, seen, part, [b], before, added);
    assert seen + part + [b] == seen + (part + [b]);
    records := before + added;
  }

  /** The row loop over one file; `records` is what its output file receives. */
  method ReplayFile(meta: Meta, ghost seen: seq<Bar>, s: Source, t: Tally) returns (records: seq<Record>, next: Tally)
    requires Right(meta, seen, t)
    ensures Right(meta, seen + BarsIn(s), next)
    ensures Adds(meta, seen, BarsIn(s), records)
  {
    records, next := [], t;
    var bars := BarsIn(s);
    FileStarts(meta, seen, t);
    for i := 0 to |bars|
      invariant InFile(meta, seen, bars[..i], records, next)
    {
      records, next := ReplayNext(meta, seen, bars[..i], bars[i], records, next);
      assert bars[..i + 1] == bars[..i] + [bars[i]];
    }
    assert bars[..|bars|] == bars;
  }

  /** File `i` receives the records that its own bars add to those before it. */
  ghost predicate Receives(meta: Meta, sources: seq<Source>, files: seq<seq<Record>>, i: nat)
    requires i < |sources| && i < |files|
  {
    Adds(meta, BarsOf(sources[..i]), BarsIn(sources[i]), files[i])
  }

  lemma ReceivesMore(meta: Meta, sources: seq<Source>, files: seq<seq<Record>>, records: seq<Record>, now: seq<Bar>)
    requires |files| < |sources| && now == BarsOf(sources[..|files|])
    requires forall j :: 0 <= j < |files| ==> Receives(meta, sources, files, j)
    requires Adds(meta, now, BarsIn(sources[|files|]), records)
    ensures forall j :: 0 <= j <= |files| ==> Receives(meta, sources, files + [records], j)
  {
    var more := files + [records];
    forall j | 0 <= j <= |files| ensures Receives(meta, sources, more, j) {
      if j < |files| {
        assert Receives(meta, sources, files, j) && more[j] == files[j];
      }
    }
  }

  /** `replay`: the files in the order of its clock and side loops, one output file each. */
  method Replay(meta: Meta, sources: seq<Source>) returns (files: seq<seq<Record>>, t: Tally)
    ensures |files| == |sources| && forall i :: 0 <= i < |sources| ==> Receives(meta, sources, files, i)
    ensures Right(meta, BarsOf(sources), t)
  {
    files, t := [], Tally(map[], map[], map[], 0, map[]);
    ghost var now: seq<Bar> := [];
    for i := 0 to |sources|
      invariant |files| == i && now == BarsOf(sources[..i]) && Right(meta, now, t)
      invariant forall j :: 0 <= j < i ==> Receives(meta, sources, files, j)
    {
      var records;
      records, t := ReplayFile(meta, now, sources[i], t);
      ReceivesMore(meta, sources, files, records, now);
      now := now + BarsIn(sources[i]);
      assert sources[..i + 1][..i] == sources[..i];
      files := files + [records];
    }
    assert sources[..|sources|] == sources;
  }

  // ----- whole-run laws -----

  /** An accepted bar of the key before position `i`. */
  ghost predicate AcceptedAt(bars: seq<Bar>, j: int, i: int, key: Key)
    requires i <= |bars|
  {
    0 <= j < i && KeyOf(bars[j]) == key && Admissible(bars[j])
  }

  /** `j` is the last of them. */
  ghost predicate LastAccepted(bars: seq<Bar>, j: int, i: int, key: Key)
    requires i <= |bars|
  {
    AcceptedAt(bars, j, i, key) && forall k :: AcceptedAt(bars, k, i, key) ==> k <= j
  }

  /** A rejected bar, or one of another key, changes nothing for the key. */
  lemma SkippedBar(bars: seq<Bar>, i: nat, key: Key)
    requires 0 < i <= |bars| && !(KeyOf(bars[i - 1]) == key && Admissible(bars[i - 1]))
    ensures forall j :: AcceptedAt(bars, j, i, key) <==> AcceptedAt(bars, j, i - 1, key)
    ensures forall j :: LastAccepted(bars, j, i - 1, key) ==> LastAccepted(bars, j, i, key)
  {
  }

  /** The remembered prior is the last accepted bar of the key, whatever came between. */
  lemma {:induction false} PriorIsLast(meta: Meta, bars: seq<Bar>, i: nat, key: Key)
    requires i <= |bars|
    ensures PriorOf(meta, bars[..i], key).None? ==> forall j :: !AcceptedAt(bars, j, i, key)
    ensures PriorOf(meta, bars[..i], key).Some? ==>
              exists j :: LastAccepted(bars, j, i, key) && PriorOf(meta, bars[..i], key).value == Remembered(meta, bars[j])
  {
    if i > 0 {
      PriorIsLast(meta, bars, i - 1, key);
      assert bars[..i][..i - 1] == bars[..i - 1];
      var b := bars[i - 1];
      if KeyOf(b) == key && Admissible(b) {
        assert LastAccepted(bars, i - 1, i, key);
      } else {
        SkippedBar(bars, i, key);
        if PriorOf(meta, bars[..i - 1], key).Some? {
          var j :| LastAccepted(bars, j, i - 1, key) && PriorOf(meta, bars[..i - 1], key).value == Remembered(meta, bars[j]);
          assert LastAccepted(bars, j, i, key);
        }
      }
    }
  }

  ghost predicate PriorFieldsPresent(r: Record) {
    forall f :: f in PRIOR_FIELDS ==> f in r.measurements && r.measurements[f].Some?
  }

  ghost predicate PriorFieldsAbsent(r: Record) {
    forall f :: f in PRIOR_FIELDS ==> f in r.measurements && r.measurements[f].None?
  }

  /** Per key, timestamps increase. */
  ghost predicate Increasing(bars: seq<Bar>) {
    forall i, j :: 0 <= i < j < |bars| && KeyOf(bars[i]) == KeyOf(bars[j]) ==> bars[i].ts < bars[j].ts
  }

  predicate WholeClocks(d: int, clock: Clock) { d % ClockMs(clock) == 0 }

  ghost predicate OnGrid(bars: seq<Bar>) {
    forall i, j :: 0 <= i < |bars| && 0 <= j < |bars| && KeyOf(bars[i]) == KeyOf(bars[j]) ==>
      WholeClocks(bars[j].ts - bars[i].ts, bars[j].clock)
  }

  /** An accepted bar of the same key exactly one clock earlier. */
  ghost predicate OneClockEarlier(bars: seq<Bar>, j: int, i: nat)
    requires i < |bars|
  {
    AcceptedAt(bars, j, i, KeyOf(bars[i])) && bars[i].ts - bars[j].ts == if bars[i].clock == M15 then 900_000 else 7_200_000
  }

  /** An accepted bar of the same key inside the last clock. */
  ghost predicate Between(bars: seq<Bar>, j: int, i: nat)
    requires i < |bars|
  {
    AcceptedAt(bars, j, i, KeyOf(bars[i])) && bars[i].ts - bars[j].ts < if bars[i].clock == M15 then 900_000 else 7_200_000
  }

  lemma FieldsFollowPrior(meta: Meta, b: Bar, prior: Option<Prior>)
    requires Admissible(b)
    ensures var r := BuildRecord(meta, b, prior).value;
            if PriorReason(meta, b, prior).None? then PriorFieldsPresent(r) else PriorFieldsAbsent(r)
  {
  }

  lemma LastDecides(bars: seq<Bar>, j: int, i: nat)
    requires i < |bars| && Increasing(bars) && LastAccepted(bars, j, i, KeyOf(bars[i]))
    ensures bars[j].ts + ClockMs(bars[i].clock) == bars[i].ts <==>
            (exists k :: OneClockEarlier(bars, k, i)) && !(exists k :: Between(bars, k, i))
  {
    forall k | AcceptedAt(bars, k, i, KeyOf(bars[i])) ensures bars[k].ts <= bars[j].ts {
      assert k <= j;
    }
    if bars[j].ts + ClockMs(bars[i].clock) == bars[i].ts {
      assert OneClockEarlier(bars, j, i);
    } else if exists k :: OneClockEarlier(bars, k, i) {
      assert Between(bars, j, i);
    }
  }

  /** For every increasing stream, the prior-dependent fields of an accepted bar are
      all present if and only if an accepted bar exists exactly one clock earlier and
      no accepted bar lies in between; otherwise all are null. */
  lemma PriorFieldsIff(meta: Meta, bars: seq<Bar>, i: nat)
    requires i < |bars| && Increasing(bars) && Admissible(bars[i])
    ensures var r := RecordAt(meta, bars, i).value;
            if (exists j :: OneClockEarlier(bars, j, i)) && !(exists k :: Between(bars, k, i))
            then PriorFieldsPresent(r) else PriorFieldsAbsent(r)
  {
    var (b, key) := (bars[i], KeyOf(bars[i]));
    var prior := PriorOf(meta, bars[..i], key);
    PriorIsLast(meta, bars, i, key);
    FieldsFollowPrior(meta, b, prior);
    if prior.Some? {
      var j :| LastAccepted(bars, j, i, key) && prior.value == Remembered(meta, bars[j]);
      LastDecides(bars, j, i);
    }
  }

  lemma WithinOneClock(d: int, clock: Clock)
    requires 0 < d <= ClockMs(clock) && WholeClocks(d, clock)
    ensures d == ClockMs(clock)
  {
  }

  /** On the clock grid nothing lies in between, so the fields are present exactly
      when the bar one clock earlier was accepted. */
  lemma GapsAreNeverBridged(meta: Meta, bars: seq<Bar>, i: nat)
    requires i < |bars| && Increasing(bars) && OnGrid(bars) && Admissible(bars[i])
    ensures var r := RecordAt(meta, bars, i).value;
            if exists j :: OneClockEarlier(bars, j, i) then PriorFieldsPresent(r) else PriorFieldsAbsent(r)
  {
    PriorFieldsIff(meta, bars, i);
    forall k | Between(bars, k, i) ensures false {
      WithinOneClock(bars[i].ts - bars[k].ts, bars[i].clock);
    }
  }

  /** Off the grid it can fail: the bar one clock earlier was accepted, and the fields
      are null all the same because a half-clock bar came in between. */
  lemma OffGridHides(meta: Meta) returns (bars: seq<Bar>)
    ensures |bars| == 3 && Increasing(bars) && Admissible(bars[2]) && OneClockEarlier(bars, 0, 2)
    ensures PriorFieldsAbsent(RecordAt(meta, bars, 2).value)
  {
    var b := Bar(M15, Bid, "a.csv", 0, 1.0, 1.0, 1.0, 1.0);
    bars := [b, b.(ts := 450000), b.(ts := 900000)];
    assert Between(bars, 1, 2);
    PriorFieldsIff(meta, bars, 2);
  }

  lemma LastIsThat(bars: seq<Bar>, i: nat, j: nat, k: nat)
    requires i < |bars| && Increasing(bars) && OnGrid(bars)
    requires OneClockEarlier(bars, j, i) && LastAccepted(bars, k, i, KeyOf(bars[i]))
    ensures k == j
  {
  }

  /** On the grid the remembered prior is the bar one clock earlier, if it was accepted. */
  lemma PriorIsThat(meta: Meta, bars: seq<Bar>, i: nat, j: nat)
    requires i < |bars| && Increasing(bars) && OnGrid(bars) && OneClockEarlier(bars, j, i)
    ensures PriorOf(meta, bars[..i], KeyOf(bars[i])) == Some(Remembered(meta, bars[j]))
  {
    var key := KeyOf(bars[i]);
    PriorIsLast(meta, bars, i, key);
    assert AcceptedAt(bars, j, i, key);
    var k :| LastAccepted(bars, k, i, key) && PriorOf(meta, bars[..i], key).value == Remembered(meta, bars[k]);
    LastIsThat(bars, i, j, k);
  }

  /** Present fields are measured against exactly the bar one clock earlier; the true
      range is the span of both. */
  lemma PriorFieldsMean(meta: Meta, bars: seq<Bar>, i: nat, j: nat)
    requires i < |bars| && Increasing(bars) && OnGrid(bars) && Admissible(bars[i]) && OneClockEarlier(bars, j, i)
    ensures var (m, b, pc) := (RecordAt(meta, bars, i).value.measurements, bars[i], bars[j].c);
            && m[CloseChange] == Some(b.c - pc) && m[OpenGap] == Some(b.o - pc)
            && m[TrueRangeAbs] == Some(Max(b.h, pc) - Min(b.l, pc))
            && m[TrueRangeTicks] == Some((Max(b.h, pc) - Min(b.l, pc)) / PRICE_INCREMENT)
  {
    PriorIsThat(meta, bars, i, j);
  }

  /** A record names the release, the key, the file and the time of its bar, and has its
      direction and its own measurements; whether there is one depends on the bar alone. */
  lemma RecordNamesItsBar(meta: Meta, bars: seq<Bar>, i: nat)
    requires i < |bars|
    ensures var (b, r) := (bars[i], RecordAt(meta, bars, i));
      && (r.Ok? <==> b.l <= b.o && b.o <= b.h && b.l <= b.c && b.c <= b.h)
      && (r.Ok? ==>
        && r.value.release == meta.release && r.value.manifest == meta.manifest
        && (r.value.clock, r.value.side) == (b.clock, b.side) && r.value.ts == b.ts && r.value.path == b.path
        && (r.value.direction == Up <==> b.o < b.c) && (r.value.direction == Down <==> b.c < b.o)
        && forall f :: f !in {TrueRangeAbs, TrueRangeTicks, CloseChange, OpenGap} ==>
          f in r.value.measurements && r.value.measurements[f] == Measure(b, None, f))
  {
  }

  /** The digest of everything in a record but its authority labels. */
  function RecordId(hash: Record -> string, r: Record): string { "c1:" + hash(r) }

  /** In an increasing stream no two records share an identifier. */
  lemma RecordIdsDiffer(meta: Meta, bars: seq<Bar>, hash: Record -> string, i: nat, j: nat)
    requires CollisionFree(hash) && Increasing(bars) && i < j < |bars| && Admissible(bars[i]) && Admissible(bars[j])
    ensures RecordId(hash, RecordAt(meta, bars, i).value) != RecordId(hash, RecordAt(meta, bars, j).value)
  {
    var (a, b) := (RecordAt(meta, bars, i).value, RecordAt(meta, bars, j).value);
    assert a != b by {
      assert (a.clock, a.side) == KeyOf(bars[i]) && (b.clock, b.side) == KeyOf(bars[j]);
      assert a.ts == bars[i].ts && b.ts == bars[j].ts;
    }
    assert RecordId(hash, a)[3..] == hash(a) && RecordId(hash, b)[3..] == hash(b);
  }

  lemma FourKeys(b: Bar)
    ensures KeyOf(b) == (M15, Bid) || KeyOf(b) == (M15, Ask) || KeyOf(b) == (H2, Bid) || KeyOf(b) == (H2, Ask)
  {
    assert b.clock.M15? || b.clock.H2?;
    assert b.side.Bid? || b.side.Ask?;
  }

  /** Every input becomes an output or a rejection, over the whole run. */
  lemma {:induction false} InputsAccountedFor(meta: Meta, bars: seq<Bar>)
    ensures |Outputs(meta, bars)| + Rejected(bars) == |bars|
    ensures InputCount(bars, (M15, Bid)) + InputCount(bars, (M15, Ask))
            + InputCount(bars, (H2, Bid)) + InputCount(bars, (H2, Ask)) == |bars|
    ensures OutputCount(bars, (M15, Bid)) + OutputCount(bars, (M15, Ask))
            + OutputCount(bars, (H2, Bid)) + OutputCount(bars, (H2, Ask)) == |Outputs(meta, bars)|
  {
    if bars != [] {
      InputsAccountedFor(meta, bars[..|bars| - 1]);
      FourKeys(bars[|bars| - 1]);
    }
  }

  lemma FieldCounts()
    ensures |ZERO_NULLS| == 7 && |PRIOR_FIELDS| == 4 && ZERO_NULLS !! PRIOR_FIELDS
  {
  }

  /** Seven fields for a zero range, four for a missing prior bar. */
  lemma ReasonSets(b: Bar, reason: Option<Reason>, r: Reason)
    requires reason != Some(ZeroRange)
    ensures |ReasonFields(NullReasons(b, reason), r)|
            == if r == ZeroRange then (if b.h == b.l then 7 else 0) else if reason == Some(r) then 4 else 0
  {
    var found := ReasonFields(NullReasons(b, reason), r);
    FieldCounts();
    var expected := if r == ZeroRange then (if b.h == b.l then ZERO_NULLS else {})
                    else if reason == Some(r) then PRIOR_FIELDS else {};
    forall f ensures f in found <==> f in expected {
      ReasonsByField(b, reason, f);
    }
    assert found == expected;
  }

  /** Keys under which some bar was accepted. */
  function KeysSeen(bars: seq<Bar>): set<Key> {
    set b | b in bars && Admissible(b) :: KeyOf(b)
  }

  lemma {:induction false} PriorIffSeen(meta: Meta, bars: seq<Bar>, key: Key)
    ensures PriorOf(meta, bars, key).Some? <==> key in KeysSeen(bars)
    ensures PriorOf(meta, bars, key).Some? ==>
              var p := PriorOf(meta, bars, key).value;
              p.release == meta.release && p.manifest == meta.manifest && (p.clock, p.side) == key
  {
    if bars != [] {
      var n := |bars| - 1;
      PriorIffSeen(meta, bars[..n], key);
      assert bars == bars[..n] + [bars[n]];
      assert bars[n] in bars;
    }
  }

  function ZeroRangeBars(bars: seq<Bar>): nat {
    if bars == [] then 0
    else
      var b := bars[|bars| - 1];
      ZeroRangeBars(bars[..|bars| - 1]) + if Admissible(b) && b.h == b.l then 1 else 0
  }

  lemma NullTotalGrows(meta: Meta, bars: seq<Bar>, b: Bar, r: Reason)
    ensures var reason := PriorReason(meta, b, PriorOf(meta, bars, KeyOf(b)));
            NullTotal(meta, bars + [b], r) == NullTotal(meta, bars, r) +
              if !Admissible(b) then 0
              else if r == ZeroRange then (if b.h == b.l then 7 else 0)
              else if reason == Some(r) then 4 else 0
  {
    assert (bars + [b])[..|bars|] == bars;
    ReasonSets(b, PriorReason(meta, b, PriorOf(meta, bars, KeyOf(b))), r);
  }

  /** In a whole run an identity mismatch never occurs. */
  lemma {:induction false} NoIdentityMismatch(meta: Meta, bars: seq<Bar>)
    ensures NullTotal(meta, bars, PriorIdentityMismatch) == 0
  {
    if bars != [] {
      var (rest, b) := (bars[..|bars| - 1], bars[|bars| - 1]);
      NoIdentityMismatch(meta, rest);
      PriorIffSeen(meta, rest, KeyOf(b));
      NullTotalGrows(meta, rest, b, PriorIdentityMismatch);
      assert bars == rest + [b];
    }
  }

  lemma SeenGrows(bars: seq<Bar>, b: Bar)
    ensures KeysSeen(bars + [b]) == if Admissible(b) then KeysSeen(bars) + {KeyOf(b)} else KeysSeen(bars)
    ensures |KeysSeen(bars + [b])| == |KeysSeen(bars)| + if Admissible(b) && KeyOf(b) !in KeysSeen(bars) then 1 else 0
  {
  }

  lemma PriorLackedStep(meta: Meta, bars: seq<Bar>, b: Bar)
    ensures NullTotal(meta, bars + [b], NoPriorBar) - NullTotal(meta, bars, NoPriorBar)
            == 4 * (|KeysSeen(bars + [b])| - |KeysSeen(bars)|)
  {
    PriorIffSeen(meta, bars, KeyOf(b));
    SeenGrows(bars, b);
    NullTotalGrows(meta, bars, b, NoPriorBar);
  }

  /** Each key lacks a prior bar exactly once: four null fields per key that has any
      accepted bar. */
  lemma {:induction false} PriorLackedOncePerKey(meta: Meta, bars: seq<Bar>)
    ensures NullTotal(meta, bars, NoPriorBar) == 4 * |KeysSeen(bars)|
  {
    if bars != [] {
      var (rest, b) := (bars[..|bars| - 1], bars[|bars| - 1]);
      PriorLackedOncePerKey(meta, rest);
      PriorLackedStep(meta, rest, b);
      assert bars == rest + [b];
    }
  }

  lemma ZeroRangeStep(meta: Meta, bars: seq<Bar>, b: Bar)
    requires NullTotal(meta, bars, ZeroRange) == 7 * ZeroRangeBars(bars)
    ensures NullTotal(meta, bars + [b], ZeroRange) == 7 * ZeroRangeBars(bars + [b])
  {
    NullTotalGrows(meta, bars, b, ZeroRange);
    assert (bars + [b])[..|bars|] == bars;
  }

  /** Every accepted zero-range bar gives seven null fields. */
  lemma {:induction false} ZeroRangeTotal(meta: Meta, bars: seq<Bar>)
    ensures NullTotal(meta, bars, ZeroRange) == 7 * ZeroRangeBars(bars)
  {
    if bars != [] {
      var (rest, b) := (bars[..|bars| - 1], bars[|bars| - 1]);
      assert bars == rest + [b];
      ZeroRangeTotal(meta, rest);
      ZeroRangeStep(meta, rest, b);
    }
  }
}

/** Restoring the episodes of a completed partition from the persisted event
    stream, and checking them against the final snapshots. */
module EpisodeRestore {
  import opened Common

  datatype Episode = Episode(status: string, members: seq<string>, phases: seq<string>, boundaries: seq<string>)

  datatype Row =
    | Genesis(episode: string, side: string)
    | Boundary(boundary: string, action: string, episodes: seq<string>)
    | Membership(episode: string, operation: string, frame: string)
    | Phase(episode: string, segment: string)
    | Snapshot(episode: string, final: Episode)
    | Other

  type Engine = map<string, Episode>

  const OPEN := Episode("OPEN", [], [], [])

  function StatusAfter(action: string, status: string): string {
    if action == "CENSOR_GAP" || action == "CENSOR_RELEASE_END" then "CENSORED"
    else if action == "TERMINATE" then "TERMINATED"
    else if action == "TERMINATE_CONFLICT" then "CONFLICTED"
    else status
  }

  // ----- the fold -----

  function Cross(e: Episode, boundary: string, action: string): Episode {
    e.(boundaries := e.boundaries + [boundary], status := StatusAfter(action, e.status))
  }

  /** A boundary row names its episodes one after the other. */
  function CrossAll(engine: Engine, boundary: string, action: string, ids: seq<string>): Result<Engine> {
    if ids == [] then Ok(engine)
    else
      var n := |ids| - 1;
      match CrossAll(engine, boundary, action, ids[..n])
      case Err(e) => Err(e)
      case Ok(m) =>
        if ids[n] !in m then Err("RESTORE_EVENT_EPISODE_MISSING")
        else Ok(m[ids[n] := Cross(m[ids[n]], boundary, action)])
  }

  function Absorb(engine: Engine, row: Row): Result<Engine> {
    match row
    case Genesis(id, side) => Ok(engine[id := OPEN])
    case Boundary(boundary, action, ids) => CrossAll(engine, boundary, action, ids)
    case Membership(id, operation, frame) =>
      if id !in engine then Err("RESTORE_MEMBERSHIP_EPISODE_MISSING")
      else if operation == "ADD" then Ok(engine[id := engine[id].(members := engine[id].members + [frame])])
      else Ok(engine)
    case Phase(id, segment) =>
      if id !in engine then Err("RESTORE_PHASE_EPISODE_MISSING")
      else Ok(engine[id := engine[id].(phases := engine[id].phases + [segment])])
    case Snapshot(_, _) => Err("PREFIX_MUST_PRECEDE_FINAL_SNAPSHOTS")
    case Other => Ok(engine)
  }

  function Fold(engine: Engine, rows: seq<Row>): Result<Engine> {
    if rows == [] then Ok(engine)
    else
      match Fold(engine, rows[..|rows| - 1])
      case Err(e) => Err(e)
      case Ok(m) => Absorb(m, rows[|rows| - 1])
  }

  /** Restoring a stream in two goes is restoring it in one. */
  lemma {:induction false} FoldComposes(engine: Engine, a: seq<Row>, b: seq<Row>)
    ensures Fold(engine, a + b) ==
            match Fold(engine, a) { case Err(e) => Err(e) case Ok(m) => Fold(m, b) }
  {
    if b == [] {
      assert a + b == a;
    } else {
      var n := |b| - 1;
      FoldComposes(engine, a, b[..n]);
      assert (a + b)[..|a + b| - 1] == a + b[..n];
    }
  }

  // ----- what a stream says about one episode -----

  datatype Event =
    | Born(side: string)
    | Crossed(boundary: string, action: string)
    | Joined(frame: string)
    | Touched
    | Phased(segment: string)
    | Snapped

  function Crossings(ids: seq<string>, id: string, event: Event): seq<Event> {
    if ids == [] then []
    else Crossings(ids[..|ids| - 1], id, event) + if ids[|ids| - 1] == id then [event] else []
  }

  /** The part of a row that concerns one episode. */
  function EventsOf(row: Row, id: string): seq<Event> {
    match row
    case Genesis(e, side) => if e == id then [Born(side)] else []
    case Boundary(boundary, action, ids) => Crossings(ids, id, Crossed(boundary, action))
    case Membership(e, operation, frame) => if e != id then [] else if operation == "ADD" then [Joined(frame)] else [Touched]
    case Phase(e, segment) => if e == id then [Phased(segment)] else []
    case Snapshot(e, _) => if e == id then [Snapped] else []
    case Other => []
  }

  /** An episode's own subsequence of the stream. */
  function Events(rows: seq<Row>, id: string): seq<Event> {
    if rows == [] then [] else Events(rows[..|rows| - 1], id) + EventsOf(rows[|rows| - 1], id)
  }

  /** The episode starts with a birth, and no snapshot is among its events. */
  predicate Orderly(events: seq<Event>) {
    (events != [] ==> events[0].Born?) && forall i :: 0 <= i < |events| ==> events[i] != Snapped
  }

  function SinceBirth(events: seq<Event>): seq<Event> {
    if events == [] || events[|events| - 1].Born? then []
    else SinceBirth(events[..|events| - 1]) + [events[|events| - 1]]
  }

  function Frames(events: seq<Event>): seq<string> {
    if events == [] then []
    else Frames(events[..|events| - 1]) + match events[|events| - 1] { case Joined(f) => [f] case _ => [] }
  }

  function Segments(events: seq<Event>): seq<string> {
    if events == [] then []
    else Segments(events[..|events| - 1]) + match events[|events| - 1] { case Phased(s) => [s] case _ => [] }
  }

  function Boundaries(events: seq<Event>): seq<string> {
    if events == [] then []
    else Boundaries(events[..|events| - 1]) + match events[|events| - 1] { case Crossed(b, _) => [b] case _ => [] }
  }

  /** The actions that change a status. */
  const CHANGING: set<string> := {"CENSOR_GAP", "CENSOR_RELEASE_END", "TERMINATE", "TERMINATE_CONFLICT"}

  ghost predicate LastChangeAt(events: seq<Event>, i: nat)
    requires i < |events|
  {
    && events[i].Crossed? && events[i].action in CHANGING
    && forall j :: i < j < |events| && events[j].Crossed? ==> events[j].action !in CHANGING
  }

  /** The last status-changing crossing has one of these actions. */
  ghost predicate LastChangeIn(events: seq<Event>, actions: set<string>) {
    exists i :: 0 <= i < |events| && LastChangeAt(events, i) && events[i].action in actions
  }

  /** Status fixed by the last status-changing crossing. */
  ghost function FinalStatus(events: seq<Event>): string {
    if LastChangeIn(events, {"CENSOR_GAP", "CENSOR_RELEASE_END"}) then "CENSORED"
    else if LastChangeIn(events, {"TERMINATE"}) then "TERMINATED"
    else if LastChangeIn(events, {"TERMINATE_CONFLICT"}) then "CONFLICTED"
    else "OPEN"
  }

  lemma LastChange(events: seq<Event>, i: nat) returns (last: nat)
    requires i < |events| && events[i].Crossed? && events[i].action in CHANGING
    ensures last < |events| && LastChangeAt(events, last)
    decreases |events| - i
  {
    last := i;
    if j :| i < j < |events| && events[j].Crossed? && events[j].action in CHANGING {
      last := LastChange(events, j);
    }
  }

  /** Each status means what it says, and an episode is open exactly when no crossing ever
      changed its status. */
  lemma StatusMeans(events: seq<Event>)
    ensures FinalStatus(events) == "CENSORED" <==> LastChangeIn(events, {"CENSOR_GAP", "CENSOR_RELEASE_END"})
    ensures FinalStatus(events) == "TERMINATED" <==> LastChangeIn(events, {"TERMINATE"})
    ensures FinalStatus(events) == "CONFLICTED" <==> LastChangeIn(events, {"TERMINATE_CONFLICT"})
    ensures FinalStatus(events) == "OPEN" <==>
      forall i :: 0 <= i < |events| && events[i].Crossed? ==> events[i].action !in CHANGING
  {
    if i :| 0 <= i < |events| && events[i].Crossed? && events[i].action in CHANGING {
      var last := LastChange(events, i);
    }
  }

  lemma LastChangeAppend(events: seq<Event>, event: Event, actions: set<string>)
    requires actions <= CHANGING
    ensures LastChangeIn(events + [event], actions) <==>
      if event.Crossed? && event.action in CHANGING then event.action in actions else LastChangeIn(events, actions)
  {
    var all := events + [event];
    assert all[|events|] == event;
    if event.Crossed? && event.action in CHANGING {
      assert LastChangeAt(all, |events|);
    } else {
      forall i | 0 <= i < |events| ensures LastChangeAt(all, i) <==> LastChangeAt(events, i) {
        assert forall j :: i < j < |events| ==> all[j] == events[j];
      }
    }
  }

  lemma FinalStatusAppend(events: seq<Event>, event: Event)
    ensures FinalStatus(events + [event]) ==
      if event.Crossed? then StatusAfter(event.action, FinalStatus(events)) else FinalStatus(events)
  {
    LastChangeAppend(events, event, {"CENSOR_GAP", "CENSOR_RELEASE_END"});
    LastChangeAppend(events, event, {"TERMINATE"});
    LastChangeAppend(events, event, {"TERMINATE_CONFLICT"});
  }

  /** The declarative projection: what the events since the last birth amount to. */
  ghost function Project(events: seq<Event>): Episode {
    var s := SinceBirth(events);
    Episode(FinalStatus(s), Frames(s), Segments(s), Boundaries(s))
  }

  // ----- the fold computes the projection -----

  ghost predicate Mirrors(engine: Engine, events: seq<Event>, id: string) {
    (id in engine <==> events != []) && (id in engine ==> engine[id] == Project(events))
  }

  function Advance(e: Episode, event: Event): Episode {
    match event
    case Born(_) => OPEN
    case Crossed(b, action) => Cross(e, b, action)
    case Joined(f) => e.(members := e.members + [f])
    case Phased(s) => e.(phases := e.phases + [s])
    case _ => e
  }

  lemma ProjectAppend(events: seq<Event>, event: Event)
    ensures Project(events + [event]) == Advance(Project(events), event)
  {
    var all := events + [event];
    assert all[..|events|] == events;
    if event.Born? {
      assert SinceBirth(all) == [];
      StatusMeans([]);
    } else {
      var s := SinceBirth(events);
      assert SinceBirth(all) == s + [event];
      assert (s + [event])[..|s|] == s;
      FinalStatusAppend(s, event);
    }
  }

  lemma MirrorsStep(engine: Engine, events: seq<Event>, id: string, event: Event)
    requires Mirrors(engine, events, id) && (event.Born? || events != [])
    ensures Mirrors(engine[id := Advance(if id in engine then engine[id] else OPEN, event)], events + [event], id)
  {
    ProjectAppend(events, event);
  }

  /** The row leaves the subsequence of every episode orderly. */
  ghost predicate RowFits(rows: seq<Row>, row: Row) {
    forall id :: Orderly(Events(rows, id) + EventsOf(row, id))
  }

  ghost predicate AllMirrored(engine: Engine, rows: seq<Row>) {
    forall id :: Mirrors(engine, Events(rows, id), id)
  }

  lemma CrossingsAppend(ids: seq<string>, last: string, id: string, event: Event)
    ensures Crossings(ids + [last], id, event) == Crossings(ids, id, event) + if last == id then [event] else []
  {
  }

  lemma {:induction false} SameEpisodes(engine: Engine, boundary: string, action: string, ids: seq<string>)
    requires CrossAll(engine, boundary, action, ids).Ok?
    ensures CrossAll(engine, boundary, action, ids).value.Keys == engine.Keys
  {
    if ids != [] {
      SameEpisodes(engine, boundary, action, ids[..|ids| - 1]);
    }
  }

  lemma CrossedOne(m: Engine, events: seq<Event>, ids: seq<string>, last: string, id: string, event: Event)
    requires event.Crossed? && last in m && Mirrors(m, events + Crossings(ids, id, event), id)
    ensures Mirrors(m[last := Cross(m[last], event.boundary, event.action)], events + Crossings(ids + [last], id, event), id)
  {
    var before := events + Crossings(ids, id, event);
    CrossingsAppend(ids, last, id, event);
    if id == last {
      MirrorsStep(m, before, id, event);
      assert events + (Crossings(ids, id, event) + [event]) == before + [event];
    } else {
      assert events + (Crossings(ids, id, event) + []) == before;
    }
  }

  lemma CrossOne(m: Engine, rows: seq<Row>, ids: seq<string>, n: nat, event: Event)
    requires |ids| == n + 1 && event.Crossed? && ids[n] in m
    requires forall id :: Mirrors(m, Events(rows, id) + Crossings(ids[..n], id, event), id)
    ensures var now := m[ids[n] := Cross(m[ids[n]], event.boundary, event.action)];
      forall id :: Mirrors(now, Events(rows, id) + Crossings(ids, id, event), id)
  {
    var now := m[ids[n] := Cross(m[ids[n]], event.boundary, event.action)];
    assert ids == ids[..n] + [ids[n]];
    forall id ensures Mirrors(now, Events(rows, id) + Crossings(ids, id, event), id) {
      assert Mirrors(m, Events(rows, id) + Crossings(ids[..n], id, event), id);
      CrossedOne(m, Events(rows, id), ids[..n], ids[n], id, event);
    }
  }

  lemma {:induction false} CrossAllMirrors(engine: Engine, rows: seq<Row>, boundary: string, action: string, ids: seq<string>)
    requires AllMirrored(engine, rows)
    ensures var r := CrossAll(engine, boundary, action, ids);
      && (r.Ok? <==> forall i :: 0 <= i < |ids| ==> ids[i] in engine)
      && (r.Ok? ==> forall id :: Mirrors(r.value, Events(rows, id) + Crossings(ids, id, Crossed(boundary, action)), id))
  {
    var event := Crossed(boundary, action);
    if ids == [] {
      forall id ensures Events(rows, id) + Crossings(ids, id, event) == Events(rows, id) {
      }
    } else {
      var n := |ids| - 1;
      CrossAllMirrors(engine, rows, boundary, action, ids[..n]);
      var before := CrossAll(engine, boundary, action, ids[..n]);
      if before.Ok? {
        SameEpisodes(engine, boundary, action, ids[..n]);
        if ids[n] in before.value {
          CrossOne(before.value, rows, ids, n, event);
        }
      }
    }
  }

  lemma {:induction false} CrossingsAre(ids: seq<string>, id: string, event: Event)
    ensures forall i :: 0 <= i < |Crossings(ids, id, event)| ==> Crossings(ids, id, event)[i] == event
    ensures Crossings(ids, id, event) != [] <==> id in ids
  {
    if ids != [] {
      CrossingsAre(ids[..|ids| - 1], id, event);
      assert id in ids <==> id in ids[..|ids| - 1] || id == ids[|ids| - 1];
    }
  }

  /** A boundary row fits exactly when all its episodes have been born. */
  lemma BoundaryFits(engine: Engine, rows: seq<Row>, row: Row)
    requires row.Boundary? && AllMirrored(engine, rows) && forall id :: Orderly(Events(rows, id))
    ensures RowFits(rows, row) <==> forall i :: 0 <= i < |row.episodes| ==> row.episodes[i] in engine
  {
    var event := Crossed(row.boundary, row.action);
    forall id ensures Orderly(Events(rows, id) + EventsOf(row, id)) <==> (id in row.episodes ==> id in engine) {
      CrossingsAre(row.episodes, id, event);
      assert Mirrors(engine, Events(rows, id), id) && Orderly(Events(rows, id));
      if Events(rows, id) == [] && id in row.episodes {
        assert (Events(rows, id) + EventsOf(row, id))[0] == event;
      }
    }
    if RowFits(rows, row) {
      forall i | 0 <= i < |row.episodes| ensures row.episodes[i] in engine {
        assert Orderly(Events(rows, row.episodes[i]) + EventsOf(row, row.episodes[i]));
      }
    }
  }

  lemma EventsAppend(rows: seq<Row>, row: Row, id: string)
    ensures Events(rows + [row], id) == Events(rows, id) + EventsOf(row, id)
  {
  }

  lemma AbsorbBoundary(engine: Engine, rows: seq<Row>, row: Row)
    requires row.Boundary? && AllMirrored(engine, rows) && forall id :: Orderly(Events(rows, id))
    ensures Absorb(engine, row).Ok? <==> RowFits(rows, row)
    ensures Absorb(engine, row).Ok? ==> AllMirrored(Absorb(engine, row).value, rows + [row])
  {
    BoundaryFits(engine, rows, row);
    CrossAllMirrors(engine, rows, row.boundary, row.action, row.episodes);
    forall id ensures Events(rows + [row], id) == Events(rows, id) + EventsOf(row, id) {
      EventsAppend(rows, row, id);
    }
  }

  /** The one event of a row about a single episode. */
  function SingleEvent(row: Row): (Event, string)
    requires !row.Boundary? && row != Other
  {
    match row
    case Genesis(e, side) => (Born(side), e)
    case Membership(e, operation, frame) => (if operation == "ADD" then Joined(frame) else Touched, e)
    case Phase(e, segment) => (Phased(segment), e)
    case Snapshot(e, _) => (Snapped, e)
  }

  lemma SingleEventOf(row: Row, id: string)
    requires !row.Boundary? && row != Other
    ensures EventsOf(row, id) == if id == SingleEvent(row).1 then [SingleEvent(row).0] else []
  {
  }

  lemma OrderlyWith(events: seq<Event>, event: Event)
    requires Orderly(events)
    ensures Orderly(events + [event]) <==> event != Snapped && (events != [] || event.Born?)
  {
    var all := events + [event];
    assert all[|events|] == event;
    assert events != [] ==> all[0] == events[0];
  }

  lemma SingleFits(engine: Engine, rows: seq<Row>, row: Row)
    requires !row.Boundary? && row != Other
    requires AllMirrored(engine, rows) && forall id :: Orderly(Events(rows, id))
    ensures var (event, id) := SingleEvent(row);
      RowFits(rows, row) <==> event != Snapped && (id in engine || event.Born?)
  {
    var (event, id) := SingleEvent(row);
    assert Mirrors(engine, Events(rows, id), id);
    OrderlyWith(Events(rows, id), event);
    SingleEventOf(row, id);
    if Orderly(Events(rows, id) + [event]) {
      forall other ensures Orderly(Events(rows, other) + EventsOf(row, other)) {
        SingleEventOf(row, other);
        if other != id {
          assert Events(rows, other) + [] == Events(rows, other);
        }
      }
    }
  }

  /** The engine with one more event of one episode. */
  function With(engine: Engine, id: string, event: Event): Engine {
    engine[id := Advance(if id in engine then engine[id] else OPEN, event)]
  }

  /** What a row about a single episode does to the engine. */
  ghost predicate AbsorbsEvent(engine: Engine, row: Row, id: string, event: Event) {
    && (Absorb(engine, row).Ok? <==> event != Snapped && (id in engine || event.Born?))
    && (Absorb(engine, row).Ok? ==> Absorb(engine, row).value == With(engine, id, event))
  }

  lemma AbsorbMembership(engine: Engine, row: Row)
    requires row.Membership?
    ensures var (event, id) := SingleEvent(row); AbsorbsEvent(engine, row, id, event)
  {
    var id := row.episode;
    if id in engine && row.operation != "ADD" {
      assert engine[id := engine[id]] == engine;
    }
  }

  lemma AbsorbOne(engine: Engine, row: Row)
    requires !row.Boundary? && row != Other
    ensures var (event, id) := SingleEvent(row); AbsorbsEvent(engine, row, id, event)
  {
    match row
    case Genesis(_, _) =>
    case Membership(_, _, _) => AbsorbMembership(engine, row);
    case Phase(_, _) =>
    case Snapshot(_, _) =>
  }

  lemma OneMirrored(engine: Engine, rows: seq<Row>, row: Row, other: string)
    requires !row.Boundary? && row != Other && Mirrors(engine, Events(rows, other), other)
    requires var (event, id) := SingleEvent(row); id in engine || event.Born?
    ensures var (event, id) := SingleEvent(row); Mirrors(With(engine, id, event), Events(rows + [row], other), other)
  {
    var (event, id) := SingleEvent(row);
    EventsAppend(rows, row, other);
    SingleEventOf(row, other);
    if other == id {
      MirrorsStep(engine, Events(rows, id), id, event);
    } else {
      assert Events(rows, other) + [] == Events(rows, other);
    }
  }

  lemma AbsorbSingle(engine: Engine, rows: seq<Row>, row: Row)
    requires !row.Boundary? && row != Other
    requires AllMirrored(engine, rows) && forall id :: Orderly(Events(rows, id))
    ensures Absorb(engine, row).Ok? <==> RowFits(rows, row)
    ensures Absorb(engine, row).Ok? ==> AllMirrored(Absorb(engine, row).value, rows + [row])
  {
    SingleFits(engine, rows, row);
    AbsorbOne(engine, row);
    if Absorb(engine, row).Ok? {
      forall other ensures Mirrors(Absorb(engine, row).value, Events(rows + [row], other), other) {
        assert Mirrors(engine, Events(rows, other), other);
        OneMirrored(engine, rows, row, other);
      }
    }
  }

  lemma AbsorbMirrors(engine: Engine, rows: seq<Row>, row: Row)
    requires AllMirrored(engine, rows) && forall id :: Orderly(Events(rows, id))
    ensures Absorb(engine, row).Ok? <==> RowFits(rows, row)
    ensures Absorb(engine, row).Ok? ==> AllMirrored(Absorb(engine, row).value, rows + [row])
  {
    if row == Other {
      forall id ensures Events(rows, id) + EventsOf(row, id) == Events(rows, id) && Events(rows + [row], id) == Events(rows, id) {
        EventsAppend(rows, row, id);
      }
    } else if row.Boundary? {
      AbsorbBoundary(engine, rows, row);
    } else {
      AbsorbSingle(engine, rows, row);
    }
  }

  ghost predicate AllOrderly(rows: seq<Row>) {
    forall id :: Orderly(Events(rows, id))
  }

  lemma OrderlyFront(a: seq<Event>, b: seq<Event>)
    requires Orderly(a + b)
    ensures Orderly(a)
  {
    assert forall i :: 0 <= i < |a| ==> (a + b)[i] == a[i];
  }

  lemma OrderlyPrefix(rows: seq<Row>, row: Row)
    ensures AllOrderly(rows + [row]) <==> AllOrderly(rows) && RowFits(rows, row)
  {
    forall id ensures Events(rows + [row], id) == Events(rows, id) + EventsOf(row, id) {
      EventsAppend(rows, row, id);
    }
    forall id | Orderly(Events(rows, id) + EventsOf(row, id)) ensures Orderly(Events(rows, id)) {
      OrderlyFront(Events(rows, id), EventsOf(row, id));
    }
    if AllOrderly(rows + [row]) {
      forall id ensures Orderly(Events(rows, id) + EventsOf(row, id)) {
        assert Orderly(Events(rows + [row], id));
      }
    }
  }

  /** The restored engine is the declarative projection: the fold succeeds exactly
      when every episode's own subsequence is orderly, and it then holds exactly
      the episodes that were born, each as its events since the last birth say. */
  lemma {:induction false} FoldProjects(rows: seq<Row>)
    ensures Fold(map[], rows).Ok? <==> AllOrderly(rows)
    ensures Fold(map[], rows).Ok? ==> AllMirrored(Fold(map[], rows).value, rows)
  {
    if rows != [] {
      var n := |rows| - 1;
      FoldProjects(rows[..n]);
      assert rows == rows[..n] + [rows[n]];
      OrderlyPrefix(rows[..n], rows[n]);
      if Fold(map[], rows[..n]).Ok? {
        AbsorbMirrors(Fold(map[], rows[..n]).value, rows[..n], rows[n]);
      }
    }
  }

  /** Any reordering that keeps each episode's own subsequence restores the same
      episodes, or fails to restore both ways. */
  lemma ReorderingIsHarmless(a: seq<Row>, b: seq<Row>)
    requires forall id :: Events(a, id) == Events(b, id)
    ensures Fold(map[], a).Ok? <==> Fold(map[], b).Ok?
    ensures Fold(map[], a).Ok? ==> Fold(map[], a) == Fold(map[], b)
  {
    FoldProjects(a);
    FoldProjects(b);
    if Fold(map[], a).Ok? {
      var (x, y) := (Fold(map[], a).value, Fold(map[], b).value);
      forall id ensures (id in x <==> id in y) && (id in x ==> x[id] == y[id]) {
        assert Mirrors(x, Events(a, id), id) && Mirrors(y, Events(b, id), id);
      }
      assert x == y;
    }
  }

  // ----- the projection read off the rows themselves -----

  /** Frames of the ADD deltas of the episode since its last genesis, in order. */
  function RowFrames(rows: seq<Row>, id: string): seq<string> {
    if rows == [] then []
    else
      var (before, row) := (RowFrames(rows[..|rows| - 1], id), rows[|rows| - 1]);
      if row.Genesis? && row.episode == id then []
      else if row.Membership? && row.episode == id && row.operation == "ADD" then before + [row.frame]
      else before
  }

  /** Segments of its phase records since its last genesis, in order. */
  function RowSegments(rows: seq<Row>, id: string): seq<string> {
    if rows == [] then []
    else
      var (before, row) := (RowSegments(rows[..|rows| - 1], id), rows[|rows| - 1]);
      if row.Genesis? && row.episode == id then []
      else if row.Phase? && row.episode == id then before + [row.segment]
      else before
  }

  function Occurrences(ids: seq<string>, id: string): nat {
    if ids == [] then 0 else Occurrences(ids[..|ids| - 1], id) + if ids[|ids| - 1] == id then 1 else 0
  }

  function Repeated(x: string, n: nat): seq<string> { if n == 0 then [] else Repeated(x, n - 1) + [x] }

  /** Boundary events since its last genesis, one per mention, in order. */
  function RowBoundaries(rows: seq<Row>, id: string): seq<string> {
    if rows == [] then []
    else
      var (before, row) := (RowBoundaries(rows[..|rows| - 1], id), rows[|rows| - 1]);
      if row.Genesis? && row.episode == id then []
      else if row.Boundary? then before + Repeated(row.boundary, Occurrences(row.episodes, id))
      else before
  }

  /** The same members and phases, and some more boundaries. */
  ghost predicate Continues(e: Episode, now: Episode, more: seq<string>) {
    now.members == e.members && now.phases == e.phases && now.boundaries == e.boundaries + more
  }

  lemma ContinuesJoin(e: Episode, mid: Episode, now: Episode, a: seq<string>, b: seq<string>)
    requires Continues(e, mid, a) && Continues(mid, now, b)
    ensures Continues(e, now, a + b)
  {
  }

  /** The projection as a function, of which only its steps matter here. */
  ghost function Projector(): seq<Event> -> Episode { events => Project(events) }

  ghost predicate Steps(p: seq<Event> -> Episode) {
    forall events, event :: p(events + [event]) == Advance(p(events), event)
  }

  lemma ProjectorSteps()
    ensures Steps(Projector())
  {
    forall events, event ensures Projector()(events + [event]) == Advance(Projector()(events), event) {
      ProjectAppend(events, event);
    }
  }

  lemma {:induction false} StepCrossings(
    p: seq<Event> -> Episode, events: seq<Event>, ids: seq<string>, id: string, boundary: string, action: string)
    requires Steps(p)
    ensures Continues(p(events), p(events + Crossings(ids, id, Crossed(boundary, action))),
                      Repeated(boundary, Occurrences(ids, id)))
  {
    if ids == [] {
      assert events + [] == events;
    } else {
      var (front, last) := (ids[..|ids| - 1], ids[|ids| - 1]);
      StepCrossings(p, events, front, id, boundary, action);
      var before := events + Crossings(front, id, Crossed(boundary, action));
      if last == id {
        assert events + Crossings(ids, id, Crossed(boundary, action)) == before + [Crossed(boundary, action)];
        ContinuesJoin(p(events), p(before), p(before + [Crossed(boundary, action)]),
                      Repeated(boundary, Occurrences(front, id)), [boundary]);
      } else {
        assert events + Crossings(ids, id, Crossed(boundary, action)) == before;
      }
    }
  }

  /** The lists of the episode are what its own rows say. */
  ghost predicate ReadOff(e: Episode, rows: seq<Row>, id: string) {
    e.members == RowFrames(rows, id) && e.phases == RowSegments(rows, id) && e.boundaries == RowBoundaries(rows, id)
  }

  lemma ReadOffBoundary(e: Episode, now: Episode, rows: seq<Row>, row: Row, id: string)
    requires ReadOff(e, rows, id) && row.Boundary? && Continues(e, now, Repeated(row.boundary, Occurrences(row.episodes, id)))
    ensures ReadOff(now, rows + [row], id)
  {
    assert (rows + [row])[..|rows|] == rows;
  }

  lemma ReadOffSingle(e: Episode, rows: seq<Row>, row: Row, id: string)
    requires ReadOff(e, rows, id) && !row.Boundary? && row != Other
    ensures ReadOff(if id == SingleEvent(row).1 then Advance(e, SingleEvent(row).0) else e, rows + [row], id)
  {
    assert (rows + [row])[..|rows|] == rows;
  }

  lemma ReadOffRow(p: seq<Event> -> Episode, events: seq<Event>, rows: seq<Row>, row: Row, id: string)
    requires Steps(p) && ReadOff(p(events), rows, id)
    ensures ReadOff(p(events + EventsOf(row, id)), rows + [row], id)
  {
    assert events + [] == events && (rows + [row])[..|rows|] == rows;
    if row.Boundary? {
      StepCrossings(p, events, row.episodes, id, row.boundary, row.action);
      ReadOffBoundary(p(events), p(events + EventsOf(row, id)), rows, row, id);
    } else if row != Other {
      SingleEventOf(row, id);
      ReadOffSingle(p(events), rows, row, id);
    }
  }

  lemma {:induction false} ReadOffRows(p: seq<Event> -> Episode, rows: seq<Row>, id: string)
    requires Steps(p) && ReadOff(p([]), [], id)
    ensures ReadOff(p(Events(rows, id)), rows, id)
  {
    if rows != [] {
      var (front, row) := (rows[..|rows| - 1], rows[|rows| - 1]);
      ReadOffRows(p, front, id);
      ReadOffRow(p, Events(front, id), front, row, id);
      assert rows == front + [row];
    }
  }

  /** The projection of an episode is what its own rows say. */
  lemma ProjectionOnRows(rows: seq<Row>, id: string)
    ensures ReadOff(Project(Events(rows, id)), rows, id)
  {
    ProjectorSteps();
    assert Projector()([]) == Project([]);
    ReadOffRows(Projector(), rows, id);
  }
}

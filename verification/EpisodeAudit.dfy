/** The restart checks around the restore fold: the partition cut, the closed-
    partition conditions, and the comparison with the persisted snapshots. */
module EpisodeAudit {
  import opened Common
  import opened Sorting
  import opened EpisodeRestore

  // ----- sides -----

  type Sides = map<string, string>

  /** Side of the latest genesis of every episode. */
  function SidesOf(rows: seq<Row>): Sides {
    if rows == [] then map[]
    else
      var before := SidesOf(rows[..|rows| - 1]);
      match rows[|rows| - 1]
      case Genesis(id, side) => before[id := side]
      case _ => before
  }

  function BirthSide(events: seq<Event>): Option<string> {
    if events == [] then None
    else
      match events[|events| - 1]
      case Born(side) => Some(side)
      case _ => BirthSide(events[..|events| - 1])
  }

  lemma BirthSideAppend(events: seq<Event>, event: Event)
    ensures BirthSide(events + [event]) == if event.Born? then Some(event.side) else BirthSide(events)
  {
  }

  lemma {:induction false} BirthSideOfCrossings(events: seq<Event>, ids: seq<string>, id: string, event: Event)
    requires event.Crossed?
    ensures BirthSide(events + Crossings(ids, id, event)) == BirthSide(events)
  {
    if ids == [] {
      assert events + [] == events;
    } else {
      var n := |ids| - 1;
      BirthSideOfCrossings(events, ids[..n], id, event);
      var before := Crossings(ids[..n], id, event);
      if ids[n] == id {
        BirthSideAppend(events + before, event);
        assert events + (before + [event]) == events + before + [event];
      } else {
        assert before + [] == before;
      }
    }
  }

  lemma RowBirthSide(before: seq<Event>, row: Row, id: string)
    ensures BirthSide(before + EventsOf(row, id))
            == if row.Genesis? && row.episode == id then Some(row.side) else BirthSide(before)
  {
    assert before + [] == before;
    if row.Boundary? {
      BirthSideOfCrossings(before, row.episodes, id, Crossed(row.boundary, row.action));
    } else if row != Other {
      SingleEventOf(row, id);
      BirthSideAppend(before, SingleEvent(row).0);
    }
  }

  lemma {:induction false} SidesAreBirthSides(rows: seq<Row>, id: string)
    ensures BirthSide(Events(rows, id)) == if id in SidesOf(rows) then Some(SidesOf(rows)[id]) else None
  {
    if rows != [] {
      var n := |rows| - 1;
      SidesAreBirthSides(rows[..n], id);
      RowBirthSide(Events(rows[..n], id), rows[n], id);
    }
  }

  ghost predicate OnlyAsk(sides: Sides) {
    sides != map[] && forall id :: id in sides ==> sides[id] == "ASK"
  }

  // ----- restoring a closed partition -----

  ghost predicate AllCensored(engine: Engine) {
    forall id :: id in engine ==> engine[id].status == "CENSORED"
  }

  /** `active` holds the active episodes by side that a new engine starts with; its class
      is not part of this model, and the restore never touches them. */
  ghost function Restored(active: Sides, rows: seq<Row>): Result<Engine> {
    match Fold(map[], rows)
    case Err(e) => Err(e)
    case Ok(m) =>
      if !OnlyAsk(SidesOf(rows)) then Err("RESTORE_PARTITION_SIDE_MISMATCH")
      else if active != map[] then Err("RESTORE_PARTITION_MUST_HAVE_NO_ACTIVE_SIDE")
      else if !AllCensored(m) then Err("RESTORE_PARTITION_HAS_NONCENSORED_EPISODE")
      else Ok(m)
  }

  lemma {:induction false} FoldErrorPersists(rows: seq<Row>, i: nat)
    requires i <= |rows| && Fold(map[], rows[..i]).Err?
    ensures Fold(map[], rows) == Fold(map[], rows[..i])
  {
    if i == |rows| {
      assert rows[..i] == rows;
    } else {
      var shorter := rows[..|rows| - 1];
      assert shorter[..i] == rows[..i];
      FoldErrorPersists(shorter, i);
    }
  }

  lemma {:induction false} CrossErrorPersists(engine: Engine, boundary: string, action: string, ids: seq<string>, i: nat)
    requires i <= |ids| && CrossAll(engine, boundary, action, ids[..i]).Err?
    ensures CrossAll(engine, boundary, action, ids) == CrossAll(engine, boundary, action, ids[..i])
  {
    if i == |ids| {
      assert ids[..i] == ids;
    } else {
      var shorter := ids[..|ids| - 1];
      assert shorter[..i] == ids[..i];
      CrossErrorPersists(engine, boundary, action, shorter, i);
    }
  }

  /** The episode list of a boundary row, in order. */
  method CrossEpisodes(engine: Engine, boundary: string, action: string, ids: seq<string>) returns (r: Result<Engine>)
    ensures r == CrossAll(engine, boundary, action, ids)
  {
    var m := engine;
    for i := 0 to |ids|
      invariant CrossAll(engine, boundary, action, ids[..i]) == Ok(m)
    {
      assert ids[..i + 1][..i] == ids[..i];
      if ids[i] !in m {
        CrossErrorPersists(engine, boundary, action, ids, i + 1);
        return Err("RESTORE_EVENT_EPISODE_MISSING");
      }
      m := m[ids[i] := Cross(m[ids[i]], boundary, action)];
    }
    assert ids[..|ids|] == ids;
    return Ok(m);
  }

  /** One turn of the restore loop. */
  method AbsorbRow(engine: Engine, row: Row) returns (r: Result<Engine>)
    ensures r == Absorb(engine, row)
  {
    match row
    case Boundary(boundary, action, ids) => r := CrossEpisodes(engine, boundary, action, ids);
    case _ => r := Absorb(engine, row);
  }

  method HasOnly(m: map<string, string>, value: string) returns (ok: bool)
    ensures ok <==> forall id :: id in m ==> m[id] == value
  {
    var rest := m.Keys;
    while rest != {}
      invariant rest <= m.Keys && forall id :: id in m && id !in rest ==> m[id] == value
      decreases |rest|
    {
      var id :| id in rest;
      if m[id] != value {
        return false;
      }
      rest := rest - {id};
    }
    return true;
  }

  method RestoreClosedPartition(active: Sides, rows: seq<Row>) returns (r: Result<Engine>)
    ensures r == Restored(active, rows)
  {
    var engine: Engine := map[];
    var sides: Sides := map[];
    for i := 0 to |rows|
      invariant Fold(map[], rows[..i]) == Ok(engine) && sides == SidesOf(rows[..i])
    {
      assert rows[..i + 1][..i] == rows[..i];
      var next := AbsorbRow(engine, rows[i]);
      if next.Err? {
        FoldErrorPersists(rows, i + 1);
        return Err(next.error);
      }
      engine := next.value;
      if rows[i].Genesis? {
        sides := sides[rows[i].episode := rows[i].side];
      }
    }
    assert rows[..|rows|] == rows;
    var asks := HasOnly(sides, "ASK");
    if sides == map[] || !asks {
      return Err("RESTORE_PARTITION_SIDE_MISMATCH");
    }
    if active != map[] {
      return Err("RESTORE_PARTITION_MUST_HAVE_NO_ACTIVE_SIDE");
    }
    var statuses := map id | id in engine :: engine[id].status;
    var censored := HasOnly(statuses, "CENSORED");
    assert forall id :: id in engine ==> id in statuses && statuses[id] == engine[id].status;
    if !censored {
      assert !AllCensored(engine);
      return Err("RESTORE_PARTITION_HAS_NONCENSORED_EPISODE");
    }
    return Ok(engine);
  }

  ghost predicate Mentioned(rows: seq<Row>, id: string) { Events(rows, id) != [] }

  /** The last status-changing crossing of the episode censors it. */
  ghost predicate EndsCensored(rows: seq<Row>, id: string) {
    LastChangeIn(SinceBirth(Events(rows, id)), {"CENSOR_GAP", "CENSOR_RELEASE_END"})
  }

  ghost predicate BornAsk(rows: seq<Row>, id: string) { BirthSide(Events(rows, id)) == Some("ASK") }

  ghost predicate AskPartition(rows: seq<Row>) {
    (exists id :: Mentioned(rows, id)) && forall id :: Mentioned(rows, id) ==> BornAsk(rows, id)
  }

  /** What acceptance of a prefix means, stated on the stream alone: every episode
      is orderly, at least one was born, and every one of them was last born on the
      ASK side and ends up censored. */
  ghost predicate ClosedAskPartition(rows: seq<Row>) {
    AllOrderly(rows) && AskPartition(rows) && forall id :: Mentioned(rows, id) ==> EndsCensored(rows, id)
  }

  lemma {:induction false} OrderlyHasBirth(events: seq<Event>)
    requires Orderly(events) && events != []
    ensures BirthSide(events).Some?
  {
    var n := |events| - 1;
    if n > 0 {
      assert events[..n][0] == events[0];
      OrderlyHasBirth(events[..n]);
    }
  }

  lemma BornIffSided(rows: seq<Row>, id: string)
    requires AllOrderly(rows)
    ensures id in SidesOf(rows) <==> Mentioned(rows, id)
    ensures id in SidesOf(rows) ==> (SidesOf(rows)[id] == "ASK" <==> BornAsk(rows, id))
  {
    SidesAreBirthSides(rows, id);
    if Events(rows, id) != [] {
      assert Orderly(Events(rows, id));
      OrderlyHasBirth(Events(rows, id));
    }
  }

  lemma CensoredIffEnds(rows: seq<Row>, m: Engine)
    requires AllMirrored(m, rows)
    ensures AllCensored(m) <==> forall id :: Mentioned(rows, id) ==> EndsCensored(rows, id)
  {
    forall id ensures (id in m <==> Mentioned(rows, id)) && (id in m ==> (m[id].status == "CENSORED" <==> EndsCensored(rows, id))) {
      assert Mirrors(m, Events(rows, id), id);
      StatusMeans(SinceBirth(Events(rows, id)));
    }
  }

  /** The restore accepts exactly the closed ASK partitions, on an engine without active
      sides, and returns the projection of every episode. */
  lemma RestoredIffClosed(active: Sides, rows: seq<Row>)
    ensures Restored(active, rows).Ok? <==> ClosedAskPartition(rows) && active == map[]
    ensures Restored(active, rows).Ok? ==> AllMirrored(Restored(active, rows).value, rows)
  {
    FoldProjects(rows);
    if AllOrderly(rows) {
      forall id ensures (id in SidesOf(rows) <==> Mentioned(rows, id)) &&
                        (id in SidesOf(rows) ==> (SidesOf(rows)[id] == "ASK" <==> BornAsk(rows, id)))
      {
        BornIffSided(rows, id);
      }
      CensoredIffEnds(rows, Fold(map[], rows).value);
    }
  }

  lemma {:induction false} SidedIffGenesis(rows: seq<Row>, id: string)
    ensures id in SidesOf(rows) <==> exists i :: 0 <= i < |rows| && rows[i].Genesis? && rows[i].episode == id
  {
    if rows != [] {
      var n := |rows| - 1;
      SidedIffGenesis(rows[..n], id);
      assert forall i :: 0 <= i < n ==> rows[..n][i] == rows[i];
    }
  }

  /** What an accepted restore holds for every episode, read off the rows: its ADD frames,
      phase segments and boundary mentions since the last genesis, in order, and the
      status CENSORED. */
  lemma RestoredEpisode(active: Sides, rows: seq<Row>, id: string)
    requires Restored(active, rows).Ok?
    ensures id in Restored(active, rows).value <==> exists i :: 0 <= i < |rows| && rows[i].Genesis? && rows[i].episode == id
    ensures id in Restored(active, rows).value ==>
      Restored(active, rows).value[id] ==
      Episode("CENSORED", RowFrames(rows, id), RowSegments(rows, id), RowBoundaries(rows, id))
  {
    RestoredIffClosed(active, rows);
    assert Mirrors(Restored(active, rows).value, Events(rows, id), id);
    ProjectionOnRows(rows, id);
    BornIffSided(rows, id);
    SidedIffGenesis(rows, id);
  }

  // ----- the partition cut -----

  predicate BidGenesis(row: Row) { row.Genesis? && row.side == "BID" }

  /** The row ends the release for an episode of the ASK side. */
  predicate EndsAsk(row: Row, sides: Sides) {
    row.Boundary? && row.action == "CENSOR_RELEASE_END" &&
    exists i :: 0 <= i < |row.episodes| && row.episodes[i] in sides && sides[row.episodes[i]] == "ASK"
  }

  /** Row n is the first genesis on the BID side, everything born before is ASK, and
      the end of the ASK release was recorded. */
  ghost predicate IsCut(rows: seq<Row>, n: nat) {
    && 0 < n < |rows| && rows[n].Genesis? && rows[n].side == "BID"
    && (forall i :: 0 <= i < n && rows[i].Genesis? ==> rows[i].side != "BID")
    && SidesOf(rows[..n]) != map[] && (forall id :: id in SidesOf(rows[..n]) ==> SidesOf(rows[..n])[id] == "ASK")
    && (exists i, j ::
          && 0 <= i < n && rows[i].Boundary? && rows[i].action == "CENSOR_RELEASE_END"
          && 0 <= j < |rows[i].episodes| && rows[i].episodes[j] in SidesOf(rows[..n]))
  }

  /** The boundary search finds the one natural cut, or there is none. */
  method PartitionBoundary(rows: seq<Row>) returns (cut: Option<nat>)
    ensures cut.Some? ==> IsCut(rows, cut.value)
    ensures cut.None? ==> forall n :: !IsCut(rows, n)
  {
    var n := 0;
    while n < |rows| && !BidGenesis(rows[n])
      invariant n <= |rows| && forall i :: 0 <= i < n ==> !BidGenesis(rows[i])
    {
      n := n + 1;
    }
    if n == |rows| || n == 0 {
      return None;
    }
    var sides := SidesOf(rows[..n]);
    var asks := HasOnly(sides, "ASK");
    if sides == map[] || !asks {
      return None;
    }
    for i := 0 to n
      invariant forall j :: 0 <= j < i ==> !EndsAsk(rows[j], sides)
    {
      if EndsAsk(rows[i], sides) {
        return Some(n);
      }
    }
    return None;
  }

  lemma CutIsUnique(rows: seq<Row>, a: nat, b: nat)
    requires IsCut(rows, a) && IsCut(rows, b)
    ensures a == b
  {
  }

  // ----- comparison with the snapshots -----

  /** The last snapshot of an episode in the stream. */
  function LastSnapshot(rows: seq<Row>, id: string): Option<Episode> {
    if rows == [] then None
    else
      match rows[|rows| - 1]
      case Snapshot(e, final) => if e == id then Some(final) else LastSnapshot(rows[..|rows| - 1], id)
      case _ => LastSnapshot(rows[..|rows| - 1], id)
  }

  /** Equal status, and equal member, phase and boundary lists once sorted. */
  predicate Agrees(a: Episode, b: Episode) {
    && a.status == b.status
    && SortBy(a.members, LexLe) == SortBy(b.members, LexLe)
    && SortBy(a.phases, LexLe) == SortBy(b.phases, LexLe)
    && SortBy(a.boundaries, LexLe) == SortBy(b.boundaries, LexLe)
  }

  ghost predicate MatchesSnapshot(events: seq<Event>, snapshot: Option<Episode>) {
    && snapshot.Some?
    && var s := SinceBirth(events);
    && snapshot.value.status == FinalStatus(s)
    && multiset(snapshot.value.members) == multiset(Frames(s))
    && multiset(snapshot.value.phases) == multiset(Segments(s))
    && multiset(snapshot.value.boundaries) == multiset(Boundaries(s))
  }

  lemma AgreesIffMatches(events: seq<Event>, snapshot: Episode)
    ensures Agrees(Project(events), snapshot) <==> MatchesSnapshot(events, Some(snapshot))
  {
    var s := SinceBirth(events);
    SortedEqualIffPermuted(Frames(s), snapshot.members);
    SortedEqualIffPermuted(Segments(s), snapshot.phases);
    SortedEqualIffPermuted(Boundaries(s), snapshot.boundaries);
  }

  /** The whole baseline check, on the stream alone. */
  ghost predicate BaselineHolds(rows: seq<Row>, n: nat) {
    && IsCut(rows, n) && ClosedAskPartition(rows[..n])
    && forall id :: Mentioned(rows[..n], id) ==> MatchesSnapshot(Events(rows[..n], id), LastSnapshot(rows, id))
  }

  method CollectSnapshots(rows: seq<Row>, engine: Engine) returns (snaps: Engine)
    ensures forall id :: id in snaps <==> id in engine && LastSnapshot(rows, id).Some?
    ensures forall id :: id in snaps ==> LastSnapshot(rows, id) == Some(snaps[id])
  {
    snaps := map[];
    for i := 0 to |rows|
      invariant forall id :: id in snaps <==> id in engine && LastSnapshot(rows[..i], id).Some?
      invariant forall id :: id in snaps ==> LastSnapshot(rows[..i], id) == Some(snaps[id])
    {
      assert rows[..i + 1][..i] == rows[..i];
      if rows[i].Snapshot? && rows[i].episode in engine {
        snaps := snaps[rows[i].episode := rows[i].final];
      }
    }
    assert rows[..|rows|] == rows;
  }

  lemma SubsetOfSameSize(a: set<string>, b: set<string>)
    requires a <= b
    ensures |a| == |b| <==> a == b
  {
    if a != b {
      assert |b| == |a| + |b - a|;
    }
  }

  /** All restored episodes agree with their collected snapshots. */
  method CompareAll(engine: Engine, snaps: Engine) returns (ok: bool)
    requires snaps.Keys <= engine.Keys
    ensures ok <==> forall id :: id in engine ==> id in snaps && Agrees(engine[id], snaps[id])
  {
    SubsetOfSameSize(snaps.Keys, engine.Keys);
    if |snaps| != |engine| {
      assert |snaps.Keys| == |snaps| && |engine.Keys| == |engine|;
      return false;
    }
    assert |snaps.Keys| == |snaps| && |engine.Keys| == |engine|;
    var rest := engine.Keys;
    while rest != {}
      invariant rest <= engine.Keys
      invariant forall id :: id in engine && id !in rest ==> Agrees(engine[id], snaps[id])
      decreases |rest|
    {
      var id :| id in rest;
      if !Agrees(engine[id], snaps[id]) {
        return false;
      }
      rest := rest - {id};
    }
    return true;
  }

  lemma ComparisonIsBaseline(rows: seq<Row>, n: nat, engine: Engine, snaps: Engine)
    requires IsCut(rows, n) && ClosedAskPartition(rows[..n]) && AllMirrored(engine, rows[..n])
    requires forall id :: id in snaps <==> id in engine && LastSnapshot(rows, id).Some?
    requires forall id :: id in snaps ==> LastSnapshot(rows, id) == Some(snaps[id])
    ensures (forall id :: id in engine ==> id in snaps && Agrees(engine[id], snaps[id])) <==> BaselineHolds(rows, n)
  {
    forall id ensures Mentioned(rows[..n], id) <==> id in engine {
      assert Mirrors(engine, Events(rows[..n], id), id);
    }
    forall id | id in engine
      ensures (id in snaps && Agrees(engine[id], snaps[id])) <==> MatchesSnapshot(Events(rows[..n], id), LastSnapshot(rows, id))
    {
      assert Mirrors(engine, Events(rows[..n], id), id);
      if id in snaps {
        AgreesIffMatches(Events(rows[..n], id), snaps[id]);
      }
    }
  }

  /** The read-only baseline check passes exactly when the stream has its natural
      cut, the prefix is a closed ASK partition, and the last snapshot of each of
      its episodes has the projected status and the same identifiers; a new engine must
      start without active sides. */
  method ValidateRestored(active: Sides, rows: seq<Row>) returns (ok: bool)
    ensures ok <==> active == map[] && exists n :: BaselineHolds(rows, n)
  {
    var cut := PartitionBoundary(rows);
    if cut.None? {
      return false;
    }
    ghost var n := cut.value;
    var prefix := rows[..cut.value];
    RestoredIffClosed(active, prefix);
    var restored := RestoreClosedPartition(active, prefix);
    if restored.Err? {
      return false;
    }
    var engine := restored.value;
    var snaps := CollectSnapshots(rows, engine);
    ok := CompareAll(engine, snaps);
    ComparisonIsBaseline(rows, n, engine, snaps);
  }
}

/** Acceptance of a partition stated on its rows alone: which row founds which, which side
    an episode was last born on, and which boundary last changed its status. */
module EpisodeRows {
  import opened Common
  import opened EpisodeRestore
  import opened EpisodeAudit

  // ----- founded streams -----

  ghost predicate GenesisAt(rows: seq<Row>, i: nat, id: string)
    requires i < |rows|
  {
    rows[i].Genesis? && rows[i].episode == id
  }

  ghost predicate HasGenesis(rows: seq<Row>, id: string) {
    exists i :: 0 <= i < |rows| && GenesisAt(rows, i, id)
  }

  /** The row adds to an episode that must be there already. */
  ghost predicate Needs(row: Row, id: string) {
    || ((row.Membership? || row.Phase?) && row.episode == id)
    || (row.Boundary? && id in row.episodes)
  }

  /** No snapshot yet, and every episode a row adds to has a genesis before it. */
  ghost predicate Founded(rows: seq<Row>) {
    && (forall i :: 0 <= i < |rows| ==> !rows[i].Snapshot?)
    && forall i, id :: 0 <= i < |rows| && Needs(rows[i], id) ==> HasGenesis(rows[..i], id)
  }

  lemma HasGenesisAppend(rows: seq<Row>, row: Row, id: string)
    ensures HasGenesis(rows + [row], id) <==> HasGenesis(rows, id) || (row.Genesis? && row.episode == id)
  {
    var all := rows + [row];
    if i :| 0 <= i < |rows| && GenesisAt(rows, i, id) {
      assert GenesisAt(all, i, id);
    }
    if row.Genesis? && row.episode == id {
      assert GenesisAt(all, |rows|, id);
    }
    if i :| 0 <= i < |all| && GenesisAt(all, i, id) {
      assert i < |rows| ==> GenesisAt(rows, i, id);
    }
  }

  lemma FoundedAppend(rows: seq<Row>, row: Row)
    ensures Founded(rows + [row]) <==>
      Founded(rows) && !row.Snapshot? && forall id :: Needs(row, id) ==> HasGenesis(rows, id)
  {
    var all := rows + [row];
    assert all[|rows|] == row && all[..|rows|] == rows;
    assert forall i :: 0 <= i < |rows| ==> all[i] == rows[i] && all[..i] == rows[..i];
    if Founded(all) {
      forall i, id | 0 <= i < |rows| && Needs(rows[i], id) ensures HasGenesis(rows[..i], id) {
        assert Needs(all[i], id);
      }
      forall id | Needs(row, id) ensures HasGenesis(rows, id) {
        assert Needs(all[|rows|], id);
      }
      assert forall i :: 0 <= i < |rows| ==> !all[i].Snapshot?;
    }
  }

  lemma {:induction false} CrossAllIff(engine: Engine, boundary: string, action: string, ids: seq<string>)
    ensures CrossAll(engine, boundary, action, ids).Ok? <==> forall id :: id in ids ==> id in engine
  {
    if ids != [] {
      var n := |ids| - 1;
      CrossAllIff(engine, boundary, action, ids[..n]);
      assert ids == ids[..n] + [ids[n]];
      if CrossAll(engine, boundary, action, ids[..n]).Ok? {
        SameEpisodes(engine, boundary, action, ids[..n]);
      }
    }
  }

  ghost predicate Populated(engine: Engine, rows: seq<Row>) {
    forall id :: id in engine <==> HasGenesis(rows, id)
  }

  lemma AbsorbOnRows(engine: Engine, rows: seq<Row>, row: Row)
    requires Populated(engine, rows)
    ensures Absorb(engine, row).Ok? <==> !row.Snapshot? && forall id :: Needs(row, id) ==> HasGenesis(rows, id)
    ensures Absorb(engine, row).Ok? ==> Populated(Absorb(engine, row).value, rows + [row])
  {
    if row.Boundary? {
      CrossAllIff(engine, row.boundary, row.action, row.episodes);
      if Absorb(engine, row).Ok? {
        SameEpisodes(engine, row.boundary, row.action, row.episodes);
      }
    } else if row.Membership? || row.Phase? {
      assert Needs(row, row.episode);
    }
    forall id ensures HasGenesis(rows + [row], id) <==> HasGenesis(rows, id) || (row.Genesis? && row.episode == id) {
      HasGenesisAppend(rows, row, id);
    }
  }

  lemma {:induction false} FoldOnRows(rows: seq<Row>)
    ensures Fold(map[], rows).Ok? <==> Founded(rows)
    ensures Fold(map[], rows).Ok? ==> Populated(Fold(map[], rows).value, rows)
  {
    if rows != [] {
      var n := |rows| - 1;
      FoldOnRows(rows[..n]);
      assert rows == rows[..n] + [rows[n]];
      FoundedAppend(rows[..n], rows[n]);
      if Fold(map[], rows[..n]).Ok? {
        AbsorbOnRows(Fold(map[], rows[..n]).value, rows[..n], rows[n]);
      }
    }
  }

  // ----- the last word on an episode -----

  /** Row i names the episode in a boundary that changes its status. */
  ghost predicate ChangeAt(rows: seq<Row>, i: nat, id: string)
    requires i < |rows|
  {
    && rows[i].Boundary? && id in rows[i].episodes
    && rows[i].action in {"CENSOR_GAP", "CENSOR_RELEASE_END", "TERMINATE", "TERMINATE_CONFLICT"}
  }

  /** Such a row has one of these actions, and after it the episode is neither changed nor
      born again. */
  ghost predicate EndsIn(rows: seq<Row>, id: string, actions: set<string>) {
    exists i :: 0 <= i < |rows| && ChangeAt(rows, i, id) && rows[i].action in actions &&
      forall j :: i < j < |rows| ==> !ChangeAt(rows, j, id) && !GenesisAt(rows, j, id)
  }

  /** The last genesis of the episode is on this side. */
  ghost predicate LastBornOn(rows: seq<Row>, id: string, side: string) {
    exists i :: 0 <= i < |rows| && GenesisAt(rows, i, id) && rows[i].side == side &&
      forall j :: i < j < |rows| ==> !GenesisAt(rows, j, id)
  }

  lemma EndsInAppend(rows: seq<Row>, row: Row, id: string, actions: set<string>)
    ensures EndsIn(rows + [row], id, actions) <==>
      if ChangeAt([row], 0, id) then row.action in actions
      else !GenesisAt([row], 0, id) && EndsIn(rows, id, actions)
  {
    var (all, n) := (rows + [row], |rows|);
    assert all[n] == row;
    forall i | 0 <= i < n ensures ChangeAt(all, i, id) == ChangeAt(rows, i, id) && GenesisAt(all, i, id) == GenesisAt(rows, i, id) {
      assert all[i] == rows[i];
    }
    if EndsIn(all, id, actions) {
      var i :| 0 <= i < |all| && ChangeAt(all, i, id) && all[i].action in actions &&
        forall j :: i < j < |all| ==> !ChangeAt(all, j, id) && !GenesisAt(all, j, id);
      if i < n {
        assert !ChangeAt(all, n, id) && !GenesisAt(all, n, id);
        assert ChangeAt(rows, i, id);
      }
    }
    if ChangeAt([row], 0, id) {
      assert ChangeAt(all, n, id);
    } else if !GenesisAt([row], 0, id) && EndsIn(rows, id, actions) {
      var i :| 0 <= i < n && ChangeAt(rows, i, id) && rows[i].action in actions &&
        forall j :: i < j < n ==> !ChangeAt(rows, j, id) && !GenesisAt(rows, j, id);
      assert ChangeAt(all, i, id) && all[i].action in actions;
    }
  }

  lemma LastBornAppend(rows: seq<Row>, row: Row, id: string, side: string)
    ensures LastBornOn(rows + [row], id, side) <==>
      if GenesisAt([row], 0, id) then row.side == side else LastBornOn(rows, id, side)
  {
    var (all, n) := (rows + [row], |rows|);
    assert all[n] == row;
    forall i | 0 <= i < n ensures GenesisAt(all, i, id) == GenesisAt(rows, i, id) {
      assert all[i] == rows[i];
    }
    if LastBornOn(all, id, side) {
      var i :| 0 <= i < |all| && GenesisAt(all, i, id) && all[i].side == side && forall j :: i < j < |all| ==> !GenesisAt(all, j, id);
      if i < n {
        assert !GenesisAt(all, n, id) && GenesisAt(rows, i, id);
      }
    }
    if GenesisAt([row], 0, id) {
      assert GenesisAt(all, n, id);
    } else if LastBornOn(rows, id, side) {
      var i :| 0 <= i < n && GenesisAt(rows, i, id) && rows[i].side == side && forall j :: i < j < n ==> !GenesisAt(rows, j, id);
      assert GenesisAt(all, i, id);
    }
  }

  lemma {:induction false} SideOnRows(rows: seq<Row>, id: string, side: string)
    ensures id in SidesOf(rows) && SidesOf(rows)[id] == side <==> LastBornOn(rows, id, side)
  {
    if rows != [] {
      var n := |rows| - 1;
      SideOnRows(rows[..n], id, side);
      assert rows == rows[..n] + [rows[n]];
      LastBornAppend(rows[..n], rows[n], id, side);
    }
  }

  // ----- the status -----

  /** Every status is what the last word on the episode says. */
  ghost predicate StatusIs(status: string, rows: seq<Row>, id: string) {
    && (status == "CENSORED" <==> EndsIn(rows, id, {"CENSOR_GAP", "CENSOR_RELEASE_END"}))
    && (status == "TERMINATED" <==> EndsIn(rows, id, {"TERMINATE"}))
    && (status == "CONFLICTED" <==> EndsIn(rows, id, {"TERMINATE_CONFLICT"}))
  }

  lemma {:induction false} CrossedStatus(engine: Engine, boundary: string, action: string, ids: seq<string>, id: string)
    requires CrossAll(engine, boundary, action, ids).Ok? && id in engine
    ensures var m := CrossAll(engine, boundary, action, ids).value;
      id in m && m[id].status == if id in ids then StatusAfter(action, engine[id].status) else engine[id].status
  {
    if ids != [] {
      var n := |ids| - 1;
      CrossedStatus(engine, boundary, action, ids[..n], id);
      assert ids == ids[..n] + [ids[n]];
    }
  }

  lemma StatusStep(engine: Engine, rows: seq<Row>, row: Row, id: string)
    requires Absorb(engine, row).Ok? && id in Absorb(engine, row).value
    requires id in engine ==> StatusIs(engine[id].status, rows, id)
    ensures StatusIs(Absorb(engine, row).value[id].status, rows + [row], id)
  {
    EndsInAppend(rows, row, id, {"CENSOR_GAP", "CENSOR_RELEASE_END"});
    EndsInAppend(rows, row, id, {"TERMINATE"});
    EndsInAppend(rows, row, id, {"TERMINATE_CONFLICT"});
    if row.Boundary? {
      SameEpisodes(engine, row.boundary, row.action, row.episodes);
      CrossedStatus(engine, row.boundary, row.action, row.episodes, id);
    }
  }

  /** The status the restore gives an episode, read off the rows. */
  lemma {:induction false} StatusOnRows(rows: seq<Row>, id: string)
    requires Fold(map[], rows).Ok? && id in Fold(map[], rows).value
    ensures StatusIs(Fold(map[], rows).value[id].status, rows, id)
  {
    if rows != [] {
      var n := |rows| - 1;
      var before := Fold(map[], rows[..n]).value;
      if id in before {
        StatusOnRows(rows[..n], id);
      }
      StatusStep(before, rows[..n], rows[n], id);
      assert rows == rows[..n] + [rows[n]];
    }
  }

  // ----- acceptance -----

  lemma SidedIffBorn(rows: seq<Row>, id: string)
    ensures id in SidesOf(rows) <==> HasGenesis(rows, id)
    ensures id in SidesOf(rows) ==> (SidesOf(rows)[id] == "ASK" <==> LastBornOn(rows, id, "ASK"))
  {
    SidedIffGenesis(rows, id);
    SideOnRows(rows, id, "ASK");
    if i :| 0 <= i < |rows| && rows[i].Genesis? && rows[i].episode == id {
      assert GenesisAt(rows, i, id);
    }
  }

  /** A partition is accepted if and only if the engine has no active side, the stream is
      founded, and there are episodes, each last born ASK and censored by the last boundary
      that changed its status. */
  lemma RestoredOnRows(active: Sides, rows: seq<Row>)
    ensures Restored(active, rows).Ok? <==>
      && active == map[] && Founded(rows)
      && (exists id :: HasGenesis(rows, id))
      && forall id :: HasGenesis(rows, id) ==>
        LastBornOn(rows, id, "ASK") && EndsIn(rows, id, {"CENSOR_GAP", "CENSOR_RELEASE_END"})
  {
    FoldOnRows(rows);
    forall id ensures (id in SidesOf(rows) <==> HasGenesis(rows, id)) &&
                      (id in SidesOf(rows) ==> (SidesOf(rows)[id] == "ASK" <==> LastBornOn(rows, id, "ASK")))
    {
      SidedIffBorn(rows, id);
    }
    if Founded(rows) {
      var m := Fold(map[], rows).value;
      forall id | id in m ensures m[id].status == "CENSORED" <==> EndsIn(rows, id, {"CENSOR_GAP", "CENSOR_RELEASE_END"}) {
        StatusOnRows(rows, id);
      }
    }
  }
}

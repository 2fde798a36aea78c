/** The C2 identity replay: every state and transition row is re-bound to the
    corrected C1 parent release and gets a new content identity, with all semantic
    values preserved.  A stable id is a hash of the identity fields. */
module IdentityReplay {
  import opened Sorting

  // ----- rows -----

  datatype StateRow = StateRow(
    id: string, c1Release: string, c1Manifest: string, parentC1: string, parentBar: string, optARelease: string,
    optAManifest: string, firstValid: string, clock: string, side: string, scope: string, pack: string,
    axes: map<string, string>, role: string, levelIds: seq<string>, containerIds: seq<string>, relationSet: string,
    persistence: string, continuity: string)

  datatype StateIdentity = StateIdentity(
    c1Record: string, sourceBar: string, c1Release: string, optARelease: string, firstValid: string, clock: string,
    side: string, scope: string, pack: string, axes: map<string, string>)

  datatype TransitionRow = TransitionRow(
    id: string, fromState: string, toState: string, changedAxes: seq<string>, firstValid: string, status: string,
    role: string, clock: string, side: string, scope: string)

  datatype TransitionIdentity = TransitionIdentity(fromState: string, toState: string, changedAxes: seq<string>, firstValid: string)

  /** `stable_id` for the two kinds of row. */
  datatype Ids = Ids(state: StateIdentity -> string, transition: TransitionIdentity -> string)

  datatype Config = Config(
    role: string, v1Release: string, v1Manifest: string, v2Release: string, v2Manifest: string, optARelease: string,
    optAManifest: string, stateRecords: nat, transitionRecords: nat)

  function IdentityOf(row: StateRow, c1Release: string): StateIdentity {
    StateIdentity(row.parentC1, row.parentBar, c1Release, row.optARelease, row.firstValid, row.clock, row.side, row.scope,
                  row.pack, row.axes)
  }

  function TransitionIdentityOf(row: TransitionRow): TransitionIdentity {
    TransitionIdentity(row.fromState, row.toState, SortBy(row.changedAxes, LexLe), row.firstValid)
  }

  type Parents = map<string, string>

  type StateMap = map<string, string>

  // ----- states -----

  /** The row checks of `transform_states`, apart from duplicates. */
  predicate StateChecks(ids: Ids, cfg: Config, parents: Parents, row: StateRow) {
    && row.role == cfg.role
    && row.c1Release == cfg.v1Release && row.c1Manifest == cfg.v1Manifest
    && row.optARelease == cfg.optARelease && row.optAManifest == cfg.optAManifest
    && row.parentC1 in parents && parents[row.parentC1] == row.parentBar
    && row.id == ids.state(IdentityOf(row, cfg.v1Release))
  }

  function RewriteState(ids: Ids, cfg: Config, row: StateRow): StateRow {
    row.(c1Release := cfg.v2Release, c1Manifest := cfg.v2Manifest, id := ids.state(IdentityOf(row, cfg.v2Release)))
  }

  function RewriteStates(ids: Ids, cfg: Config, rows: seq<StateRow>): (out: seq<StateRow>)
    ensures |out| == |rows| && forall i :: 0 <= i < |rows| ==> out[i] == RewriteState(ids, cfg, rows[i])
  {
    seq(|rows|, i requires 0 <= i < |rows| => RewriteState(ids, cfg, rows[i]))
  }

  ghost predicate DistinctStates(rows: seq<StateRow>) {
    forall i, j :: 0 <= i < j < |rows| ==> rows[i].id != rows[j].id
  }

  ghost predicate StatesAdmissible(ids: Ids, cfg: Config, parents: Parents, rows: seq<StateRow>) {
    DistinctStates(rows) && forall i :: 0 <= i < |rows| ==> StateChecks(ids, cfg, parents, rows[i])
  }

  function IdsIn(rows: seq<StateRow>): set<string> { set i | 0 <= i < |rows| :: rows[i].id }

  /** The old-to-new identity map of some rows. */
  ghost predicate Maps(ids: Ids, cfg: Config, rows: seq<StateRow>, m: StateMap) {
    && m.Keys == IdsIn(rows)
    && forall i :: 0 <= i < |rows| ==> m[rows[i].id] == RewriteState(ids, cfg, rows[i]).id
  }

  function UnchangedStates(ids: Ids, cfg: Config, rows: seq<StateRow>): nat {
    if rows == [] then 0
    else
      var row := rows[|rows| - 1];
      UnchangedStates(ids, cfg, rows[..|rows| - 1]) + if RewriteState(ids, cfg, row).id == row.id then 1 else 0
  }

  /** What the loop over the rows of a file has established. */
  ghost predicate Transformed(ids: Ids, cfg: Config, parents: Parents, rows: seq<StateRow>, out: seq<StateRow>,
                              mapping: StateMap, same: nat)
  {
    && StatesAdmissible(ids, cfg, parents, rows)
    && out == RewriteStates(ids, cfg, rows)
    && Maps(ids, cfg, rows, mapping)
    && same == UnchangedStates(ids, cfg, rows)
  }

  lemma AdmissibleAppend(ids: Ids, cfg: Config, parents: Parents, rows: seq<StateRow>, row: StateRow, mapping: StateMap)
    requires StatesAdmissible(ids, cfg, parents, rows) && StateChecks(ids, cfg, parents, row)
    requires Maps(ids, cfg, rows, mapping) && row.id !in mapping
    ensures StatesAdmissible(ids, cfg, parents, rows + [row])
  {
  }

  lemma RewriteAppend(ids: Ids, cfg: Config, rows: seq<StateRow>, row: StateRow)
    ensures RewriteStates(ids, cfg, rows + [row]) == RewriteStates(ids, cfg, rows) + [RewriteState(ids, cfg, row)]
  {
  }

  lemma MapsAppend(ids: Ids, cfg: Config, rows: seq<StateRow>, row: StateRow, m: StateMap)
    requires Maps(ids, cfg, rows, m) && row.id !in m
    ensures Maps(ids, cfg, rows + [row], m[row.id := RewriteState(ids, cfg, row).id])
  {
    var all := rows + [row];
    assert forall i :: 0 <= i < |rows| ==> all[i] == rows[i] && rows[i].id in m;
    assert all[|rows|] == row;
  }

  lemma TransformedStep(ids: Ids, cfg: Config, parents: Parents, rows: seq<StateRow>, row: StateRow, out: seq<StateRow>,
                        mapping: StateMap, same: nat)
    requires Transformed(ids, cfg, parents, rows, out, mapping, same)
    requires StateChecks(ids, cfg, parents, row) && row.id !in mapping
    ensures var rebound := RewriteState(ids, cfg, row);
      Transformed(ids, cfg, parents, rows + [row], out + [rebound], mapping[row.id := rebound.id],
                  if rebound.id == row.id then same + 1 else same)
  {
    MapsAppend(ids, cfg, rows, row, mapping);
    AdmissibleAppend(ids, cfg, parents, rows, row, mapping);
    RewriteAppend(ids, cfg, rows, row);
    assert (rows + [row])[..|rows|] == rows;
  }

  method TransformStates(ids: Ids, cfg: Config, parents: Parents, rows: seq<StateRow>)
    returns (ok: bool, out: seq<StateRow>, mapping: StateMap, same: nat)
    ensures ok <==> StatesAdmissible(ids, cfg, parents, rows)
    ensures ok ==> Transformed(ids, cfg, parents, rows, out, mapping, same)
  {
    ok, out, mapping, same := true, [], map[], 0;
    for i := 0 to |rows|
      invariant ok && Transformed(ids, cfg, parents, rows[..i], out, mapping, same)
    {
      var row := rows[i];
      if !StateChecks(ids, cfg, parents, row) || row.id in mapping {
        ok := false;
        return;
      }
      TransformedStep(ids, cfg, parents, rows[..i], row, out, mapping, same);
      assert rows[..i + 1] == rows[..i] + [row];
      var rewritten := RewriteState(ids, cfg, row);
      if rewritten.id == row.id {
        same := same + 1;
      }
      mapping := mapping[row.id := rewritten.id];
      out := out + [rewritten];
    }
    assert rows[..|rows|] == rows;
  }

  // ----- transitions -----

  predicate TransitionChecks(ids: Ids, cfg: Config, m: StateMap, row: TransitionRow) {
    && row.role == cfg.role
    && row.id == ids.transition(TransitionIdentityOf(row))
    && row.fromState in m && row.toState in m
  }

  function RewriteTransition(ids: Ids, m: StateMap, row: TransitionRow): TransitionRow
    requires row.fromState in m && row.toState in m
  {
    var moved := row.(fromState := m[row.fromState], toState := m[row.toState]);
    moved.(id := ids.transition(TransitionIdentityOf(moved)))
  }

  ghost predicate TransitionsAdmissible(ids: Ids, cfg: Config, m: StateMap, rows: seq<TransitionRow>) {
    forall i :: 0 <= i < |rows| ==> TransitionChecks(ids, cfg, m, rows[i])
  }

  function RewriteTransitions(ids: Ids, m: StateMap, rows: seq<TransitionRow>): (out: seq<TransitionRow>)
    requires forall i :: 0 <= i < |rows| ==> rows[i].fromState in m && rows[i].toState in m
    ensures |out| == |rows| && forall i :: 0 <= i < |rows| ==> out[i] == RewriteTransition(ids, m, rows[i])
  {
    seq(|rows|, i requires 0 <= i < |rows| => RewriteTransition(ids, m, rows[i]))
  }

  function UnchangedTransitions(before: seq<TransitionRow>, after: seq<TransitionRow>): nat
    requires |before| == |after|
  {
    if before == [] then 0
    else
      var n := |before| - 1;
      UnchangedTransitions(before[..n], after[..n]) + if before[n].id == after[n].id then 1 else 0
  }

  /** What the loop over the rows of a transition file has established. */
  ghost predicate Moved(ids: Ids, cfg: Config, m: StateMap, rows: seq<TransitionRow>, out: seq<TransitionRow>, same: nat) {
    && TransitionsAdmissible(ids, cfg, m, rows)
    && out == RewriteTransitions(ids, m, rows) && same == UnchangedTransitions(rows, out)
  }

  lemma UnchangedGrows(a: seq<TransitionRow>, a': seq<TransitionRow>, t: TransitionRow, t': TransitionRow)
    requires |a| == |a'|
    ensures UnchangedTransitions(a + [t], a' + [t']) == UnchangedTransitions(a, a') + if t.id == t'.id then 1 else 0
  {
    assert (a + [t])[..|a|] == a && (a' + [t'])[..|a|] == a';
  }

  lemma MovedStep(ids: Ids, cfg: Config, m: StateMap, rows: seq<TransitionRow>, row: TransitionRow,
                  out: seq<TransitionRow>, same: nat)
    requires Moved(ids, cfg, m, rows, out, same) && TransitionChecks(ids, cfg, m, row)
    ensures var rewritten := RewriteTransition(ids, m, row);
      Moved(ids, cfg, m, rows + [row], out + [rewritten], if rewritten.id == row.id then same + 1 else same)
  {
    var rewritten := RewriteTransition(ids, m, row);
    assert out + [rewritten] == RewriteTransitions(ids, m, rows + [row]);
    UnchangedGrows(rows, out, row, rewritten);
  }

  method TransformTransitions(ids: Ids, cfg: Config, m: StateMap, rows: seq<TransitionRow>)
    returns (ok: bool, out: seq<TransitionRow>, same: nat)
    ensures ok <==> TransitionsAdmissible(ids, cfg, m, rows)
    ensures ok ==> out == RewriteTransitions(ids, m, rows) && same == UnchangedTransitions(rows, out)
  {
    ok, out, same := true, [], 0;
    for i := 0 to |rows|
      invariant ok && Moved(ids, cfg, m, rows[..i], out, same)
    {
      var row := rows[i];
      if !TransitionChecks(ids, cfg, m, row) {
        assert !TransitionsAdmissible(ids, cfg, m, rows);
        ok := false;
        return;
      }
      MovedStep(ids, cfg, m, rows[..i], row, out, same);
      assert rows[..i + 1] == rows[..i] + [row];
      var rewritten := RewriteTransition(ids, m, row);
      if rewritten.id == row.id {
        same := same + 1;
      }
      out := out + [rewritten];
    }
    assert rows[..|rows|] == rows;
  }

  // ----- one role -----

  function Flat<T>(files: seq<seq<T>>): seq<T> {
    if files == [] then [] else Flat(files[..|files| - 1]) + files[|files| - 1]
  }

  lemma FlatStep<T>(files: seq<seq<T>>, i: nat)
    requires i < |files|
    ensures Flat(files[..i + 1]) == Flat(files[..i]) + files[i]
  {
    assert files[..i + 1][..i] == files[..i];
  }

  lemma {:induction false} FlatPrefix<T>(files: seq<seq<T>>, i: nat)
    requires i <= |files|
    ensures Flat(files[..i]) <= Flat(files)
  {
    if i == |files| {
      assert files[..i] == files;
    } else {
      FlatPrefix(files[..|files| - 1], i);
      assert files[..|files| - 1][..i] == files[..i];
    }
  }

  lemma AdmissibleParts(ids: Ids, cfg: Config, parents: Parents, a: seq<StateRow>, b: seq<StateRow>)
    ensures StatesAdmissible(ids, cfg, parents, a + b) <==>
      && StatesAdmissible(ids, cfg, parents, a) && StatesAdmissible(ids, cfg, parents, b)
      && forall i, j :: 0 <= i < |a| && 0 <= j < |b| ==> a[i].id != b[j].id
  {
    var all := a + b;
    assert forall i :: 0 <= i < |a| ==> all[i] == a[i];
    assert forall j :: 0 <= j < |b| ==> all[|a| + j] == b[j];
    if StatesAdmissible(ids, cfg, parents, all) {
      forall i, j | 0 <= i < |a| && 0 <= j < |b| ensures a[i].id != b[j].id {
        assert all[i].id != all[|a| + j].id;
      }
      forall i, j | 0 <= i < j < |b| ensures b[i].id != b[j].id {
        assert all[|a| + i].id != all[|a| + j].id;
      }
    }
  }

  lemma JoinedKeys(a: seq<StateRow>, b: seq<StateRow>)
    ensures IdsIn(a + b) == IdsIn(a) + IdsIn(b)
  {
    var all := a + b;
    forall k | k in IdsIn(a) + IdsIn(b) ensures k in IdsIn(all) {
      if i :| 0 <= i < |a| && a[i].id == k {
        assert all[i].id == k;
      } else {
        var j :| 0 <= j < |b| && b[j].id == k;
        assert all[|a| + j].id == k;
      }
    }
  }

  lemma JoinedValue(ids: Ids, cfg: Config, a: seq<StateRow>, b: seq<StateRow>, m: StateMap, n: StateMap, i: nat)
    requires Maps(ids, cfg, a, m) && Maps(ids, cfg, b, n) && m.Keys !! n.Keys && i < |a + b|
    ensures (a + b)[i].id in m + n && (m + n)[(a + b)[i].id] == RewriteState(ids, cfg, (a + b)[i]).id
  {
    if i < |a| {
      assert (a + b)[i] == a[i] && a[i].id in m.Keys;
    } else {
      assert (a + b)[i] == b[i - |a|] && b[i - |a|].id in n.Keys;
    }
  }

  lemma MapsJoin(ids: Ids, cfg: Config, a: seq<StateRow>, b: seq<StateRow>, m: StateMap, n: StateMap)
    requires Maps(ids, cfg, a, m) && Maps(ids, cfg, b, n) && m.Keys !! n.Keys
    ensures Maps(ids, cfg, a + b, m + n)
  {
    JoinedKeys(a, b);
    forall i | 0 <= i < |a + b| ensures (m + n)[(a + b)[i].id] == RewriteState(ids, cfg, (a + b)[i]).id {
      JoinedValue(ids, cfg, a, b, m, n, i);
    }
  }

  ghost function RewrittenStates(ids: Ids, cfg: Config, files: seq<seq<StateRow>>): (out: seq<seq<StateRow>>)
    ensures |out| == |files| && forall i :: 0 <= i < |files| ==> out[i] == RewriteStates(ids, cfg, files[i])
  {
    seq(|files|, i requires 0 <= i < |files| => RewriteStates(ids, cfg, files[i]))
  }

  /** What the loop over the state files of a role has established. */
  ghost predicate StatesReplayed(ids: Ids, cfg: Config, parents: Parents, files: seq<seq<StateRow>>,
                                 out: seq<seq<StateRow>>, m: StateMap, same: nat)
  {
    && StatesAdmissible(ids, cfg, parents, Flat(files))
    && out == RewrittenStates(ids, cfg, files)
    && Maps(ids, cfg, Flat(files), m)
    && same == UnchangedStates(ids, cfg, Flat(files))
  }

  lemma UnchangedStateGrows(ids: Ids, cfg: Config, rows: seq<StateRow>, row: StateRow)
    ensures UnchangedStates(ids, cfg, rows + [row]) ==
            UnchangedStates(ids, cfg, rows) + if RewriteState(ids, cfg, row).id == row.id then 1 else 0
  {
    assert (rows + [row])[..|rows|] == rows;
  }

  lemma {:induction false} UnchangedAdds(ids: Ids, cfg: Config, a: seq<StateRow>, b: seq<StateRow>)
    ensures UnchangedStates(ids, cfg, a + b) == UnchangedStates(ids, cfg, a) + UnchangedStates(ids, cfg, b)
  {
    if b == [] {
      assert a + b == a;
    } else {
      var (front, last) := (b[..|b| - 1], b[|b| - 1]);
      UnchangedAdds(ids, cfg, a, front);
      assert a + b == a + front + [last] && b == front + [last];
      UnchangedStateGrows(ids, cfg, a + front, last);
      UnchangedStateGrows(ids, cfg, front, last);
    }
  }

  lemma KeysDisjoint(ids: Ids, cfg: Config, a: seq<StateRow>, b: seq<StateRow>, m: StateMap, n: StateMap)
    requires Maps(ids, cfg, a, m) && Maps(ids, cfg, b, n)
    ensures m.Keys !! n.Keys <==> forall i, j :: 0 <= i < |a| && 0 <= j < |b| ==> a[i].id != b[j].id
  {
    if m.Keys !! n.Keys {
      forall i, j | 0 <= i < |a| && 0 <= j < |b| ensures a[i].id != b[j].id {
        assert a[i].id in m.Keys && b[j].id in n.Keys;
      }
    }
  }

  lemma StatesReplayedStep(ids: Ids, cfg: Config, parents: Parents, files: seq<seq<StateRow>>, out: seq<seq<StateRow>>,
                           m: StateMap, same: nat, file: seq<StateRow>, rows: seq<StateRow>, n: StateMap, more: nat)
    requires StatesReplayed(ids, cfg, parents, files, out, m, same)
    requires Transformed(ids, cfg, parents, file, rows, n, more) && m.Keys !! n.Keys
    ensures StatesReplayed(ids, cfg, parents, files + [file], out + [rows], m + n, same + more)
  {
    assert (files + [file])[..|files|] == files;
    KeysDisjoint(ids, cfg, Flat(files), file, m, n);
    AdmissibleParts(ids, cfg, parents, Flat(files), file);
    MapsJoin(ids, cfg, Flat(files), file, m, n);
    UnchangedAdds(ids, cfg, Flat(files), file);
  }

  lemma RejectsFile(ids: Ids, cfg: Config, parents: Parents, files: seq<seq<StateRow>>, i: nat)
    requires i < |files| && !StatesAdmissible(ids, cfg, parents, Flat(files[..i]) + files[i])
    ensures !StatesAdmissible(ids, cfg, parents, Flat(files))
  {
    FlatStep(files, i);
    FlatPrefix(files, i + 1);
  }

  lemma BadFileIsBad(ids: Ids, cfg: Config, parents: Parents, a: seq<StateRow>, b: seq<StateRow>)
    requires !StatesAdmissible(ids, cfg, parents, b)
    ensures !StatesAdmissible(ids, cfg, parents, a + b)
  {
    AdmissibleParts(ids, cfg, parents, a, b);
  }

  lemma OverlapIsBad(ids: Ids, cfg: Config, parents: Parents, a: seq<StateRow>, b: seq<StateRow>, m: StateMap, n: StateMap)
    requires Maps(ids, cfg, a, m) && Maps(ids, cfg, b, n) && !(m.Keys !! n.Keys)
    ensures !StatesAdmissible(ids, cfg, parents, a + b)
  {
    KeysDisjoint(ids, cfg, a, b, m, n);
    AdmissibleParts(ids, cfg, parents, a, b);
  }

  /** Transform one more state file and merge its identity map. */
  method AddStateFile(ids: Ids, cfg: Config, parents: Parents, ghost done: seq<seq<StateRow>>, file: seq<StateRow>,
                      out: seq<seq<StateRow>>, stateMap: StateMap, same: nat)
    returns (ok: bool, out': seq<seq<StateRow>>, stateMap': StateMap, same': nat)
    requires StatesReplayed(ids, cfg, parents, done, out, stateMap, same)
    ensures ok ==> StatesReplayed(ids, cfg, parents, done + [file], out', stateMap', same')
    ensures !ok ==> !StatesAdmissible(ids, cfg, parents, Flat(done) + file)
  {
    out', stateMap', same' := out, stateMap, same;
    var fine, rows, mapping, more := TransformStates(ids, cfg, parents, file);
    if !fine {
      BadFileIsBad(ids, cfg, parents, Flat(done), file);
      return false, out', stateMap', same';
    }
    if !(stateMap.Keys !! mapping.Keys) {
      OverlapIsBad(ids, cfg, parents, Flat(done), file, stateMap, mapping);
      return false, out', stateMap', same';
    }
    StatesReplayedStep(ids, cfg, parents, done, out, stateMap, same, file, rows, mapping, more);
    return true, out + [rows], stateMap + mapping, same + more;
  }

  /** The state files of a role, one by one, with the identity maps merged. */
  method ReplayStates(ids: Ids, cfg: Config, parents: Parents, files: seq<seq<StateRow>>)
    returns (ok: bool, out: seq<seq<StateRow>>, stateMap: StateMap, same: nat)
    ensures ok <==> StatesAdmissible(ids, cfg, parents, Flat(files))
    ensures ok ==> StatesReplayed(ids, cfg, parents, files, out, stateMap, same)
  {
    ok, out, stateMap, same := true, [], map[], 0;
    for i := 0 to |files|
      invariant ok && StatesReplayed(ids, cfg, parents, files[..i], out, stateMap, same)
    {
      ok, out, stateMap, same := AddStateFile(ids, cfg, parents, files[..i], files[i], out, stateMap, same);
      if !ok {
        RejectsFile(ids, cfg, parents, files, i);
        return;
      }
      assert files[..i + 1] == files[..i] + [files[i]];
    }
    assert files[..|files|] == files;
  }

  /** What the loop over the transition files has established. */
  ghost predicate TransitionsReplayed(ids: Ids, cfg: Config, m: StateMap, files: seq<seq<TransitionRow>>,
                                      out: seq<seq<TransitionRow>>, same: nat)
  {
    && TransitionsAdmissible(ids, cfg, m, Flat(files))
    && |out| == |files|
    && (forall i :: 0 <= i < |files| ==>
      TransitionsAdmissible(ids, cfg, m, files[i]) && out[i] == RewriteTransitions(ids, m, files[i]))
    && Flat(out) == RewriteTransitions(ids, m, Flat(files))
    && same == UnchangedTransitions(Flat(files), Flat(out))
  }

  lemma UnchangedAddOne(a: seq<TransitionRow>, a': seq<TransitionRow>, b: seq<TransitionRow>, b': seq<TransitionRow>,
                        t: TransitionRow, t': TransitionRow)
    requires |a| == |a'| && |b| == |b'|
    requires UnchangedTransitions(a + b, a' + b') == UnchangedTransitions(a, a') + UnchangedTransitions(b, b')
    ensures UnchangedTransitions(a + (b + [t]), a' + (b' + [t'])) ==
            UnchangedTransitions(a, a') + UnchangedTransitions(b + [t], b' + [t'])
  {
    assert a + (b + [t]) == a + b + [t] && a' + (b' + [t']) == a' + b' + [t'];
    UnchangedGrows(a + b, a' + b', t, t');
    UnchangedGrows(b, b', t, t');
  }

  lemma {:induction false} UnchangedTransitionsAdd(
    a: seq<TransitionRow>, a': seq<TransitionRow>, b: seq<TransitionRow>, b': seq<TransitionRow>)
    requires |a| == |a'| && |b| == |b'|
    ensures UnchangedTransitions(a + b, a' + b') == UnchangedTransitions(a, a') + UnchangedTransitions(b, b')
  {
    if b == [] {
      assert a + b == a && a' + b' == a';
    } else {
      var n := |b| - 1;
      UnchangedTransitionsAdd(a, a', b[..n], b'[..n]);
      assert b == b[..n] + [b[n]] && b' == b'[..n] + [b'[n]];
      UnchangedAddOne(a, a', b[..n], b'[..n], b[n], b'[n]);
    }
  }

  lemma FlatAppend<T>(files: seq<seq<T>>, file: seq<T>)
    ensures Flat(files + [file]) == Flat(files) + file
  {
    assert (files + [file])[..|files|] == files;
  }

  lemma RewriteTransitionsJoin(ids: Ids, cfg: Config, m: StateMap, a: seq<TransitionRow>, b: seq<TransitionRow>)
    requires TransitionsAdmissible(ids, cfg, m, a) && TransitionsAdmissible(ids, cfg, m, b)
    ensures TransitionsAdmissible(ids, cfg, m, a + b)
    ensures RewriteTransitions(ids, m, a + b) == RewriteTransitions(ids, m, a) + RewriteTransitions(ids, m, b)
  {
  }

  lemma TransitionsReplayedStep(ids: Ids, cfg: Config, m: StateMap, files: seq<seq<TransitionRow>>,
                                out: seq<seq<TransitionRow>>, same: nat, file: seq<TransitionRow>, rows: seq<TransitionRow>, more: nat)
    requires TransitionsReplayed(ids, cfg, m, files, out, same)
    requires TransitionsAdmissible(ids, cfg, m, file) && rows == RewriteTransitions(ids, m, file)
    requires more == UnchangedTransitions(file, rows)
    ensures TransitionsReplayed(ids, cfg, m, files + [file], out + [rows], same + more)
  {
    FlatAppend(files, file);
    FlatAppend(out, rows);
    RewriteTransitionsJoin(ids, cfg, m, Flat(files), file);
    UnchangedTransitionsAdd(Flat(files), Flat(out), file, rows);
  }

  lemma RejectsTransitionFile(ids: Ids, cfg: Config, m: StateMap, files: seq<seq<TransitionRow>>, i: nat)
    requires i < |files| && !TransitionsAdmissible(ids, cfg, m, files[i])
    ensures !TransitionsAdmissible(ids, cfg, m, Flat(files))
  {
    FlatStep(files, i);
    FlatPrefix(files, i + 1);
    var j :| 0 <= j < |files[i]| && !TransitionChecks(ids, cfg, m, files[i][j]);
    assert Flat(files)[|Flat(files[..i])| + j] == Flat(files[..i + 1])[|Flat(files[..i])| + j] == files[i][j];
  }

  /** One turn of the loop over the transition files. */
  method AddTransitionFile(ids: Ids, cfg: Config, m: StateMap, files: seq<seq<TransitionRow>>, file: seq<TransitionRow>,
                           before: seq<seq<TransitionRow>>, count: nat)
    returns (ok: bool, out: seq<seq<TransitionRow>>, same: nat)
    requires TransitionsReplayed(ids, cfg, m, files, before, count)
    ensures ok <==> TransitionsAdmissible(ids, cfg, m, file)
    ensures ok ==> TransitionsReplayed(ids, cfg, m, files + [file], out, same)
  {
    var rows, more;
    ok, rows, more := TransformTransitions(ids, cfg, m, file);
    out, same := before + [rows], count + more;
    if ok {
      TransitionsReplayedStep(ids, cfg, m, files, before, count, file, rows, more);
    }
  }

  method ReplayTransitions(ids: Ids, cfg: Config, m: StateMap, files: seq<seq<TransitionRow>>)
    returns (ok: bool, out: seq<seq<TransitionRow>>, same: nat)
    ensures ok <==> TransitionsAdmissible(ids, cfg, m, Flat(files))
    ensures ok ==> TransitionsReplayed(ids, cfg, m, files, out, same)
  {
    ok, out, same := true, [], 0;
    for i := 0 to |files|
      invariant ok && TransitionsReplayed(ids, cfg, m, files[..i], out, same)
    {
      ok, out, same := AddTransitionFile(ids, cfg, m, files[..i], files[i], out, same);
      if !ok {
        RejectsTransitionFile(ids, cfg, m, files, i);
        return;
      }
      assert files[..i + 1] == files[..i] + [files[i]];
    }
    assert files[..|files|] == files;
  }

  // ----- the whole replay -----

  datatype RoleInput = RoleInput(cfg: Config, parents: Parents, states: seq<seq<StateRow>>, transitions: seq<seq<TransitionRow>>)

  datatype RoleOutput = RoleOutput(states: seq<seq<StateRow>>, transitions: seq<seq<TransitionRow>>)

  const FILES_PER_ROLE := 6

  ghost function IdMapOf(ids: Ids, cfg: Config, rows: seq<StateRow>): StateMap {
    if rows == [] then map[]
    else
      var row := rows[|rows| - 1];
      IdMapOf(ids, cfg, rows[..|rows| - 1])[row.id := RewriteState(ids, cfg, row).id]
  }

  lemma MapsUnique(ids: Ids, cfg: Config, rows: seq<StateRow>, m: StateMap, n: StateMap)
    requires Maps(ids, cfg, rows, m) && Maps(ids, cfg, rows, n)
    ensures m == n
  {
    forall k | k in m ensures m[k] == n[k] {
      var i :| 0 <= i < |rows| && rows[i].id == k;
    }
  }

  lemma NewKey(ids: Ids, cfg: Config, rows: seq<StateRow>, m: StateMap)
    requires rows != [] && DistinctStates(rows) && Maps(ids, cfg, rows[..|rows| - 1], m)
    ensures rows[|rows| - 1].id !in m
  {
  }

  lemma {:induction false} IdMapMaps(ids: Ids, cfg: Config, rows: seq<StateRow>)
    requires DistinctStates(rows)
    ensures Maps(ids, cfg, rows, IdMapOf(ids, cfg, rows))
  {
    if rows != [] {
      var (front, last) := (rows[..|rows| - 1], rows[|rows| - 1]);
      IdMapMaps(ids, cfg, front);
      NewKey(ids, cfg, rows, IdMapOf(ids, cfg, front));
      MapsAppend(ids, cfg, front, last, IdMapOf(ids, cfg, front));
      assert rows == front + [last];
    }
  }

  ghost predicate RoleAdmissible(ids: Ids, r: RoleInput) {
    && |r.states| == FILES_PER_ROLE && |r.transitions| == FILES_PER_ROLE
    && StatesAdmissible(ids, r.cfg, r.parents, Flat(r.states))
    && TransitionsAdmissible(ids, r.cfg, IdMapOf(ids, r.cfg, Flat(r.states)), Flat(r.transitions))
    && |Flat(r.states)| == r.cfg.stateRecords && |Flat(r.transitions)| == r.cfg.transitionRecords
  }

  /** The output holds, file by file and row by row, the rewritten input. */
  ghost predicate RoleReplayed(ids: Ids, r: RoleInput, out: RoleOutput, sameStates: nat, sameTransitions: nat) {
    && RoleAdmissible(ids, r)
    && var m := IdMapOf(ids, r.cfg, Flat(r.states));
    && StatesReplayed(ids, r.cfg, r.parents, r.states, out.states, m, sameStates)
    && TransitionsReplayed(ids, r.cfg, m, r.transitions, out.transitions, sameTransitions)
  }

  method CountRows<T>(files: seq<seq<T>>) returns (n: nat)
    ensures n == |Flat(files)|
  {
    n := 0;
    for i := 0 to |files|
      invariant n == |Flat(files[..i])|
    {
      FlatStep(files, i);
      n := n + |files[i]|;
    }
    assert files[..|files|] == files;
  }

  method ReplayRole(ids: Ids, r: RoleInput) returns (ok: bool, out: RoleOutput, sameStates: nat, sameTransitions: nat)
    ensures ok <==> RoleAdmissible(ids, r)
    ensures ok ==> RoleReplayed(ids, r, out, sameStates, sameTransitions)
  {
    ok, out, sameStates, sameTransitions := false, RoleOutput([], []), 0, 0;
    if |r.states| != FILES_PER_ROLE || |r.transitions| != FILES_PER_ROLE {
      return;
    }
    var fine, states, m, same := ReplayStates(ids, r.cfg, r.parents, r.states);
    if !fine {
      return;
    }
    IdMapMaps(ids, r.cfg, Flat(r.states));
    MapsUnique(ids, r.cfg, Flat(r.states), m, IdMapOf(ids, r.cfg, Flat(r.states)));
    var fine', transitions, same' := ReplayTransitions(ids, r.cfg, m, r.transitions);
    if !fine' {
      return;
    }
    var stateCount := CountRows(r.states);
    var transitionCount := CountRows(r.transitions);
    if stateCount != r.cfg.stateRecords || transitionCount != r.cfg.transitionRecords {
      return;
    }
    ok, out, sameStates, sameTransitions := true, RoleOutput(states, transitions), same, same';
  }

  /** An admissible role in which every row changes its identity. */
  ghost predicate RoleAccepted(ids: Ids, r: RoleInput) {
    && RoleAdmissible(ids, r)
    && var m := IdMapOf(ids, r.cfg, Flat(r.states));
    && UnchangedStates(ids, r.cfg, Flat(r.states)) == 0
    && UnchangedTransitions(Flat(r.transitions), RewriteTransitions(ids, m, Flat(r.transitions))) == 0
  }

  ghost predicate FirstAccepted(ids: Ids, roles: seq<RoleInput>, n: nat) {
    forall i :: 0 <= i < n && i < |roles| ==> RoleAccepted(ids, roles[i])
  }

  ghost predicate FirstReplayed(ids: Ids, roles: seq<RoleInput>, outs: seq<RoleOutput>) {
    |outs| <= |roles| && forall i :: 0 <= i < |outs| ==> RoleReplayed(ids, roles[i], outs[i], 0, 0)
  }

  lemma AcceptedIffChanged(ids: Ids, r: RoleInput, out: RoleOutput, sameStates: nat, sameTransitions: nat)
    requires RoleReplayed(ids, r, out, sameStates, sameTransitions)
    ensures RoleAccepted(ids, r) <==> sameStates == 0 && sameTransitions == 0
  {
  }

  lemma FirstAcceptedStep(ids: Ids, roles: seq<RoleInput>, i: nat)
    requires i < |roles|
    ensures FirstAccepted(ids, roles, i + 1) <==> FirstAccepted(ids, roles, i) && RoleAccepted(ids, roles[i])
  {
  }

  lemma FirstReplayedStep(ids: Ids, roles: seq<RoleInput>, outs: seq<RoleOutput>, out: RoleOutput)
    requires FirstReplayed(ids, roles, outs) && |outs| < |roles| && RoleReplayed(ids, roles[|outs|], out, 0, 0)
    ensures FirstReplayed(ids, roles, outs + [out])
  {
    var all := outs + [out];
    forall j | 0 <= j < |all| ensures RoleReplayed(ids, roles[j], all[j], 0, 0) {
      assert j < |outs| ==> all[j] == outs[j];
    }
  }

  ghost function StateTotal(roles: seq<RoleInput>): nat {
    if roles == [] then 0 else StateTotal(roles[..|roles| - 1]) + |Flat(roles[|roles| - 1].states)|
  }

  ghost function TransitionTotal(roles: seq<RoleInput>): nat {
    if roles == [] then 0 else TransitionTotal(roles[..|roles| - 1]) + |Flat(roles[|roles| - 1].transitions)|
  }

  lemma TotalsGrow(roles: seq<RoleInput>, i: nat)
    requires i < |roles|
    ensures StateTotal(roles[..i + 1]) == StateTotal(roles[..i]) + |Flat(roles[i].states)|
    ensures TransitionTotal(roles[..i + 1]) == TransitionTotal(roles[..i]) + |Flat(roles[i].transitions)|
  {
    assert roles[..i + 1][..i] == roles[..i];
  }

  const EXPECTED_STATES := 404_434
  const EXPECTED_TRANSITIONS := 323_910

  /** One turn of the loop over the roles: the counters of unchanged identities so far are
      zero exactly when all roles so far are accepted. */
  ghost predicate RolesDone(ids: Ids, roles: seq<RoleInput>, i: nat, outs: seq<RoleOutput>, states: nat, transitions: nat) {
    && |outs| == i <= |roles|
    && (states == 0 && transitions == 0 <==> FirstAccepted(ids, roles, i))
    && (states == 0 && transitions == 0 ==> FirstReplayed(ids, roles, outs))
  }

  lemma RolesStep(ids: Ids, roles: seq<RoleInput>, i: nat, outs: seq<RoleOutput>, states: nat, transitions: nat,
                  out: RoleOutput, s: nat, t: nat)
    requires i < |roles| && RolesDone(ids, roles, i, outs, states, transitions) && RoleReplayed(ids, roles[i], out, s, t)
    ensures RolesDone(ids, roles, i + 1, outs + [out], states + s, transitions + t)
  {
    AcceptedIffChanged(ids, roles[i], out, s, t);
    FirstAcceptedStep(ids, roles, i);
    if states == 0 && transitions == 0 && s == 0 && t == 0 {
      FirstReplayedStep(ids, roles, outs, out);
    }
  }

  /** The replay succeeds exactly when its target is new, every role is admissible, the
      grand totals are the expected ones and no row keeps its identity; each output is
      then the rewritten input. */
  method ReplayIdentityOnce(ids: Ids, roles: seq<RoleInput>, targetExists: bool) returns (ok: bool, outs: seq<RoleOutput>)
    ensures ok <==>
      && !targetExists && FirstAccepted(ids, roles, |roles|)
      && StateTotal(roles) == 404_434 && TransitionTotal(roles) == 323_910
    ensures ok ==> |outs| == |roles| && FirstReplayed(ids, roles, outs)
  {
    outs := [];
    if targetExists {
      return false, outs;
    }
    var stateRecords, transitionRecords, states, transitions := 0, 0, 0, 0;
    for i := 0 to |roles|
      invariant RolesDone(ids, roles, i, outs, states, transitions)
      invariant stateRecords == StateTotal(roles[..i]) && transitionRecords == TransitionTotal(roles[..i])
    {
      var fine, out, s, t := ReplayRole(ids, roles[i]);
      if !fine {
        assert !RoleAccepted(ids, roles[i]);
        return false, outs;
      }
      RolesStep(ids, roles, i, outs, states, transitions, out, s, t);
      TotalsGrow(roles, i);
      var stateCount := CountRows(roles[i].states);
      var transitionCount := CountRows(roles[i].transitions);
      stateRecords, transitionRecords := stateRecords + stateCount, transitionRecords + transitionCount;
      states, transitions := states + s, transitions + t;
      outs := outs + [out];
    }
    assert roles[..|roles|] == roles;
    ok := stateRecords == EXPECTED_STATES && transitionRecords == EXPECTED_TRANSITIONS && states == 0 && transitions == 0;
  }
}

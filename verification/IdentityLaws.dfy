/** The identity replay is a graph isomorphism, and replaying it backwards gives
    the original rows. */
module IdentityLaws {
  import opened Common
  import opened Sorting
  import opened IdentityReplay

  ghost predicate Distinguishing(ids: Ids) { CollisionFree(ids.state) && CollisionFree(ids.transition) }

  // ----- states -----

  /** What acceptance of some state rows means: the checks passed and the final
      count of unchanged identities was zero. */
  ghost predicate StatesAccepted(ids: Ids, cfg: Config, parents: Parents, rows: seq<StateRow>) {
    StatesAdmissible(ids, cfg, parents, rows) && UnchangedStates(ids, cfg, rows) == 0
  }

  /** The old-to-new map is a bijection onto identities disjoint from the old ones. */
  lemma StateMapIsBijection(ids: Ids, cfg: Config, parents: Parents, rows: seq<StateRow>, m: StateMap)
    requires Distinguishing(ids) && StatesAccepted(ids, cfg, parents, rows) && Maps(ids, cfg, rows, m)
    ensures forall a, b :: a in m && b in m && m[a] == m[b] ==> a == b
    ensures m.Values == set i | 0 <= i < |rows| :: RewriteState(ids, cfg, rows[i]).id
    ensures m.Keys !! m.Values
  {
  }

  // ----- transitions -----

  ghost predicate Injective(m: StateMap) {
    forall a, b :: a in m && b in m && m[a] == m[b] ==> a == b
  }

  /** Transitions correspond one to one: two rows get the same new identity exactly
      when they had the same old one, and no new identity equals an old one. */
  lemma TransitionsCorrespond(ids: Ids, cfg: Config, m: StateMap, a: TransitionRow, b: TransitionRow)
    requires Distinguishing(ids) && Injective(m) && m.Keys !! m.Values
    requires TransitionChecks(ids, cfg, m, a) && TransitionChecks(ids, cfg, m, b)
    ensures RewriteTransition(ids, m, a).id == RewriteTransition(ids, m, b).id <==> a.id == b.id
    ensures RewriteTransition(ids, m, a).id != b.id
  {
  }

  lemma {:induction false} NoTransitionUnchanged(ids: Ids, cfg: Config, m: StateMap, rows: seq<TransitionRow>)
    requires Distinguishing(ids) && Injective(m) && m.Keys !! m.Values && TransitionsAdmissible(ids, cfg, m, rows)
    ensures UnchangedTransitions(rows, RewriteTransitions(ids, m, rows)) == 0
  {
    if rows != [] {
      var n := |rows| - 1;
      NoTransitionUnchanged(ids, cfg, m, rows[..n]);
      TransitionsCorrespond(ids, cfg, m, rows[n], rows[n]);
      assert RewriteTransitions(ids, m, rows)[..n] == RewriteTransitions(ids, m, rows[..n]);
    }
  }

  // ----- replaying backwards -----

  /** The same role with the two parent releases exchanged. */
  function Swapped(cfg: Config): Config {
    cfg.(v1Release := cfg.v2Release, v1Manifest := cfg.v2Manifest, v2Release := cfg.v1Release, v2Manifest := cfg.v1Manifest)
  }

  lemma StatesReturn(ids: Ids, cfg: Config, parents: Parents, rows: seq<StateRow>)
    requires Distinguishing(ids) && StatesAccepted(ids, cfg, parents, rows)
    ensures var news := RewriteStates(ids, cfg, rows);
      StatesAdmissible(ids, Swapped(cfg), parents, news) && RewriteStates(ids, Swapped(cfg), news) == rows
  {
  }

  /** The map of the backward replay inverts the map of the forward one. */
  lemma MapsInvert(ids: Ids, cfg: Config, parents: Parents, rows: seq<StateRow>, m: StateMap, back: StateMap, k: string)
    requires Distinguishing(ids) && StatesAccepted(ids, cfg, parents, rows) && Maps(ids, cfg, rows, m)
    requires Maps(ids, Swapped(cfg), RewriteStates(ids, cfg, rows), back) && k in m
    ensures m[k] in back && back[m[k]] == k
  {
  }

  lemma TransitionReturns(ids: Ids, cfg: Config, m: StateMap, back: StateMap, row: TransitionRow)
    requires TransitionChecks(ids, cfg, m, row)
    requires forall k :: k in m ==> m[k] in back && back[m[k]] == k
    ensures var rebound := RewriteTransition(ids, m, row);
      TransitionChecks(ids, Swapped(cfg), back, rebound) && RewriteTransition(ids, back, rebound) == row
  {
  }

  /** Replaying the result with the two parent releases exchanged is admissible and
      gives back the original rows, states and transitions alike. */
  lemma ReplayIsInvertible(
    ids: Ids, cfg: Config, parents: Parents, states: seq<StateRow>, transitions: seq<TransitionRow>, m: StateMap, back: StateMap)
    requires Distinguishing(ids) && StatesAccepted(ids, cfg, parents, states) && Maps(ids, cfg, states, m)
    requires TransitionsAdmissible(ids, cfg, m, transitions)
    requires Maps(ids, Swapped(cfg), RewriteStates(ids, cfg, states), back)
    ensures var (news, moved) := (RewriteStates(ids, cfg, states), RewriteTransitions(ids, m, transitions));
      && StatesAdmissible(ids, Swapped(cfg), parents, news)
      && TransitionsAdmissible(ids, Swapped(cfg), back, moved)
      && RewriteStates(ids, Swapped(cfg), news) == states
      && RewriteTransitions(ids, back, moved) == transitions
  {
    var moved := RewriteTransitions(ids, m, transitions);
    StatesReturn(ids, cfg, parents, states);
    forall k | k in m ensures m[k] in back && back[m[k]] == k {
      MapsInvert(ids, cfg, parents, states, m, back, k);
    }
    forall i | 0 <= i < |transitions|
      ensures TransitionChecks(ids, Swapped(cfg), back, moved[i]) && RewriteTransition(ids, back, moved[i]) == transitions[i]
    {
      assert TransitionChecks(ids, cfg, m, transitions[i]);
      TransitionReturns(ids, cfg, m, back, transitions[i]);
    }
  }

  /** The checks of the program imply that its final "did not change" test passes:
      under distinct releases and a collision-free hash nothing keeps its identity. */
  lemma {:induction false} DistinctReleasesChangeAll(ids: Ids, cfg: Config, parents: Parents, rows: seq<StateRow>)
    requires Distinguishing(ids) && cfg.v1Release != cfg.v2Release && StatesAdmissible(ids, cfg, parents, rows)
    ensures StatesAccepted(ids, cfg, parents, rows)
  {
    if rows != [] {
      var row := rows[|rows| - 1];
      DistinctReleasesChangeAll(ids, cfg, parents, rows[..|rows| - 1]);
      assert StateChecks(ids, cfg, parents, row);
      assert IdentityOf(row, cfg.v2Release) != IdentityOf(row, cfg.v1Release);
    }
  }

  // ----- whole roles, file by file -----

  lemma {:induction false} FlatRewritten(ids: Ids, cfg: Config, files: seq<seq<StateRow>>)
    ensures Flat(RewrittenStates(ids, cfg, files)) == RewriteStates(ids, cfg, Flat(files))
  {
    if files != [] {
      var n := |files| - 1;
      FlatRewritten(ids, cfg, files[..n]);
      assert RewrittenStates(ids, cfg, files)[..n] == RewrittenStates(ids, cfg, files[..n]);
    }
  }

  lemma InFlat<T>(files: seq<seq<T>>, i: nat, j: nat) returns (at: nat)
    requires i < |files| && j < |files[i]|
    ensures at < |Flat(files)| && Flat(files)[at] == files[i][j]
  {
    FlatStep(files, i);
    FlatPrefix(files, i + 1);
    at := |Flat(files[..i])| + j;
  }

  lemma StateReturns(ids: Ids, cfg: Config, parents: Parents, row: StateRow)
    requires StateChecks(ids, cfg, parents, row)
    ensures RewriteState(ids, Swapped(cfg), RewriteState(ids, cfg, row)) == row
  {
  }

  lemma StateFilesReturn(ids: Ids, cfg: Config, parents: Parents, files: seq<seq<StateRow>>)
    requires StatesAdmissible(ids, cfg, parents, Flat(files))
    ensures RewrittenStates(ids, Swapped(cfg), RewrittenStates(ids, cfg, files)) == files
  {
    var news := RewrittenStates(ids, cfg, files);
    forall i | 0 <= i < |files| ensures RewriteStates(ids, Swapped(cfg), news[i]) == files[i] {
      forall j | 0 <= j < |files[i]| ensures RewriteState(ids, Swapped(cfg), news[i][j]) == files[i][j] {
        var at := InFlat(files, i, j);
        StateReturns(ids, cfg, parents, files[i][j]);
      }
    }
  }

  /** Only when there are no rows at all can an accepted role have equal releases. */
  lemma AcceptedReleasesDiffer(ids: Ids, cfg: Config, parents: Parents, rows: seq<StateRow>)
    requires StatesAccepted(ids, cfg, parents, rows)
    ensures rows != [] ==> cfg.v1Release != cfg.v2Release
  {
    if rows != [] {
      assert StateChecks(ids, cfg, parents, rows[|rows| - 1]);
    }
  }

  lemma BackwardsAccepted(ids: Ids, cfg: Config, parents: Parents, rows: seq<StateRow>)
    requires Distinguishing(ids) && StatesAccepted(ids, cfg, parents, rows)
    ensures StatesAccepted(ids, Swapped(cfg), parents, RewriteStates(ids, cfg, rows))
  {
    StatesReturn(ids, cfg, parents, rows);
    AcceptedReleasesDiffer(ids, cfg, parents, rows);
    if rows != [] {
      DistinctReleasesChangeAll(ids, Swapped(cfg), parents, RewriteStates(ids, cfg, rows));
    }
  }

  /** The output of a replay as the input of the replay that exchanges the releases. */
  function Backwards(r: RoleInput, out: RoleOutput): RoleInput {
    RoleInput(Swapped(r.cfg), r.parents, out.states, out.transitions)
  }

  ghost function MapOf(ids: Ids, r: RoleInput): StateMap { IdMapOf(ids, r.cfg, Flat(r.states)) }

  lemma StatesGoBack(ids: Ids, r: RoleInput, out: RoleOutput)
    requires Distinguishing(ids) && RoleReplayed(ids, r, out, 0, 0)
    ensures var b := Backwards(r, out);
      && Flat(out.states) == RewriteStates(ids, r.cfg, Flat(r.states))
      && Maps(ids, r.cfg, Flat(r.states), MapOf(ids, r))
      && Maps(ids, b.cfg, Flat(out.states), MapOf(ids, b))
      && StatesReplayed(ids, b.cfg, b.parents, b.states, r.states, MapOf(ids, b), 0)
  {
    var b := Backwards(r, out);
    FlatRewritten(ids, r.cfg, r.states);
    StatesReturn(ids, r.cfg, r.parents, Flat(r.states));
    IdMapMaps(ids, r.cfg, Flat(r.states));
    IdMapMaps(ids, b.cfg, Flat(out.states));
    StateFilesReturn(ids, r.cfg, r.parents, r.states);
    BackwardsAccepted(ids, r.cfg, r.parents, Flat(r.states));
  }

  lemma TransitionsGoBack(ids: Ids, r: RoleInput, out: RoleOutput)
    requires Distinguishing(ids) && RoleReplayed(ids, r, out, 0, 0)
    ensures var b := Backwards(r, out); TransitionsReplayed(ids, b.cfg, MapOf(ids, b), b.transitions, r.transitions, 0)
  {
    var b := Backwards(r, out);
    var (states, m, back) := (Flat(r.states), MapOf(ids, r), MapOf(ids, b));
    StatesGoBack(ids, r, out);
    ReplayIsInvertible(ids, r.cfg, r.parents, states, Flat(r.transitions), m, back);
    forall i | 0 <= i < |r.transitions|
      ensures TransitionsAdmissible(ids, b.cfg, back, out.transitions[i])
      ensures r.transitions[i] == RewriteTransitions(ids, back, out.transitions[i])
    {
      ReplayIsInvertible(ids, r.cfg, r.parents, states, r.transitions[i], m, back);
    }
    BackwardsAccepted(ids, r.cfg, r.parents, states);
    StateMapIsBijection(ids, b.cfg, b.parents, Flat(out.states), back);
    NoTransitionUnchanged(ids, b.cfg, back, Flat(out.transitions));
  }

  /** Replaying the output files of a role with the two parent releases exchanged is
      accepted and writes the original files, with no identity unchanged. */
  lemma RoleReplayIsInvertible(ids: Ids, r: RoleInput, out: RoleOutput)
    requires Distinguishing(ids) && RoleReplayed(ids, r, out, 0, 0)
    ensures RoleReplayed(ids, Backwards(r, out), RoleOutput(r.states, r.transitions), 0, 0)
  {
    StatesGoBack(ids, r, out);
    TransitionsGoBack(ids, r, out);
  }

  /** The same state under its new identity and the new parent release. */
  ghost predicate Rebound(cfg: Config, m: StateMap, row: StateRow, rebound: StateRow) {
    && row.id in m
    && rebound == row.(id := m[row.id], c1Release := cfg.v2Release, c1Manifest := cfg.v2Manifest)
  }

  lemma MappedStates(ids: Ids, cfg: Config, rows: seq<StateRow>, m: StateMap)
    requires Maps(ids, cfg, rows, m)
    ensures forall i :: 0 <= i < |rows| ==> rows[i].id in m && Rebound(cfg, m, rows[i], RewriteStates(ids, cfg, rows)[i])
  {
    forall i | 0 <= i < |rows| ensures rows[i].id in m {
      assert rows[i].id in IdsIn(rows);
    }
  }

  /** The same transition between the images of its endpoints. */
  ghost predicate Relabelled(m: StateMap, row: TransitionRow, rebound: TransitionRow) {
    && row.fromState in m && row.toState in m
    && rebound == row.(id := rebound.id, fromState := m[row.fromState], toState := m[row.toState])
  }

  lemma MappedTransitions(ids: Ids, cfg: Config, m: StateMap, rows: seq<TransitionRow>)
    requires TransitionsAdmissible(ids, cfg, m, rows)
    ensures forall i :: 0 <= i < |rows| ==> Relabelled(m, rows[i], RewriteTransitions(ids, m, rows)[i])
  {
    forall i | 0 <= i < |rows| ensures Relabelled(m, rows[i], RewriteTransitions(ids, m, rows)[i]) {
      assert TransitionChecks(ids, cfg, m, rows[i]);
    }
  }

  /** The new graph of a role is the old one relabelled: one bijection onto new identities
      takes every state to the state in the same place, re-bound to the new parent release
      and the same in everything else, and every transition to one between the images of
      its endpoints, again the same in everything else. */
  lemma RoleIsIsomorphic(ids: Ids, r: RoleInput, out: RoleOutput)
    requires Distinguishing(ids) && RoleReplayed(ids, r, out, 0, 0)
    ensures var m := MapOf(ids, r);
      && Injective(m) && m.Keys !! m.Values
      && (forall i :: 0 <= i < |Flat(r.states)| ==> Flat(r.states)[i].id in m)
      && |Flat(out.states)| == |Flat(r.states)| && |Flat(out.transitions)| == |Flat(r.transitions)|
      && (forall i :: 0 <= i < |Flat(r.states)| ==> Rebound(r.cfg, m, Flat(r.states)[i], Flat(out.states)[i]))
      && (forall i :: 0 <= i < |Flat(r.transitions)| ==> Relabelled(m, Flat(r.transitions)[i], Flat(out.transitions)[i]))
  {
    var m := MapOf(ids, r);
    StatesGoBack(ids, r, out);
    StateMapIsBijection(ids, r.cfg, r.parents, Flat(r.states), m);
    MappedStates(ids, r.cfg, Flat(r.states), m);
    MappedTransitions(ids, r.cfg, m, Flat(r.transitions));
  }

  // ----- what an identity stands for -----

  /** Two admissible states have the same identity only if they agree in every field that
      an identity covers. */
  lemma IdentityFixesState(ids: Ids, cfg: Config, parents: Parents, a: StateRow, b: StateRow)
    requires Distinguishing(ids) && StateChecks(ids, cfg, parents, a) && StateChecks(ids, cfg, parents, b)
    ensures a.id == b.id <==>
      && a.parentC1 == b.parentC1 && a.parentBar == b.parentBar && a.firstValid == b.firstValid && a.clock == b.clock
      && a.side == b.side && a.scope == b.scope && a.pack == b.pack && a.axes == b.axes
  {
    assert ids.state(IdentityOf(a, cfg.v1Release)) == a.id && ids.state(IdentityOf(b, cfg.v1Release)) == b.id;
  }

  /** Two admissible transitions have the same identity exactly when they join the same
      states at the same time with the same changed axes, in whatever order. */
  lemma IdentityFixesTransition(ids: Ids, cfg: Config, m: StateMap, a: TransitionRow, b: TransitionRow)
    requires Distinguishing(ids) && TransitionChecks(ids, cfg, m, a) && TransitionChecks(ids, cfg, m, b)
    ensures a.id == b.id <==>
      && a.fromState == b.fromState && a.toState == b.toState && a.firstValid == b.firstValid
      && multiset(a.changedAxes) == multiset(b.changedAxes)
  {
    SortedEqualIffPermuted(a.changedAxes, b.changedAxes);
    assert ids.transition(TransitionIdentityOf(a)) == a.id && ids.transition(TransitionIdentityOf(b)) == b.id;
  }

  lemma ImageIsWritten(ids: Ids, cfg: Config, rows: seq<StateRow>, m: StateMap, k: string)
    requires Maps(ids, cfg, rows, m) && k in m
    ensures m[k] in IdsIn(RewriteStates(ids, cfg, rows))
  {
    var i :| 0 <= i < |rows| && rows[i].id == k;
    assert RewriteStates(ids, cfg, rows)[i].id == m[k];
  }

  /** Every row that a replay accepts belongs to its role, was bound to the old parent release
      and names a parent record whose bar is the verified one; and every row it writes
      carries the stable identity of its own content, with transitions between states
      that were written. */
  lemma ReplayedRowsAreBound(ids: Ids, r: RoleInput, out: RoleOutput, i: nat)
    requires RoleReplayed(ids, r, out, 0, 0)
    ensures |Flat(out.states)| == |Flat(r.states)| && |Flat(out.transitions)| == |Flat(r.transitions)|
    ensures i < |Flat(r.states)| ==>
      var (before, after) := (Flat(r.states)[i], Flat(out.states)[i]);
      && before.role == r.cfg.role && before.c1Release == r.cfg.v1Release && before.c1Manifest == r.cfg.v1Manifest
      && before.optARelease == r.cfg.optARelease && before.optAManifest == r.cfg.optAManifest
      && before.parentC1 in r.parents && r.parents[before.parentC1] == before.parentBar
      && before.id == ids.state(IdentityOf(before, before.c1Release)) && after.id == ids.state(IdentityOf(after, after.c1Release))
    ensures i < |Flat(r.transitions)| ==>
      var (before, after) := (Flat(r.transitions)[i], Flat(out.transitions)[i]);
      && before.role == r.cfg.role && after.id == ids.transition(TransitionIdentityOf(after))
      && after.fromState in IdsIn(Flat(out.states)) && after.toState in IdsIn(Flat(out.states))
  {
    var m := MapOf(ids, r);
    FlatRewritten(ids, r.cfg, r.states);
    if i < |Flat(r.states)| {
      assert StateChecks(ids, r.cfg, r.parents, Flat(r.states)[i]);
    }
    if i < |Flat(r.transitions)| {
      var row := Flat(r.transitions)[i];
      assert TransitionChecks(ids, r.cfg, m, row);
      ImageIsWritten(ids, r.cfg, Flat(r.states), m, row.fromState);
      ImageIsWritten(ids, r.cfg, Flat(r.states), m, row.toState);
    }
  }

  // ----- when a role is accepted -----

  /** The state is of this role and bound to its parents, under its content identity. */
  ghost predicate StateBound(ids: Ids, r: RoleInput, row: StateRow) {
    && row.role == r.cfg.role && row.c1Release == r.cfg.v1Release && row.c1Manifest == r.cfg.v1Manifest
    && row.optARelease == r.cfg.optARelease && row.optAManifest == r.cfg.optAManifest
    && row.parentC1 in r.parents && r.parents[row.parentC1] == row.parentBar
    && row.id == ids.state(IdentityOf(row, row.c1Release))
  }

  /** The transition is of this role and joins two of its states, under its content identity. */
  ghost predicate TransitionBound(ids: Ids, r: RoleInput, row: TransitionRow) {
    && row.role == r.cfg.role && row.id == ids.transition(TransitionIdentityOf(row))
    && (exists i :: 0 <= i < |Flat(r.states)| && Flat(r.states)[i].id == row.fromState)
    && exists i :: 0 <= i < |Flat(r.states)| && Flat(r.states)[i].id == row.toState
  }

  /** Six files of each kind with the declared numbers of well-bound rows, and no state twice. */
  ghost predicate WellBound(ids: Ids, r: RoleInput) {
    var (states, transitions) := (Flat(r.states), Flat(r.transitions));
    && |r.states| == 6 && |r.transitions| == 6 && |states| == r.cfg.stateRecords && |transitions| == r.cfg.transitionRecords
    && (forall i :: 0 <= i < |states| ==> StateBound(ids, r, states[i]))
    && (forall i, j :: 0 <= i < j < |states| ==> states[i].id != states[j].id)
    && forall i :: 0 <= i < |transitions| ==> TransitionBound(ids, r, transitions[i])
  }

  lemma BoundIffChecked(ids: Ids, r: RoleInput, m: StateMap, row: TransitionRow)
    requires Maps(ids, r.cfg, Flat(r.states), m)
    ensures TransitionBound(ids, r, row) <==> TransitionChecks(ids, r.cfg, m, row)
  {
    assert row.fromState in m <==> row.fromState in IdsIn(Flat(r.states));
    assert row.toState in m <==> row.toState in IdsIn(Flat(r.states));
  }

  lemma AdmissibleIffBound(ids: Ids, r: RoleInput)
    ensures RoleAdmissible(ids, r) <==> WellBound(ids, r)
  {
    var (rows, m) := (Flat(r.transitions), MapOf(ids, r));
    if DistinctStates(Flat(r.states)) {
      IdMapMaps(ids, r.cfg, Flat(r.states));
      forall i | 0 <= i < |rows| ensures TransitionBound(ids, r, rows[i]) <==> TransitionChecks(ids, r.cfg, m, rows[i]) {
        BoundIffChecked(ids, r, m, rows[i]);
      }
    }
  }

  lemma NothingUnchanged(ids: Ids, r: RoleInput)
    requires Distinguishing(ids) && RoleAdmissible(ids, r) && UnchangedStates(ids, r.cfg, Flat(r.states)) == 0
    ensures RoleAccepted(ids, r)
  {
    IdMapMaps(ids, r.cfg, Flat(r.states));
    StateMapIsBijection(ids, r.cfg, r.parents, Flat(r.states), MapOf(ids, r));
    NoTransitionUnchanged(ids, r.cfg, MapOf(ids, r), Flat(r.transitions));
  }

  /** A role is accepted if and only if its files and rows are as declared, and it has no
      states or the two parent releases differ: the final test for unchanged identities
      never refuses anything else. */
  lemma AcceptedIff(ids: Ids, r: RoleInput)
    requires Distinguishing(ids)
    ensures RoleAccepted(ids, r) <==>
      WellBound(ids, r) && (Flat(r.states) == [] || r.cfg.v1Release != r.cfg.v2Release)
  {
    AdmissibleIffBound(ids, r);
    if RoleAdmissible(ids, r) {
      var rows := Flat(r.states);
      if RoleAccepted(ids, r) && rows != [] {
        AcceptedReleasesDiffer(ids, r.cfg, r.parents, rows);
      } else if rows == [] {
        NothingUnchanged(ids, r);
      } else if r.cfg.v1Release != r.cfg.v2Release {
        DistinctReleasesChangeAll(ids, r.cfg, r.parents, rows);
        NothingUnchanged(ids, r);
      }
    }
  }
}

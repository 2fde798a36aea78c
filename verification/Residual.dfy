/** The stage-A residual fraction and its stratified deterministic shuffle. */
module Residual {
  import opened Common
  import opened Sorting
  import opened Dispersion

  /** A research record with the numeric value of the field under study, if any. */
  datatype Record = Record(id: string, side: string, slot: string, signature: string, value: Option<real>)

  type Override = Option<map<string, real>>

  // ----- which values are used -----

  function Chosen(r: Record, override: Override): Option<real> {
    if override.None? then r.value
    else if r.id in override.value then Some(override.value[r.id])
    else None
  }

  function Observe(records: seq<Record>, override: Override): seq<Observation> {
    if records == [] then []
    else
      var r := records[|records| - 1];
      var before := Observe(records[..|records| - 1], override);
      match Chosen(r, override)
      case None => before
      case Some(v) => before + [Observation(r.side, r.slot, r.signature, v)]
  }

  // ----- residual fraction -----

  /** A dictionary of lists, with its keys in insertion order. */
  datatype Table<!K(==)> = Table(keys: seq<K>, lists: map<K, seq<real>>)

  function Append<K(==)>(t: Table<K>, k: K, v: real): Table<K> {
    if k in t.lists then Table(t.keys, t.lists[k := t.lists[k] + [v]])
    else Table(t.keys + [k], t.lists[k := [v]])
  }

  ghost predicate Tabulates<K(!new)>(t: Table<K>, obs: seq<Observation>, key: Observation -> K) {
    && t.keys == Keys(obs, key)
    && (forall k :: k in t.lists <==> k in t.keys)
    && (forall k :: k in t.lists ==> t.lists[k] == Group(obs, key, k))
  }

  lemma {:induction false} GroupOutsideKeys<K>(obs: seq<Observation>, key: Observation -> K, k: K)
    requires k !in Keys(obs, key)
    ensures Group(obs, key, k) == []
  {
    if obs != [] {
      GroupOutsideKeys(obs[..|obs| - 1], key, k);
    }
  }

  lemma KeysAppend<K>(obs: seq<Observation>, o: Observation, key: Observation -> K)
    ensures Keys(obs + [o], key) ==
            if key(o) in Keys(obs, key) then Keys(obs, key) else Keys(obs, key) + [key(o)]
  {
    assert (obs + [o])[..|obs|] == obs;
  }

  lemma AppendTabulates<K(!new)>(t: Table<K>, obs: seq<Observation>, o: Observation, key: Observation -> K)
    requires Tabulates(t, obs, key)
    ensures Tabulates(Append(t, key(o), o.value), obs + [o], key)
  {
    var now := Append(t, key(o), o.value);
    KeysAppend(obs, o, key);
    forall k | k in now.lists ensures now.lists[k] == Group(obs + [o], key, k) {
      GroupAppend(obs, o, key, k);
      if k !in t.lists {
        GroupOutsideKeys(obs, key, k);
      }
    }
  }

  /** Total over the first `i` groups. */
  ghost function PartialSpread<K>(obs: seq<Observation>, key: Observation -> K, i: nat): real
    requires i <= |Keys(obs, key)|
  {
    OverGroups(obs, key, Keys(obs, key)[..i], AboutGroupMeans(obs, key))
  }

  lemma PartialSpreadStep<K(!new)>(t: Table<K>, obs: seq<Observation>, key: Observation -> K, i: nat)
    requires Tabulates(t, obs, key) && i < |t.keys|
    ensures t.keys[i] in t.lists
    ensures var item := Sse(t.lists[t.keys[i]]);
      PartialSpread(obs, key, i + 1) == PartialSpread(obs, key, i) + if item.Some? then item.value else 0.0
  {
    var (k, group) := (t.keys[i], Group(obs, key, t.keys[i]));
    assert k in t.keys;
    assert t.keys[..i + 1] == t.keys[..i] + [k];
    OverGroupsGrow(obs, key, t.keys[..i], k, AboutGroupMeans(obs, key));
    assert SumBy(group, AboutGroupMeans(obs, key)(k)) == SquaresAboutMean(group);
    SseOrZero(group);
  }

  lemma PartialSpreadEnds<K>(obs: seq<Observation>, key: Observation -> K)
    ensures PartialSpread(obs, key, 0) == 0.0
    ensures PartialSpread(obs, key, |Keys(obs, key)|) == Spread(obs, key)
  {
    var ks := Keys(obs, key);
    KeysAreDistinct(obs, key);
    Regroup(obs, key, ks, AboutGroupMeans(obs, key));
    assert ks[..|ks|] == ks;
  }

  method TotalSse<K(!new)>(t: Table<K>, ghost obs: seq<Observation>, ghost key: Observation -> K) returns (total: real)
    requires Tabulates(t, obs, key)
    ensures total == Spread(obs, key)
  {
    total := 0.0;
    PartialSpreadEnds(obs, key);
    for i := 0 to |t.keys|
      invariant total == PartialSpread(obs, key, i)
    {
      PartialSpreadStep(t, obs, key, i);
      var item := Sse(t.lists[t.keys[i]]);
      if item.Some? {
        total := total + item.value;
      }
    }
  }

  /** A quotient of ordered non-negative reals lies in the unit interval. */
  lemma QuotientInUnitInterval(x: real, y: real)
    requires 0.0 <= x <= y && y != 0.0
    ensures 0.0 <= x / y <= 1.0
  {
  }

  lemma ZeroQuotient(x: real, y: real)
    requires y != 0.0
    ensures x / y == 0.0 <==> x == 0.0
  {
  }

  lemma CellsRefineStrata(obs: seq<Observation>)
    ensures 0.0 <= Spread(obs, CellOf) <= Spread(obs, StratumOf)
  {
    FinerSpreadIsSmaller(obs, CellOf, StratumOf, (k: (Stratum, string)) => k.0);
  }

  /** Records of the same side and slot, and of the same signature if that is asked for,
      have the same value. */
  ghost predicate SameValues(records: seq<Record>, override: Override, bySignature: bool) {
    forall i, j ::
      && 0 <= i < |records| && 0 <= j < |records| && records[i].side == records[j].side && records[i].slot == records[j].slot
      && (bySignature ==> records[i].signature == records[j].signature)
      && Chosen(records[i], override).Some? && Chosen(records[j], override).Some?
      ==> Chosen(records[i], override) == Chosen(records[j], override)
  }

  ghost predicate Observed(r: Record, override: Override, o: Observation) {
    r.side == o.side && r.slot == o.slot && r.signature == o.signature && Chosen(r, override) == Some(o.value)
  }

  lemma {:induction false} ObserveIs(records: seq<Record>, override: Override, o: Observation)
    ensures o in Observe(records, override) <==> exists i :: 0 <= i < |records| && Observed(records[i], override, o)
  {
    if records != [] {
      var n := |records| - 1;
      ObserveIs(records[..n], override, o);
      assert forall i :: 0 <= i < n ==> records[..n][i] == records[i];
    }
  }

  lemma SameValuesIffFlat<K>(records: seq<Record>, override: Override, key: Observation -> K, bySignature: bool)
    requires forall o, p :: key(o) == key(p) <==>
      o.side == p.side && o.slot == p.slot && (bySignature ==> o.signature == p.signature)
    ensures FlatWithin(Observe(records, override), key) <==> SameValues(records, override, bySignature)
  {
    var obs := Observe(records, override);
    if FlatWithin(obs, key) {
      forall i, j |
        && 0 <= i < |records| && 0 <= j < |records| && records[i].side == records[j].side && records[i].slot == records[j].slot
        && (bySignature ==> records[i].signature == records[j].signature)
        && Chosen(records[i], override).Some? && Chosen(records[j], override).Some?
        ensures Chosen(records[i], override) == Chosen(records[j], override)
      {
        var (r, q) := (records[i], records[j]);
        var o := Observation(r.side, r.slot, r.signature, Chosen(r, override).value);
        var p := Observation(q.side, q.slot, q.signature, Chosen(q, override).value);
        assert Observed(r, override, o) && Observed(q, override, p);
        ObserveIs(records, override, o);
        ObserveIs(records, override, p);
        var a :| 0 <= a < |obs| && obs[a] == o;
        var b :| 0 <= b < |obs| && obs[b] == p;
        assert key(obs[a]) == key(obs[b]);
      }
    }
    if SameValues(records, override, bySignature) {
      forall a, b | 0 <= a < |obs| && 0 <= b < |obs| && key(obs[a]) == key(obs[b]) ensures obs[a].value == obs[b].value {
        ObserveIs(records, override, obs[a]);
        ObserveIs(records, override, obs[b]);
        var i :| 0 <= i < |records| && Observed(records[i], override, obs[a]);
        var j :| 0 <= j < |records| && Observed(records[j], override, obs[b]);
      }
    }
  }

  /** The two spreads vanish exactly when values agree within side and slot, and within side,
      slot and signature. */
  lemma SpreadsVanish(records: seq<Record>, override: Override)
    ensures Spread(Observe(records, override), StratumOf) == 0.0 <==> SameValues(records, override, false)
    ensures Spread(Observe(records, override), CellOf) == 0.0 <==> SameValues(records, override, true)
  {
    var obs := Observe(records, override);
    ZeroSpreadIffFlat(obs, StratumOf);
    ZeroSpreadIffFlat(obs, CellOf);
    SameValuesIffFlat(records, override, StratumOf, false);
    SameValuesIffFlat(records, override, CellOf, true);
  }

  /** The fraction is the within-cell spread over the within-stratum spread and lies in
      [0, 1]; it is undefined exactly when values agree within each side and slot, and
      zero exactly when they do within each side, slot and signature. */
  method ResidualFraction(records: seq<Record>, override: Override) returns (fraction: Option<real>, n: nat)
    ensures n == |Observe(records, override)|
    ensures var obs := Observe(records, override);
      if Spread(obs, StratumOf) == 0.0 then fraction == None
      else fraction == Some(Spread(obs, CellOf) / Spread(obs, StratumOf))
    ensures fraction.Some? ==> 0.0 <= fraction.value <= 1.0
    ensures fraction.None? <==> SameValues(records, override, false)
    ensures fraction.Some? ==> (fraction.value == 0.0 <==> SameValues(records, override, true))
  {
    var base: Table<Stratum> := Table([], map[]);
    var conditional: Table<(Stratum, string)> := Table([], map[]);
    n := 0;
    for i := 0 to |records|
      invariant n == |Observe(records[..i], override)|
      invariant Tabulates(base, Observe(records[..i], override), StratumOf)
      invariant Tabulates(conditional, Observe(records[..i], override), CellOf)
    {
      assert records[..i + 1][..i] == records[..i];
      var record := records[i];
      var value := Chosen(record, override);
      if value.Some? {
        var o := Observation(record.side, record.slot, record.signature, value.value);
        AppendTabulates(base, Observe(records[..i], override), o, StratumOf);
        AppendTabulates(conditional, Observe(records[..i], override), o, CellOf);
        base := Append(base, (record.side, record.slot), value.value);
        conditional := Append(conditional, ((record.side, record.slot), record.signature), value.value);
        n := n + 1;
      }
    }
    assert records[..|records|] == records;
    ghost var obs := Observe(records, override);
    var denominator := TotalSse(base, obs, StratumOf);
    var numerator := TotalSse(conditional, obs, CellOf);
    if denominator == 0.0 {
      SpreadsVanish(records, override);
      return None, n;
    }
    CellsRefineStrata(obs);
    QuotientInUnitInterval(numerator, denominator);
    SpreadsVanish(records, override);
    ZeroQuotient(numerator, denominator);
    fraction := Some(numerator / denominator);
  }

  // ----- deterministic shuffle -----

  type Entry = (string, real)

  const SEED := "MCARB.STAGEA.SHUFFLE.v1"

  predicate SourceLe(a: Entry, b: Entry) { LexLe(a.0, b.0) }

  function TargetLe(digest: string -> string): (Entry, Entry) -> bool {
    (a: Entry, b: Entry) =>
      var (x, y) := (digest(a.0 + SEED), digest(b.0 + SEED));
      if x == y then LexLe(a.0, b.0) else LexLe(x, y)
  }

  /** The valued records of a stratum, in record order. */
  function Members(records: seq<Record>, k: Stratum): seq<Entry> {
    if records == [] then []
    else
      var r := records[|records| - 1];
      var before := Members(records[..|records| - 1], k);
      if r.value.Some? && (r.side, r.slot) == k then before + [(r.id, r.value.value)] else before
  }

  /** Give the i-th target identifier the i-th source value. */
  function Deal(targets: seq<Entry>, source: seq<Entry>): map<string, real>
    requires |targets| == |source|
  {
    if targets == [] then map[]
    else
      var n := |targets| - 1;
      Deal(targets[..n], source[..n])[targets[n].0 := source[n].1]
  }

  function ShuffleStratum(members: seq<Entry>, digest: string -> string): map<string, real> {
    SortByContents(members, TargetLe(digest));
    SortByContents(members, SourceLe);
    Deal(SortBy(members, TargetLe(digest)), SortBy(members, SourceLe))
  }

  function ShuffleStrata(records: seq<Record>, ks: seq<Stratum>, digest: string -> string): map<string, real> {
    if ks == [] then map[]
    else
      var n := |ks| - 1;
      ShuffleStrata(records, ks[..n], digest) + ShuffleStratum(Members(records, ks[n]), digest)
  }

  function Strata(records: seq<Record>): seq<Stratum> { Keys(Observe(records, None), StratumOf) }

  function Shuffle(records: seq<Record>, digest: string -> string): map<string, real> {
    ShuffleStrata(records, Strata(records), digest)
  }

  ghost predicate Gathers(keys: seq<Stratum>, strata: map<Stratum, seq<Entry>>, records: seq<Record>) {
    && keys == Strata(records)
    && (forall k :: k in strata <==> k in keys)
    && (forall k :: Members(records, k) == if k in strata then strata[k] else [])
  }

  lemma MembersAppend(records: seq<Record>, r: Record, k: Stratum)
    ensures Members(records + [r], k) ==
            if r.value.Some? && (r.side, r.slot) == k then Members(records, k) + [(r.id, r.value.value)]
            else Members(records, k)
  {
  }

  lemma StrataAppend(records: seq<Record>, r: Record)
    ensures Strata(records + [r]) ==
            if r.value.Some? && (r.side, r.slot) !in Strata(records) then Strata(records) + [(r.side, r.slot)]
            else Strata(records)
  {
  }

  method GatherStrata(records: seq<Record>) returns (keys: seq<Stratum>, strata: map<Stratum, seq<Entry>>)
    ensures Gathers(keys, strata, records)
  {
    keys, strata := [], map[];
    for i := 0 to |records|
      invariant Gathers(keys, strata, records[..i])
    {
      var record := records[i];
      assert records[..i + 1] == records[..i] + [record];
      StrataAppend(records[..i], record);
      forall k {
        MembersAppend(records[..i], record, k);
      }
      if record.value.Some? {
        var k := (record.side, record.slot);
        var entry := (record.id, record.value.value);
        if k in strata {
          strata := strata[k := strata[k] + [entry]];
        } else {
          keys := keys + [k];
          strata := strata[k := [entry]];
        }
      }
    }
    assert records[..|records|] == records;
  }

  method DealAll(targets: seq<Entry>, source: seq<Entry>) returns (dealt: map<string, real>)
    requires |targets| == |source|
    ensures dealt == Deal(targets, source)
  {
    dealt := map[];
    for i := 0 to |targets|
      invariant dealt == Deal(targets[..i], source[..i])
    {
      assert targets[..i + 1][..i] == targets[..i] && source[..i + 1][..i] == source[..i];
      dealt := dealt[targets[i].0 := source[i].1];
    }
    assert targets[..|targets|] == targets && source[..|source|] == source;
  }

  lemma ShuffleStrataAppend(records: seq<Record>, ks: seq<Stratum>, i: nat, digest: string -> string)
    requires i < |ks|
    ensures ShuffleStrata(records, ks[..i + 1], digest) ==
            ShuffleStrata(records, ks[..i], digest) + ShuffleStratum(Members(records, ks[i]), digest)
  {
    assert ks[..i + 1][..i] == ks[..i];
  }

  method ShuffleValues(values: seq<Entry>, digest: string -> string) returns (dealt: map<string, real>)
    ensures dealt == ShuffleStratum(values, digest)
  {
    SortByContents(values, SourceLe);
    SortByContents(values, TargetLe(digest));
    dealt := DealAll(SortBy(values, TargetLe(digest)), SortBy(values, SourceLe));
  }

  method DeterministicShuffle(records: seq<Record>, digest: string -> string) returns (result: map<string, real>)
    ensures result == Shuffle(records, digest)
  {
    var keys, strata := GatherStrata(records);
    result := map[];
    for i := 0 to |keys|
      invariant result == ShuffleStrata(records, keys[..i], digest)
    {
      ShuffleStrataAppend(records, keys, i, digest);
      assert keys[i] in keys;
      var dealt := ShuffleValues(strata[keys[i]], digest);
      result := result + dealt;
    }
    assert keys[..|keys|] == keys;
  }

  // ----- the shuffle permutes the values of every stratum -----

  ghost predicate DistinctIds(records: seq<Record>) {
    forall i, j :: 0 <= i < j < |records| ==> records[i].id != records[j].id
  }

  ghost predicate EntryIdsDistinct(xs: seq<Entry>) {
    forall i, j :: 0 <= i < j < |xs| ==> xs[i].0 != xs[j].0
  }

  function IdOf(): Entry -> string { (e: Entry) => e.0 }

  /** Looking a dealt value up finds the source at the same position. */
  lemma {:induction false} DealLooksUp(targets: seq<Entry>, source: seq<Entry>, i: nat)
    requires |targets| == |source| && EntryIdsDistinct(targets) && i < |targets|
    ensures targets[i].0 in Deal(targets, source) && Deal(targets, source)[targets[i].0] == source[i].1
  {
    var n := |targets| - 1;
    if i < n {
      DealLooksUp(targets[..n], source[..n], i);
    }
  }

  lemma {:induction false} DealKeys(targets: seq<Entry>, source: seq<Entry>, id: string)
    requires |targets| == |source|
    ensures id in Deal(targets, source) <==> exists i :: 0 <= i < |targets| && targets[i].0 == id
  {
    if targets != [] {
      var n := |targets| - 1;
      DealKeys(targets[..n], source[..n], id);
      assert forall i :: 0 <= i < n ==> targets[..n][i] == targets[i];
    }
  }

  function Via(m: map<string, real>): Entry -> real {
    (e: Entry) => if e.0 in m then m[e.0] else 0.0
  }

  function OwnValue(): Entry -> real { (e: Entry) => e.1 }

  lemma DealtValues(targets: seq<Entry>, source: seq<Entry>)
    requires |targets| == |source| && EntryIdsDistinct(targets)
    ensures MapOver(targets, Via(Deal(targets, source))) == MapOver(source, OwnValue())
  {
    var m := Deal(targets, source);
    forall i | 0 <= i < |targets| ensures MapOver(targets, Via(m))[i] == MapOver(source, OwnValue())[i] {
      DealLooksUp(targets, source, i);
      MapOverAt(targets, Via(m), i);
      MapOverAt(source, OwnValue(), i);
    }
  }

  /** Within a stratum the shuffle is a rearrangement of the values. */
  lemma ShuffleStratumPermutes(members: seq<Entry>, digest: string -> string)
    requires EntryIdsDistinct(members)
    ensures multiset(MapOver(members, Via(ShuffleStratum(members, digest)))) == multiset(MapOver(members, OwnValue()))
  {
    var (targets, source) := (SortBy(members, TargetLe(digest)), SortBy(members, SourceLe));
    SortByContents(members, TargetLe(digest));
    SortByContents(members, SourceLe);
    SortKeepsDistinct(members, IdOf(), TargetLe(digest));
    DealtValues(targets, source);
    SortMapped(members, TargetLe(digest), Via(Deal(targets, source)));
    SortMapped(members, SourceLe, OwnValue());
  }

  lemma ShuffleStratumKeys(members: seq<Entry>, digest: string -> string, id: string)
    ensures id in ShuffleStratum(members, digest) <==> exists e :: e in members && e.0 == id
  {
    var (targets, source) := (SortBy(members, TargetLe(digest)), SortBy(members, SourceLe));
    SortByContents(members, TargetLe(digest));
    SortByContents(members, SourceLe);
    DealKeys(targets, source, id);
    if id in ShuffleStratum(members, digest) {
      var i :| 0 <= i < |targets| && targets[i].0 == id;
      SameElements(members, targets, targets[i]);
    }
    if e :| e in members && e.0 == id {
      SameElements(members, targets, e);
      assert e in targets;
    }
  }

  // ----- strata do not interfere -----

  ghost predicate Enters(r: Record, k: Stratum, e: Entry) {
    r.value == Some(e.1) && r.id == e.0 && (r.side, r.slot) == k
  }

  lemma {:induction false} MembersAre(records: seq<Record>, k: Stratum, e: Entry)
    ensures e in Members(records, k) <==> exists i :: 0 <= i < |records| && Enters(records[i], k, e)
  {
    if records != [] {
      var n := |records| - 1;
      MembersAre(records[..n], k, e);
      assert forall i :: 0 <= i < n ==> records[..n][i] == records[i];
    }
  }

  /** An identifier belongs to one stratum only. */
  lemma OneStratum(records: seq<Record>, k: Stratum, l: Stratum, e: Entry, f: Entry)
    requires DistinctIds(records) && e in Members(records, k) && f in Members(records, l) && e.0 == f.0
    ensures k == l && e == f
  {
    MembersAre(records, k, e);
    MembersAre(records, l, f);
    var i :| 0 <= i < |records| && Enters(records[i], k, e);
    var j :| 0 <= j < |records| && Enters(records[j], l, f);
    assert i == j;
  }

  lemma {:induction false} MembersDistinct(records: seq<Record>, k: Stratum)
    requires DistinctIds(records)
    ensures EntryIdsDistinct(Members(records, k))
  {
    if records != [] {
      var n := |records| - 1;
      MembersDistinct(records[..n], k);
      forall e | e in Members(records[..n], k) ensures e.0 != records[n].id {
        MembersAre(records[..n], k, e);
      }
    }
  }

  lemma ForeignStratum(records: seq<Record>, digest: string -> string, k: Stratum, l: Stratum, e: Entry)
    requires DistinctIds(records) && e in Members(records, k)
    ensures e.0 in ShuffleStratum(Members(records, l), digest) <==> k == l
  {
    ShuffleStratumKeys(Members(records, l), digest, e.0);
    if e.0 in ShuffleStratum(Members(records, l), digest) {
      var f :| f in Members(records, l) && f.0 == e.0;
      OneStratum(records, k, l, e, f);
    }
  }

  lemma {:induction false} ShuffleStrataAt(
    records: seq<Record>, ks: seq<Stratum>, digest: string -> string, k: Stratum, e: Entry)
    requires DistinctIds(records) && e in Members(records, k)
    ensures e.0 in ShuffleStrata(records, ks, digest) <==> k in ks
    ensures k in ks ==>
      Via(ShuffleStrata(records, ks, digest))(e) == Via(ShuffleStratum(Members(records, k), digest))(e)
  {
    if ks != [] {
      var n := |ks| - 1;
      ShuffleStrataAt(records, ks[..n], digest, k, e);
      ForeignStratum(records, digest, k, ks[n], e);
      assert k in ks <==> k in ks[..n] || k == ks[n];
    }
  }

  lemma {:induction false} ShuffleStrataOutside(records: seq<Record>, ks: seq<Stratum>, digest: string -> string, id: string)
    requires id in ShuffleStrata(records, ks, digest)
    ensures exists k, e :: e in Members(records, k) && e.0 == id
  {
    var n := |ks| - 1;
    if id in ShuffleStratum(Members(records, ks[n]), digest) {
      ShuffleStratumKeys(Members(records, ks[n]), digest, id);
    } else {
      ShuffleStrataOutside(records, ks[..n], digest, id);
    }
  }

  lemma {:induction false} MemberStrataAreKeys(records: seq<Record>, k: Stratum)
    requires Members(records, k) != []
    ensures k in Strata(records)
  {
    var n := |records| - 1;
    assert records == records[..n] + [records[n]];
    MembersAppend(records[..n], records[n], k);
    StrataAppend(records[..n], records[n]);
    if Members(records[..n], k) != [] {
      MemberStrataAreKeys(records[..n], k);
    }
  }

  lemma {:induction false} MapOverAgrees(xs: seq<Entry>, f: Entry -> real, g: Entry -> real)
    requires forall e :: e in xs ==> f(e) == g(e)
    ensures MapOver(xs, f) == MapOver(xs, g)
  {
    if xs != [] {
      MapOverAgrees(xs[..|xs| - 1], f, g);
      assert xs[|xs| - 1] in xs;
    }
  }

  lemma ShufflePermutesMembers(records: seq<Record>, digest: string -> string, k: Stratum)
    requires DistinctIds(records)
    ensures var members := Members(records, k);
      multiset(MapOver(members, Via(Shuffle(records, digest)))) == multiset(MapOver(members, OwnValue()))
  {
    var members := Members(records, k);
    if members != [] {
      MemberStrataAreKeys(records, k);
      forall e | e in members ensures Via(Shuffle(records, digest))(e) == Via(ShuffleStratum(members, digest))(e) {
        ShuffleStrataAt(records, Strata(records), digest, k, e);
      }
      MapOverAgrees(members, Via(Shuffle(records, digest)), Via(ShuffleStratum(members, digest)));
      MembersDistinct(records, k);
      ShuffleStratumPermutes(members, digest);
    }
  }

  /** The shuffle gives a value to exactly the records that had one. */
  lemma ShuffleCovers(records: seq<Record>, digest: string -> string, i: nat)
    requires DistinctIds(records) && i < |records|
    ensures records[i].id in Shuffle(records, digest) <==> records[i].value.Some?
  {
    var r := records[i];
    if r.value.Some? {
      var k := (r.side, r.slot);
      assert Enters(r, k, (r.id, r.value.value));
      MembersAre(records, k, (r.id, r.value.value));
      MemberStrataAreKeys(records, k);
      ShuffleStrataAt(records, Strata(records), digest, k, (r.id, r.value.value));
    } else if r.id in Shuffle(records, digest) {
      ShuffleStrataOutside(records, Strata(records), digest, r.id);
      var k, e :| e in Members(records, k) && e.0 == r.id;
      MembersAre(records, k, e);
    }
  }

  // ----- which value the shuffle deals to whom -----

  /** The entries with a smaller (digest, identifier) pair. */
  function DigestBefore(digest: string -> string, e: Entry): Entry -> bool {
    (x: Entry) =>
      var (a, b) := (digest(x.0 + "MCARB.STAGEA.SHUFFLE.v1"), digest(e.0 + "MCARB.STAGEA.SHUFFLE.v1"));
      if a == b then x.0 != e.0 && LexLe(x.0, e.0) else LexLe(a, b)
  }

  /** The entries with a smaller identifier. */
  function IdBefore(e: Entry): Entry -> bool { (x: Entry) => x.0 != e.0 && LexLe(x.0, e.0) }

  lemma TargetLeIsTotal(digest: string -> string, x: Entry, y: Entry)
    ensures TargetLe(digest)(x, y) || TargetLe(digest)(y, x)
  {
    LexTotal(x.0, y.0);
    LexTotal(digest(x.0 + SEED), digest(y.0 + SEED));
  }

  lemma TargetLeIsTransitive(digest: string -> string, x: Entry, y: Entry, z: Entry)
    requires TargetLe(digest)(x, y) && TargetLe(digest)(y, z)
    ensures TargetLe(digest)(x, z)
  {
    var (a, b, c) := (digest(x.0 + SEED), digest(y.0 + SEED), digest(z.0 + SEED));
    if a == b == c {
      LexTransitive(x.0, y.0, z.0);
    } else if a != b && b != c {
      LexTransitive(a, b, c);
      if a == c {
        LexAntisymmetric(a, b);
      }
    }
  }

  lemma TargetLeIsTotalPreorder(digest: string -> string)
    ensures TotalPreorder(TargetLe(digest))
  {
    forall x, y ensures TargetLe(digest)(x, y) || TargetLe(digest)(y, x) {
      TargetLeIsTotal(digest, x, y);
    }
    forall x, y, z | TargetLe(digest)(x, y) && TargetLe(digest)(y, z) ensures TargetLe(digest)(x, z) {
      TargetLeIsTransitive(digest, x, y, z);
    }
  }

  lemma SourceLeIsTotalPreorder()
    ensures TotalPreorder(SourceLe)
  {
    LexIsTotalPreorder();
  }

  lemma BeforeInTargets(digest: string -> string, x: Entry, y: Entry)
    requires x.0 != y.0
    ensures TargetLe(digest)(x, y) ==> DigestBefore(digest, y)(x) && !DigestBefore(digest, x)(y)
  {
    if TargetLe(digest)(x, y) {
      if LexLe(y.0, x.0) && LexLe(x.0, y.0) {
        LexAntisymmetric(x.0, y.0);
      }
      var (a, b) := (digest(x.0 + SEED), digest(y.0 + SEED));
      if a != b && LexLe(b, a) && LexLe(a, b) {
        LexAntisymmetric(a, b);
      }
    }
  }

  lemma BeforeInSource(x: Entry, y: Entry)
    requires x.0 != y.0
    ensures SourceLe(x, y) ==> IdBefore(y)(x) && !IdBefore(x)(y)
  {
    if LexLe(x.0, y.0) && LexLe(y.0, x.0) {
      LexAntisymmetric(x.0, y.0);
    }
  }

  lemma TargetPosition(members: seq<Entry>, digest: string -> string, i: nat)
    requires EntryIdsDistinct(members) && i < |SortBy(members, TargetLe(digest))|
    ensures CountIf(members, DigestBefore(digest, SortBy(members, TargetLe(digest))[i])) == i
  {
    var targets := SortBy(members, TargetLe(digest));
    TargetLeIsTotalPreorder(digest);
    SortBySorts(members, TargetLe(digest));
    SortKeepsDistinct(members, IdOf(), TargetLe(digest));
    forall j | 0 <= j < |targets| ensures DigestBefore(digest, targets[i])(targets[j]) <==> j < i {
      if j != i {
        assert IdOf()(targets[if j < i then j else i]) != IdOf()(targets[if j < i then i else j]);
        BeforeInTargets(digest, targets[i], targets[j]);
        BeforeInTargets(digest, targets[j], targets[i]);
      }
    }
    SortedPosition(members, TargetLe(digest), DigestBefore(digest, targets[i]), i);
  }

  lemma SourcePosition(members: seq<Entry>, i: nat)
    requires EntryIdsDistinct(members) && i < |SortBy(members, SourceLe)|
    ensures CountIf(members, IdBefore(SortBy(members, SourceLe)[i])) == i
  {
    var source := SortBy(members, SourceLe);
    SourceLeIsTotalPreorder();
    SortBySorts(members, SourceLe);
    SortKeepsDistinct(members, IdOf(), SourceLe);
    forall j | 0 <= j < |source| ensures IdBefore(source[i])(source[j]) <==> j < i {
      if j != i {
        assert IdOf()(source[if j < i then j else i]) != IdOf()(source[if j < i then i else j]);
        BeforeInSource(source[i], source[j]);
        BeforeInSource(source[j], source[i]);
      }
    }
    SortedPosition(members, SourceLe, IdBefore(source[i]), i);
  }

  lemma StratumDealsByRank(members: seq<Entry>, digest: string -> string, e: Entry, f: Entry)
    requires EntryIdsDistinct(members) && e in members && f in members
    requires CountIf(members, DigestBefore(digest, e)) == CountIf(members, IdBefore(f))
    ensures Via(ShuffleStratum(members, digest))(e) == f.1
  {
    var (targets, source) := (SortBy(members, TargetLe(digest)), SortBy(members, SourceLe));
    SortByContents(members, TargetLe(digest));
    SortByContents(members, SourceLe);
    SameElements(members, targets, e);
    SameElements(members, source, f);
    var i :| 0 <= i < |targets| && targets[i] == e;
    var j :| 0 <= j < |source| && source[j] == f;
    TargetPosition(members, digest, i);
    SourcePosition(members, j);
    SortKeepsDistinct(members, IdOf(), TargetLe(digest));
    assert EntryIdsDistinct(targets) by {
      forall a, b | 0 <= a < b < |targets| ensures targets[a].0 != targets[b].0 {
        assert IdOf()(targets[a]) != IdOf()(targets[b]);
      }
    }
    DealLooksUp(targets, source, i);
  }

  /** The shuffle deals by rank: within a stratum, the record with k smaller
      (digest, identifier) pairs gets the value of the record with k smaller identifiers. */
  lemma ShuffleDealsByRank(records: seq<Record>, digest: string -> string, k: Stratum, e: Entry, f: Entry)
    requires DistinctIds(records) && e in Members(records, k) && f in Members(records, k)
    requires CountIf(Members(records, k), DigestBefore(digest, e)) == CountIf(Members(records, k), IdBefore(f))
    ensures e.0 in Shuffle(records, digest) && Shuffle(records, digest)[e.0] == f.1
  {
    MemberStrataAreKeys(records, k);
    ShuffleStrataAt(records, Strata(records), digest, k, e);
    MembersDistinct(records, k);
    StratumDealsByRank(Members(records, k), digest, e, f);
  }

  // ----- what the shuffled statistics keep -----

  ghost predicate Covers(m: map<string, real>, records: seq<Record>) {
    forall i :: 0 <= i < |records| ==> (records[i].id in m <==> records[i].value.Some?)
  }

  /** Overriding values changes neither which records count nor their strata. */
  lemma {:induction false} ObserveOverridden(records: seq<Record>, m: map<string, real>, k: Stratum)
    requires Covers(m, records)
    ensures |Observe(records, Some(m))| == |Observe(records, None)|
    ensures Keys(Observe(records, Some(m)), StratumOf) == Keys(Observe(records, None), StratumOf)
    ensures Group(Observe(records, None), StratumOf, k) == MapOver(Members(records, k), OwnValue())
    ensures Group(Observe(records, Some(m)), StratumOf, k) == MapOver(Members(records, k), Via(m))
  {
    if records != [] {
      var n := |records| - 1;
      var r := records[n];
      ObserveOverridden(records[..n], m, k);
      if r.value.Some? {
        var own := Observation(r.side, r.slot, r.signature, r.value.value);
        var dealt := Observation(r.side, r.slot, r.signature, m[r.id]);
      }
    }
  }

  lemma {:induction false} SameGroupsSameTotal(a: seq<Observation>, b: seq<Observation>, ks: seq<Stratum>)
    requires forall k :: multiset(Group(a, StratumOf, k)) == multiset(Group(b, StratumOf, k))
    ensures OverGroups(a, StratumOf, ks, AboutGroupMeans(a, StratumOf)) ==
            OverGroups(b, StratumOf, ks, AboutGroupMeans(b, StratumOf))
  {
    if ks != [] {
      var n := |ks| - 1;
      SameGroupsSameTotal(a, b, ks[..n]);
      SquaresPermute(Group(a, StratumOf, ks[n]), Group(b, StratumOf, ks[n]));
    }
  }

  lemma SpreadIsGrouped(obs: seq<Observation>)
    ensures Spread(obs, StratumOf) == OverGroups(obs, StratumOf, Keys(obs, StratumOf), AboutGroupMeans(obs, StratumOf))
  {
    KeysAreDistinct(obs, StratumOf);
    Regroup(obs, StratumOf, Keys(obs, StratumOf), AboutGroupMeans(obs, StratumOf));
  }

  /** The shuffled control keeps the sample size, the values of every stratum and
      hence the denominator of the residual fraction. */
  lemma ShuffleKeepsDenominator(records: seq<Record>, digest: string -> string)
    requires DistinctIds(records)
    ensures var (own, shuffled) := (Observe(records, None), Observe(records, Some(Shuffle(records, digest))));
      && |shuffled| == |own|
      && (forall k :: multiset(Group(shuffled, StratumOf, k)) == multiset(Group(own, StratumOf, k)))
      && Spread(shuffled, StratumOf) == Spread(own, StratumOf)
  {
    var m := Shuffle(records, digest);
    var (own, shuffled) := (Observe(records, None), Observe(records, Some(m)));
    forall i | 0 <= i < |records| ensures records[i].id in m <==> records[i].value.Some? {
      ShuffleCovers(records, digest, i);
    }
    forall k ensures multiset(Group(shuffled, StratumOf, k)) == multiset(Group(own, StratumOf, k)) {
      ObserveOverridden(records, m, k);
      ShufflePermutesMembers(records, digest, k);
    }
    ObserveOverridden(records, m, ("", ""));
    SameGroupsSameTotal(shuffled, own, Keys(own, StratumOf));
    SpreadIsGrouped(own);
    SpreadIsGrouped(shuffled);
  }

  // ----- the records the program builds -----

  /** The content of a record that its identifier is a digest of; `fields` holds the
      text of every field that is not null. */
  datatype Core = Core(
    side: string, slot: string, start: string, signature: string, fields: map<string, string>, lineage: string)

  /** `numeric_value` is a parameter: it may refuse a text. */
  function RecordFor(core: Core, field: string, hash: Core -> string, numeric: string -> Option<real>): Record {
    Record("MCARB.STAGEA.RECORD." + hash(core), core.side, core.slot, core.signature,
           if field in core.fields then numeric(core.fields[field]) else None)
  }

  function Built(cores: seq<Core>, field: string, hash: Core -> string, numeric: string -> Option<real>): (rs: seq<Record>)
    ensures |rs| == |cores| && forall i :: 0 <= i < |rs| ==> rs[i] == RecordFor(cores[i], field, hash, numeric)
  {
    seq(|cores|, i requires 0 <= i < |cores| => RecordFor(cores[i], field, hash, numeric))
  }

  /** A side observes each bar once. */
  ghost predicate ObservedOnce(cores: seq<Core>) {
    forall i, j :: 0 <= i < j < |cores| ==> cores[i].side != cores[j].side || cores[i].start != cores[j].start
  }

  lemma SamePrefix(prefix: string, a: string, b: string)
    ensures prefix + a == prefix + b <==> a == b
  {
    assert (prefix + a)[|prefix|..] == a && (prefix + b)[|prefix|..] == b;
  }

  /** Identifiers are distinct in every list the program can build. */
  lemma BuiltIdsDiffer(cores: seq<Core>, field: string, hash: Core -> string, numeric: string -> Option<real>)
    requires CollisionFree(hash) && ObservedOnce(cores)
    ensures DistinctIds(Built(cores, field, hash, numeric))
  {
    var records := Built(cores, field, hash, numeric);
    forall i, j | 0 <= i < j < |records| ensures records[i].id != records[j].id {
      assert hash(cores[i]) != hash(cores[j]);
      SamePrefix("MCARB.STAGEA.RECORD.", hash(cores[i]), hash(cores[j]));
    }
  }

  /** So for every list the program can build, and every field, the shuffled control
      deals a permutation within each stratum, and the residual fraction keeps its n
      and its denominator. */
  lemma ControlIsFair(
    cores: seq<Core>, field: string, hash: Core -> string, numeric: string -> Option<real>, digest: string -> string)
    requires CollisionFree(hash) && ObservedOnce(cores)
    ensures var records := Built(cores, field, hash, numeric);
      var (own, shuffled) := (Observe(records, None), Observe(records, Some(Shuffle(records, digest))));
      && |shuffled| == |own|
      && (forall k :: multiset(Group(shuffled, StratumOf, k)) == multiset(Group(own, StratumOf, k)))
      && Spread(shuffled, StratumOf) == Spread(own, StratumOf)
  {
    BuiltIdsDiffer(cores, field, hash, numeric);
    ShuffleKeepsDenominator(Built(cores, field, hash, numeric), digest);
  }
}

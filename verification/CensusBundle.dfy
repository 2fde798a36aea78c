/** The census bundle: objects split into ledgers of eighteen, each named by path,
    digest and size in a manifest that hashes itself; and the sealed reader that
    checks everything and puts the objects together again. */
module CensusBundle {
  import opened Common
  import opened Numerals

  datatype Source = Source(path: string, detail: string)

  datatype Item = Item(
    objectId: string, kind: string, classification: string, sourceCount: nat,
    sourceSet: string, primary: Source, successors: seq<string>, detail: string)

  datatype Object = Object(
    objectId: string, kind: string, classification: string, sourceCount: nat,
    sourceSet: string, primaryPath: string, successors: seq<string>)

  /** `slim_object` */
  function SlimObject(item: Item): Object {
    Object(item.objectId, item.kind, item.classification, item.sourceCount,
           item.sourceSet, item.primary.path, item.successors)
  }

  /** The materialised census; `objectCount` is a field of its own there. */
  datatype Census = Census(
    head: string, packet: string, gate: string, objectCount: int, items: seq<Item>,
    exclusions: seq<string>, lineage: seq<string>, coverage: string, unresolved: int)

  datatype Ref = Ref(path: string, sha256: string, bytes: nat)

  datatype LedgerRef = LedgerRef(ref: Ref, objectCount: int, startIndex: int)

  datatype CountRef = CountRef(ref: Ref, count: int)

  datatype Manifest = Manifest(
    head: string, packet: string, gate: string, objectCount: int, ledgers: seq<LedgerRef>,
    exclusion: CountRef, lineage: CountRef, coverage: CountRef, childIdentity: string)

  /** The JSON documents of the bundle. */
  datatype Doc =
    | ObjectLedger(packet: string, gate: string, chunkIndex: int, startIndex: int, objectCount: int, objects: seq<Object>)
    | EntryLedger(schema: string, packet: string, gate: string, entryCount: int, entries: seq<string>)
    | CoverageLedger(packet: string, gate: string, coverage: string, unresolvedCount: int)
    | Signed(manifest: Manifest, bundleHash: string)

  /** JSON, ASCII and the hashes: indented rendering and its parser, and the canonical
      form of the two values that are hashed. */
  datatype Codec = Codec(
    render: Doc -> Bytes, parse: Bytes -> Option<Doc>, canonical: Manifest -> Bytes,
    canonicalRefs: seq<Ref> -> Bytes, sha256: Bytes -> string, sha1: Bytes -> string, ascii: string -> Bytes)

  ghost predicate Lawful(c: Codec) {
    && (forall d :: c.parse(c.render(d)) == Some(d))
    && (forall m, n :: c.canonical(m) == c.canonical(n) ==> m == n)
    && (forall s :: |c.ascii(s)| == |s|)
  }

  type Files = map<string, Bytes>

  const CHUNK_SIZE := 18

  // ----- names -----

  const PREFIX := "registries/governance/programme_genesis/pgn_census/PGN_REPOSITORY_GENESIS_"

  function Named(suffix: string): string { PREFIX + suffix }

  function ChunkName(index: nat): string { Named("OBJECTS_v0_2_" + Padded(index, 2) + ".jsonc") }

  const EXCLUSIONS := Named("EXCLUSIONS_v0_2.jsonc")
  const LINEAGE := Named("LINEAGE_v0_2.jsonc")
  const COVERAGE := Named("COVERAGE_UNRESOLVED_v0_2.jsonc")
  const MAIN := Named("CENSUS_v0_2.json")

  lemma NamedInjective(a: string, b: string)
    requires Named(a) == Named(b)
    ensures a == b
  {
    assert Named(a)[|PREFIX|..] == a && Named(b)[|PREFIX|..] == b;
  }

  lemma ChunkNamesDiffer(j: nat, k: nat)
    requires ChunkName(j) == ChunkName(k)
    ensures j == k
  {
    var (a, b) := ("OBJECTS_v0_2_" + Padded(j, 2) + ".jsonc", "OBJECTS_v0_2_" + Padded(k, 2) + ".jsonc");
    NamedInjective(a, b);
    assert a[13..|a| - 6] == Padded(j, 2) && b[13..|b| - 6] == Padded(k, 2);
    PaddedInjective(j, k, 2);
  }

  ghost predicate OtherName(p: string) { p == EXCLUSIONS || p == LINEAGE || p == COVERAGE || p == MAIN }

  lemma ChunkIsNoOther(k: nat)
    ensures !OtherName(ChunkName(k))
  {
    var p := ChunkName(k);
    assert p[|PREFIX|] == 'O';
    assert EXCLUSIONS[|PREFIX|] == 'E' && LINEAGE[|PREFIX|] == 'L';
    assert COVERAGE[|PREFIX|] == 'C' && MAIN[|PREFIX|] == 'C';
  }

  // ----- what the bundle is -----

  function Slims(w: Census): (s: seq<Object>)
    ensures |s| == |w.items| && forall i :: 0 <= i < |s| ==> s[i] == SlimObject(w.items[i])
  {
    seq(|w.items|, i requires 0 <= i < |w.items| => SlimObject(w.items[i]))
  }

  function Cut(k: nat, n: nat): (r: nat)
    ensures r <= n && r <= CHUNK_SIZE * k && (r == n || r == CHUNK_SIZE * k)
  {
    if CHUNK_SIZE * k <= n then CHUNK_SIZE * k else n
  }

  function ChunkDoc(w: Census, k: nat): Doc {
    var (objects, n) := (Slims(w), |w.items|);
    var part := objects[Cut(k, n)..Cut(k + 1, n)];
    ObjectLedger(w.packet, w.gate, k, CHUNK_SIZE * k, |part|, part)
  }

  function ExclusionDoc(w: Census): Doc { EntryLedger("exclusion", w.packet, w.gate, |w.exclusions|, w.exclusions) }

  function LineageDoc(w: Census): Doc { EntryLedger("lineage", w.packet, w.gate, |w.lineage|, w.lineage) }

  function CoverageDoc(w: Census): Doc { CoverageLedger(w.packet, w.gate, w.coverage, w.unresolved) }

  /** The reference returned by `write`. */
  function RefTo(c: Codec, path: string, doc: Doc): Ref {
    var data := c.render(doc);
    Ref(path, c.sha256(data), |data|)
  }

  function ChunkRef(c: Codec, w: Census, k: nat): LedgerRef {
    var doc := ChunkDoc(w, k);
    LedgerRef(RefTo(c, ChunkName(k), doc), |doc.objects|, CHUNK_SIZE * k)
  }

  function BaseRefs(ledgers: seq<LedgerRef>): (r: seq<Ref>)
    ensures |r| == |ledgers| && forall i :: 0 <= i < |r| ==> r[i] == ledgers[i].ref
  {
    seq(|ledgers|, i requires 0 <= i < |ledgers| => ledgers[i].ref)
  }

  function Children(m: Manifest): seq<Ref> {
    BaseRefs(m.ledgers) + [m.exclusion.ref, m.lineage.ref, m.coverage.ref]
  }

  function ManifestOf(c: Codec, w: Census, ledgers: seq<LedgerRef>): (m: Manifest)
    ensures m.childIdentity == c.sha256(c.canonicalRefs(Children(m)))
  {
    var (exclusion, lineage, coverage) :=
      (CountRef(RefTo(c, EXCLUSIONS, ExclusionDoc(w)), |w.exclusions|),
       CountRef(RefTo(c, LINEAGE, LineageDoc(w)), |w.lineage|),
       CountRef(RefTo(c, COVERAGE, CoverageDoc(w)), w.unresolved));
    var children := BaseRefs(ledgers) + [exclusion.ref, lineage.ref, coverage.ref];
    Manifest(w.head, w.packet, w.gate, w.objectCount, ledgers, exclusion, lineage, coverage,
             c.sha256(c.canonicalRefs(children)))
  }

  function Seal(c: Codec, m: Manifest): Doc { Signed(m, c.sha256(c.canonical(m))) }

  ghost predicate Holds(c: Codec, fs: Files, path: string, doc: Doc) { path in fs && fs[path] == c.render(doc) }

  function ChunkCount(n: nat): nat { (n + CHUNK_SIZE - 1) / CHUNK_SIZE }

  ghost predicate ChunkDone(c: Codec, w: Census, fs: Files, ledgers: seq<LedgerRef>, k: nat)
    requires k < |ledgers|
  {
    Holds(c, fs, ChunkName(k), ChunkDoc(w, k)) && ledgers[k] == ChunkRef(c, w, k)
  }

  ghost predicate ChunksDone(c: Codec, w: Census, fs: Files, ledgers: seq<LedgerRef>) {
    forall k: nat :: k < |ledgers| ==> ChunkDone(c, w, fs, ledgers, k)
  }

  /** The complete bundle of a census lies in the file system. */
  ghost predicate Built(c: Codec, w: Census, fs: Files, main: Doc) {
    && main.Signed? && main == Seal(c, ManifestOf(c, w, main.manifest.ledgers))
    && |main.manifest.ledgers| == ChunkCount(|w.items|)
    && ChunksDone(c, w, fs, main.manifest.ledgers)
    && Holds(c, fs, EXCLUSIONS, ExclusionDoc(w)) && Holds(c, fs, LINEAGE, LineageDoc(w))
    && Holds(c, fs, COVERAGE, CoverageDoc(w)) && Holds(c, fs, MAIN, main)
  }

  /** A name that the bundle of `n` objects writes. */
  ghost predicate Own(p: string, m: nat) { OtherName(p) || exists k: nat :: k < m && p == ChunkName(k) }

  ghost predicate SameOutside(before: Files, after: Files, m: nat) {
    forall p :: !Own(p, m) ==> (p in after <==> p in before) && (p in before ==> after[p] == before[p])
  }

  // ----- the writer -----

  lemma WriteChunk(c: Codec, w: Census, before: Files, fs: Files, ledgers: seq<LedgerRef>)
    requires ChunksDone(c, w, fs, ledgers) && SameOutside(before, fs, |ledgers|)
    ensures var k := |ledgers|;
            var after := fs[ChunkName(k) := c.render(ChunkDoc(w, k))];
            ChunksDone(c, w, after, ledgers + [ChunkRef(c, w, k)]) && SameOutside(before, after, k + 1)
  {
    var n := |ledgers|;
    var (after, more) := (fs[ChunkName(n) := c.render(ChunkDoc(w, n))], ledgers + [ChunkRef(c, w, n)]);
    forall k: nat | k < |more| ensures ChunkDone(c, w, after, more, k) {
      if k < n {
        assert ChunkDone(c, w, fs, ledgers, k);
        if ChunkName(k) == ChunkName(n) {
          ChunkNamesDiffer(k, n);
        }
      }
    }
    forall p | !Own(p, n + 1) ensures (p in after <==> p in before) && (p in before ==> after[p] == before[p]) {
      assert !Own(p, n);
      assert p != ChunkName(n);
    }
  }

  lemma WriteOther(c: Codec, w: Census, before: Files, fs: Files, ledgers: seq<LedgerRef>, path: string, doc: Doc)
    requires ChunksDone(c, w, fs, ledgers) && SameOutside(before, fs, |ledgers|) && OtherName(path)
    ensures var after := fs[path := c.render(doc)];
            ChunksDone(c, w, after, ledgers) && SameOutside(before, after, |ledgers|)
  {
    var after := fs[path := c.render(doc)];
    forall k: nat | k < |ledgers| ensures ChunkDone(c, w, after, ledgers, k) {
      assert ChunkDone(c, w, fs, ledgers, k);
      ChunkIsNoOther(k);
    }
  }

  /** The three single ledgers and the manifest. */
  method WriteTail(c: Codec, w: Census, before: Files, chunks: Files, ledgers: seq<LedgerRef>) returns (main: Doc, fs: Files)
    requires ChunksDone(c, w, chunks, ledgers) && SameOutside(before, chunks, |ledgers|)
    requires |ledgers| == ChunkCount(|w.items|)
    ensures Built(c, w, fs, main)
    ensures SameOutside(before, fs, ChunkCount(|w.items|))
  {
    main := Seal(c, ManifestOf(c, w, ledgers));
    WriteOther(c, w, before, chunks, ledgers, EXCLUSIONS, ExclusionDoc(w));
    fs := chunks[EXCLUSIONS := c.render(ExclusionDoc(w))];
    WriteOther(c, w, before, fs, ledgers, LINEAGE, LineageDoc(w));
    fs := fs[LINEAGE := c.render(LineageDoc(w))];
    WriteOther(c, w, before, fs, ledgers, COVERAGE, CoverageDoc(w));
    fs := fs[COVERAGE := c.render(CoverageDoc(w))];
    WriteOther(c, w, before, fs, ledgers, MAIN, main);
    fs := fs[MAIN := c.render(main)];
  }

  /** `build_bundle` and the writing of its manifest, over any earlier files. */
  method BuildBundle(c: Codec, w: Census, before: Files) returns (main: Doc, fs: Files)
    ensures Built(c, w, fs, main)
    ensures SameOutside(before, fs, ChunkCount(|w.items|))
  {
    fs := before;
    var objects := Slims(w);
    var ledgers: seq<LedgerRef> := [];
    var (index, start) := (0, 0);
    while start < |objects|
      invariant start == CHUNK_SIZE * index && |ledgers| == index
      invariant index > 0 ==> CHUNK_SIZE * (index - 1) < |objects|
      invariant ChunksDone(c, w, fs, ledgers) && SameOutside(before, fs, index)
    {
      var stop := if start + CHUNK_SIZE <= |objects| then start + CHUNK_SIZE else |objects|;
      var chunk := ObjectLedger(w.packet, w.gate, index, start, stop - start, objects[start..stop]);
      assert chunk == ChunkDoc(w, index);
      WriteChunk(c, w, before, fs, ledgers);
      fs := fs[ChunkName(index) := c.render(chunk)];
      ledgers := ledgers + [LedgerRef(RefTo(c, ChunkName(index), chunk), chunk.objectCount, start)];
      index, start := index + 1, start + CHUNK_SIZE;
    }
    main, fs := WriteTail(c, w, before, fs, ledgers);
  }

  // ----- the sealed reader -----

  datatype Snapshot = Snapshot(
    manifest: Manifest, blob: string, objects: seq<Object>, exclusions: seq<string>, lineage: seq<string>, coverage: Doc)

  /** `git_blob_sha1` */
  function GitBlob(c: Codec, data: Bytes): string {
    c.sha1(c.ascii("blob " + Padded(|data|, 1)) + [0] + data)
  }

  /** The file named by the reference is there, with its size and digest. */
  predicate Intact(c: Codec, fs: Files, ref: Ref) {
    ref.path in fs && |fs[ref.path]| == ref.bytes && c.sha256(fs[ref.path]) == ref.sha256
  }

  function ValidateRef(c: Codec, fs: Files, ref: Ref): (r: Result<Doc>)
    ensures r.Ok? <==> Intact(c, fs, ref) && c.parse(fs[ref.path]).Some?
    ensures r.Ok? ==> c.parse(fs[ref.path]) == Some(r.value)
  {
    if ref.path !in fs then Err("missing snapshot child")
    else if |fs[ref.path]| != ref.bytes then Err("byte count drift")
    else if c.sha256(fs[ref.path]) != ref.sha256 then Err("sha256 drift")
    else match c.parse(fs[ref.path]) case None => Err("JSONDecodeError") case Some(doc) => Ok(doc)
  }

  /** An intact object ledger starting where it should, with the count its reference gives. */
  predicate LedgerFine(c: Codec, fs: Files, ledger: LedgerRef, start: int) {
    var r := ValidateRef(c, fs, ledger.ref);
    r.Ok? && r.value.ObjectLedger? && r.value.startIndex == start && r.value.objectCount == ledger.objectCount
  }

  function StartAfter(ledgers: seq<LedgerRef>): int {
    if ledgers == [] then 0 else StartAfter(ledgers[..|ledgers| - 1]) + ledgers[|ledgers| - 1].objectCount
  }

  ghost predicate LedgersFine(c: Codec, fs: Files, ledgers: seq<LedgerRef>) {
    forall k :: 0 <= k < |ledgers| ==> LedgerFine(c, fs, ledgers[k], StartAfter(ledgers[..k]))
  }

  function ObjectsIn(c: Codec, fs: Files, ref: Ref): seq<Object> {
    var r := ValidateRef(c, fs, ref);
    if r.Ok? && r.value.ObjectLedger? then r.value.objects else []
  }

  /** All ledgers' objects, in manifest order. */
  function Gather(c: Codec, fs: Files, ledgers: seq<LedgerRef>): seq<Object> {
    if ledgers == [] then []
    else Gather(c, fs, ledgers[..|ledgers| - 1]) + ObjectsIn(c, fs, ledgers[|ledgers| - 1].ref)
  }

  predicate EntriesFine(c: Codec, fs: Files, ref: CountRef) {
    var r := ValidateRef(c, fs, ref.ref);
    r.Ok? && r.value.EntryLedger? && r.value.entryCount == ref.count
  }

  predicate CoverageFine(c: Codec, fs: Files, ref: CountRef) {
    var r := ValidateRef(c, fs, ref.ref);
    r.Ok? && r.value.CoverageLedger? && r.value.unresolvedCount == ref.count
  }

  predicate SealFine(c: Codec, doc: Doc) {
    doc.Signed? && c.sha256(c.canonical(doc.manifest)) == doc.bundleHash
  }

  ghost predicate AcceptsManifest(c: Codec, fs: Files, m: Manifest) {
    && LedgersFine(c, fs, m.ledgers)
    && EntriesFine(c, fs, m.exclusion) && EntriesFine(c, fs, m.lineage) && CoverageFine(c, fs, m.coverage)
    && m.childIdentity == c.sha256(c.canonicalRefs(Children(m)))
    && |Gather(c, fs, m.ledgers)| == m.objectCount
  }

  function MainDoc(c: Codec, fs: Files): Option<Doc> { if MAIN in fs then c.parse(fs[MAIN]) else None }

  ghost predicate Accepts(c: Codec, fs: Files) {
    var doc := MainDoc(c, fs);
    doc.Some? && SealFine(c, doc.value) && AcceptsManifest(c, fs, doc.value.manifest)
  }

  ghost function SnapshotOf(c: Codec, fs: Files): Snapshot
    requires Accepts(c, fs)
  {
    var m := MainDoc(c, fs).value.manifest;
    Snapshot(m, GitBlob(c, fs[MAIN]), Gather(c, fs, m.ledgers), ValidateRef(c, fs, m.exclusion.ref).value.entries,
             ValidateRef(c, fs, m.lineage.ref).value.entries, ValidateRef(c, fs, m.coverage.ref).value)
  }

  lemma ReadOne(c: Codec, fs: Files, ledgers: seq<LedgerRef>, k: nat)
    requires k < |ledgers|
    ensures ledgers[..k + 1][..k] == ledgers[..k]
    ensures StartAfter(ledgers[..k + 1]) == StartAfter(ledgers[..k]) + ledgers[k].objectCount
    ensures Gather(c, fs, ledgers[..k + 1]) == Gather(c, fs, ledgers[..k]) + ObjectsIn(c, fs, ledgers[k].ref)
    ensures BaseRefs(ledgers[..k + 1]) == BaseRefs(ledgers[..k]) + [ledgers[k].ref]
  {
  }

  /** The reader's variables after `k` fine ledgers. */
  ghost predicate Progress(c: Codec, fs: Files, ledgers: seq<LedgerRef>, k: nat,
                           objects: seq<Object>, start: int, identity: seq<Ref>)
    requires k <= |ledgers|
  {
    && (forall j :: 0 <= j < k ==> LedgerFine(c, fs, ledgers[j], StartAfter(ledgers[..j])))
    && objects == Gather(c, fs, ledgers[..k]) && start == StartAfter(ledgers[..k])
    && identity == BaseRefs(ledgers[..k])
  }

  lemma Advance(c: Codec, fs: Files, ledgers: seq<LedgerRef>, k: nat, objects: seq<Object>, start: int, identity: seq<Ref>)
    requires k < |ledgers| && Progress(c, fs, ledgers, k, objects, start, identity)
    ensures LedgersFine(c, fs, ledgers) ==> LedgerFine(c, fs, ledgers[k], start)
    ensures LedgerFine(c, fs, ledgers[k], start) ==>
              Progress(c, fs, ledgers, k + 1, objects + ObjectsIn(c, fs, ledgers[k].ref),
                       start + ledgers[k].objectCount, identity + [ledgers[k].ref])
  {
    ReadOne(c, fs, ledgers, k);
  }

  lemma Finished(c: Codec, fs: Files, ledgers: seq<LedgerRef>, objects: seq<Object>, start: int, identity: seq<Ref>)
    requires Progress(c, fs, ledgers, |ledgers|, objects, start, identity)
    ensures LedgersFine(c, fs, ledgers) && objects == Gather(c, fs, ledgers) && identity == BaseRefs(ledgers)
  {
    assert ledgers[..|ledgers|] == ledgers;
  }

  /** The object-ledger loop of `build_snapshot`. */
  method ReadLedgers(c: Codec, fs: Files, ledgers: seq<LedgerRef>)
    returns (r: Result<seq<Object>>, identity: seq<Ref>)
    ensures r.Ok? <==> LedgersFine(c, fs, ledgers)
    ensures r.Ok? ==> r.value == Gather(c, fs, ledgers) && identity == BaseRefs(ledgers)
  {
    var objects: seq<Object> := [];
    identity := [];
    var expectedStart := 0;
    for k := 0 to |ledgers|
      invariant Progress(c, fs, ledgers, k, objects, expectedStart, identity)
    {
      var ref := ledgers[k];
      Advance(c, fs, ledgers, k, objects, expectedStart, identity);
      var doc := ValidateRef(c, fs, ref.ref);
      if doc.Err? {
        return Err(doc.error), identity;
      }
      if !doc.value.ObjectLedger? {
        return Err("KeyError"), identity;
      }
      if doc.value.startIndex != expectedStart {
        return Err("snapshot object-ledger ordering drift"), identity;
      }
      if doc.value.objectCount != ref.objectCount {
        return Err("snapshot object-ledger count drift"), identity;
      }
      assert ObjectsIn(c, fs, ref.ref) == doc.value.objects;
      objects := objects + doc.value.objects;
      expectedStart := expectedStart + doc.value.objectCount;
      identity := identity + [ref.ref];
    }
    Finished(c, fs, ledgers, objects, expectedStart, identity);
    r := Ok(objects);
  }

  /** `build_snapshot`: accepts exactly the bundles that pass every check. */
  method BuildSnapshot(c: Codec, fs: Files) returns (r: Result<Snapshot>)
    ensures r.Ok? <==> Accepts(c, fs)
    ensures r.Ok? ==> r.value == SnapshotOf(c, fs)
  {
    var main := MainDoc(c, fs);
    if main.None? {
      return Err("unreadable manifest");
    }
    if !main.value.Signed? {
      return Err("KeyError");
    }
    var m := main.value.manifest;
    if c.sha256(c.canonical(m)) != main.value.bundleHash {
      return Err("snapshot bundle manifest digest drift");
    }
    var objects, identity := ReadLedgers(c, fs, m.ledgers);
    if objects.Err? {
      return Err(objects.error);
    }
    var exclusion := ValidateRef(c, fs, m.exclusion.ref);
    var lineage := ValidateRef(c, fs, m.lineage.ref);
    var coverage := ValidateRef(c, fs, m.coverage.ref);
    if exclusion.Err? || lineage.Err? || coverage.Err? {
      return Err("snapshot child drift");
    }
    identity := identity + [m.exclusion.ref, m.lineage.ref, m.coverage.ref];
    if c.sha256(c.canonicalRefs(identity)) != m.childIdentity {
      return Err("snapshot child identity drift");
    }
    if |objects.value| != m.objectCount {
      return Err("snapshot object count drift");
    }
    if !exclusion.value.EntryLedger? || !lineage.value.EntryLedger? || !coverage.value.CoverageLedger? {
      return Err("KeyError");
    }
    if exclusion.value.entryCount != m.exclusion.count || lineage.value.entryCount != m.lineage.count
      || coverage.value.unresolvedCount != m.coverage.count {
      return Err("snapshot entry count drift");
    }
    var blob := GitBlob(c, fs[MAIN]);
    r := Ok(Snapshot(m, blob, objects.value, exclusion.value.entries, lineage.value.entries, coverage.value));
  }

  // ----- round trip -----

  lemma ChunkReads(c: Codec, w: Census, fs: Files, ledgers: seq<LedgerRef>, k: nat)
    requires Lawful(c) && ChunksDone(c, w, fs, ledgers) && k < |ledgers|
    ensures LedgerFine(c, fs, ledgers[k], CHUNK_SIZE * k)
    ensures ledgers[k].objectCount == Cut(k + 1, |w.items|) - Cut(k, |w.items|)
    ensures ObjectsIn(c, fs, ledgers[k].ref) == Slims(w)[Cut(k, |w.items|)..Cut(k + 1, |w.items|)]
  {
    assert ChunkDone(c, w, fs, ledgers, k);
  }

  ghost predicate ReadsUpTo(c: Codec, w: Census, fs: Files, ledgers: seq<LedgerRef>, k: nat) {
    StartAfter(ledgers) == Cut(k, |w.items|) && Gather(c, fs, ledgers) == Slims(w)[..Cut(k, |w.items|)]
  }

  lemma Adjacent(s: seq<Object>, i: nat, j: nat)
    requires i <= j <= |s|
    ensures s[..i] + s[i..j] == s[..j]
  {
  }

  lemma ReadsOneMore(c: Codec, w: Census, fs: Files, ledgers: seq<LedgerRef>, next: LedgerRef, k: nat)
    requires ReadsUpTo(c, w, fs, ledgers, k)
    requires next.objectCount == Cut(k + 1, |w.items|) - Cut(k, |w.items|)
    requires ObjectsIn(c, fs, next.ref) == Slims(w)[Cut(k, |w.items|)..Cut(k + 1, |w.items|)]
    ensures ReadsUpTo(c, w, fs, ledgers + [next], k + 1)
  {
    assert (ledgers + [next])[..|ledgers|] == ledgers;
    Adjacent(Slims(w), Cut(k, |w.items|), Cut(k + 1, |w.items|));
  }

  /** After `k` chunks the reader has the first `Cut(k)` objects. */
  lemma {:induction false} PrefixReads(c: Codec, w: Census, fs: Files, ledgers: seq<LedgerRef>, k: nat)
    requires Lawful(c) && ChunksDone(c, w, fs, ledgers) && k <= |ledgers|
    ensures ReadsUpTo(c, w, fs, ledgers[..k], k)
  {
    if k > 0 {
      PrefixReads(c, w, fs, ledgers, k - 1);
      ChunkReads(c, w, fs, ledgers, k - 1);
      assert ledgers[..k] == ledgers[..k - 1] + [ledgers[k - 1]];
      ReadsOneMore(c, w, fs, ledgers[..k - 1], ledgers[k - 1], k - 1);
    }
  }

  lemma LedgersRead(c: Codec, w: Census, fs: Files, ledgers: seq<LedgerRef>)
    requires Lawful(c) && ChunksDone(c, w, fs, ledgers) && |ledgers| == ChunkCount(|w.items|)
    ensures LedgersFine(c, fs, ledgers) && Gather(c, fs, ledgers) == Slims(w)
  {
    forall k | 0 <= k < |ledgers| ensures LedgerFine(c, fs, ledgers[k], StartAfter(ledgers[..k])) {
      PrefixReads(c, w, fs, ledgers, k);
      ChunkReads(c, w, fs, ledgers, k);
    }
    PrefixReads(c, w, fs, ledgers, |ledgers|);
    assert ledgers[..|ledgers|] == ledgers && Slims(w)[..|w.items|] == Slims(w);
  }

  /** The sealed reader accepts what the writer wrote exactly when the census counted
      its own objects correctly. */
  lemma BuiltIsAccepted(c: Codec, w: Census, fs: Files, main: Doc)
    requires Lawful(c) && Built(c, w, fs, main)
    ensures MainDoc(c, fs) == Some(main)
    ensures Accepts(c, fs) <==> w.objectCount == |w.items|
  {
    LedgersRead(c, w, fs, main.manifest.ledgers);
    assert c.parse(c.render(main)) == Some(main);
  }

  /** The object is the item without its detail. */
  ghost predicate SlimOf(o: Object, item: Item) {
    && o.objectId == item.objectId && o.kind == item.kind && o.classification == item.classification
    && o.sourceCount == item.sourceCount && o.sourceSet == item.sourceSet && o.primaryPath == item.primary.path
    && o.successors == item.successors
  }

  /** Round trip: the same objects in the same order, and the same ledgers. */
  lemma RoundTrip(c: Codec, w: Census, fs: Files, main: Doc)
    requires Lawful(c) && Built(c, w, fs, main) && w.objectCount == |w.items|
    ensures Accepts(c, fs)
    ensures SnapshotOf(c, fs) ==
            Snapshot(main.manifest, GitBlob(c, c.render(main)), Slims(w), w.exclusions, w.lineage, CoverageDoc(w))
  {
    BuiltIsAccepted(c, w, fs, main);
    LedgersRead(c, w, fs, main.manifest.ledgers);
  }

  /** The reader gives back the items of the census, slimmed, field by field and in order,
      and the manifest speaks for the census. */
  lemma SnapshotIsTheCensus(c: Codec, w: Census, fs: Files, main: Doc)
    requires Lawful(c) && Built(c, w, fs, main) && w.objectCount == |w.items|
    ensures Accepts(c, fs)
    ensures var s := SnapshotOf(c, fs);
      && |s.objects| == |w.items| && (forall i :: 0 <= i < |w.items| ==> SlimOf(s.objects[i], w.items[i]))
      && s.exclusions == w.exclusions && s.lineage == w.lineage
      && s.coverage == CoverageLedger(w.packet, w.gate, w.coverage, w.unresolved)
      && s.manifest.head == w.head && s.manifest.packet == w.packet && s.manifest.gate == w.gate
      && s.manifest.objectCount == w.objectCount
  {
    RoundTrip(c, w, fs, main);
  }

  /** Ledger `k` of a written bundle holds the eighteen items from 18k on, or what is left of
      them, and says so. */
  lemma LedgerHolds(c: Codec, w: Census, fs: Files, main: Doc, k: nat)
    requires Lawful(c) && Built(c, w, fs, main) && k < |main.manifest.ledgers|
    ensures var (ref, n) := (main.manifest.ledgers[k], |w.items|);
      var size := if 18 * k + 18 <= n then 18 else n - 18 * k;
      && 0 < size && ref.objectCount == size && ref.startIndex == 18 * k
      && (k == |main.manifest.ledgers| - 1 <==> n <= 18 * k + 18)
      && ref.ref.path in fs
      && var doc := c.parse(fs[ref.ref.path]);
      && doc.Some? && doc.value.ObjectLedger?
      && doc.value.packet == w.packet && doc.value.gate == w.gate && doc.value.chunkIndex == k
      && doc.value.startIndex == 18 * k && doc.value.objectCount == size && |doc.value.objects| == size
      && forall j :: 0 <= j < size ==> SlimOf(doc.value.objects[j], w.items[18 * k + j])
  {
    var doc := ChunkDoc(w, k);
    assert ChunkDone(c, w, fs, main.manifest.ledgers, k);
    assert c.parse(c.render(doc)) == Some(doc);
  }

  ghost predicate FileAsNamed(c: Codec, fs: Files, ref: Ref) {
    ref.path in fs && |fs[ref.path]| == ref.bytes && c.sha256(fs[ref.path]) == ref.sha256 && c.parse(fs[ref.path]).Some?
  }

  ghost predicate LedgerAsNamed(c: Codec, fs: Files, ledgers: seq<LedgerRef>, k: nat)
    requires k < |ledgers|
  {
    && FileAsNamed(c, fs, ledgers[k].ref)
    && var doc := c.parse(fs[ledgers[k].ref.path]).value;
    doc.ObjectLedger? && doc.startIndex == StartAfter(ledgers[..k]) && doc.objectCount == ledgers[k].objectCount
  }

  /** What acceptance vouches for, down to the bytes: every child file is there with the size
      and the digest that the manifest gives, the object ledgers follow one another without
      gaps, all counts are right, and both hashes of the manifest are its own. */
  lemma AcceptedMeans(c: Codec, fs: Files)
    requires Accepts(c, fs)
    ensures var (doc, s) := (c.parse(fs[MAIN]), SnapshotOf(c, fs));
      && doc.Some? && doc.value.Signed? && doc.value.manifest == s.manifest
      && s.blob == c.sha1(c.ascii("blob " + Padded(|fs[MAIN]|, 1)) + [0] + fs[MAIN])
      && doc.value.bundleHash == c.sha256(c.canonical(s.manifest))
      && s.manifest.childIdentity == c.sha256(c.canonicalRefs(
        BaseRefs(s.manifest.ledgers) + [s.manifest.exclusion.ref, s.manifest.lineage.ref, s.manifest.coverage.ref]))
      && |s.objects| == s.manifest.objectCount
      && FileAsNamed(c, fs, s.manifest.exclusion.ref) && FileAsNamed(c, fs, s.manifest.lineage.ref)
      && FileAsNamed(c, fs, s.manifest.coverage.ref)
      && var (exclusion, lineage) :=
        (c.parse(fs[s.manifest.exclusion.ref.path]).value, c.parse(fs[s.manifest.lineage.ref.path]).value);
      && exclusion.EntryLedger? && exclusion.entryCount == s.manifest.exclusion.count && exclusion.entries == s.exclusions
      && lineage.EntryLedger? && lineage.entryCount == s.manifest.lineage.count && lineage.entries == s.lineage
      && c.parse(fs[s.manifest.coverage.ref.path]) == Some(s.coverage)
      && s.coverage.CoverageLedger? && s.coverage.unresolvedCount == s.manifest.coverage.count
      && forall k :: 0 <= k < |s.manifest.ledgers| ==> LedgerAsNamed(c, fs, s.manifest.ledgers, k)
  {
    var m := SnapshotOf(c, fs).manifest;
    forall k | 0 <= k < |m.ledgers| ensures LedgerAsNamed(c, fs, m.ledgers, k) {
      assert LedgerFine(c, fs, m.ledgers[k], StartAfter(m.ledgers[..k]));
    }
  }

  ghost predicate EntriesAsNamed(c: Codec, fs: Files, e: CountRef) {
    FileAsNamed(c, fs, e.ref) && var doc := c.parse(fs[e.ref.path]).value; doc.EntryLedger? && doc.entryCount == e.count
  }

  ghost predicate CoverageAsNamed(c: Codec, fs: Files, e: CountRef) {
    FileAsNamed(c, fs, e.ref) && var doc := c.parse(fs[e.ref.path]).value; doc.CoverageLedger? && doc.unresolvedCount == e.count
  }

  /** The manifest carries its own hash and that of its references, in order, every file it
      refers to is as named, and the ledgers hold the number of objects it gives. */
  ghost predicate AsSealed(c: Codec, fs: Files, doc: Doc) {
    && doc.Signed? && doc.bundleHash == c.sha256(c.canonical(doc.manifest))
    && var m := doc.manifest;
    && m.childIdentity == c.sha256(c.canonicalRefs(BaseRefs(m.ledgers) + [m.exclusion.ref, m.lineage.ref, m.coverage.ref]))
    && (forall k :: 0 <= k < |m.ledgers| ==> LedgerAsNamed(c, fs, m.ledgers, k))
    && EntriesAsNamed(c, fs, m.exclusion) && EntriesAsNamed(c, fs, m.lineage) && CoverageAsNamed(c, fs, m.coverage)
    && |Gather(c, fs, m.ledgers)| == m.objectCount
  }

  /** A bundle is accepted if and only if its manifest is sealed and all it says is so. */
  lemma AcceptedIff(c: Codec, fs: Files)
    ensures Accepts(c, fs) <==> MAIN in fs && c.parse(fs[MAIN]).Some? && AsSealed(c, fs, c.parse(fs[MAIN]).value)
  {
    var doc := MainDoc(c, fs);
    if doc.Some? && doc.value.Signed? {
      var ledgers := doc.value.manifest.ledgers;
      forall k | 0 <= k < |ledgers| ensures LedgerAsNamed(c, fs, ledgers, k) <==> LedgerFine(c, fs, ledgers[k], StartAfter(ledgers[..k])) {
      }
    }
  }

  // ----- the seal -----

  lemma EqualTails(a: Bytes, b: Bytes, x: Bytes, y: Bytes)
    requires a + [0] + x == b + [0] + y && |x| == |y|
    ensures x == y
  {
    assert x == (a + [0] + x)[|a| + 1..] && y == (b + [0] + y)[|b| + 1..];
  }

  /** Git's header is never mistaken for content: under a collision-free SHA-1, files with
      the same blob hash have the same bytes. */
  lemma GitBlobBinds(c: Codec, a: Bytes, b: Bytes)
    requires Lawful(c) && CollisionFree(c.sha1) && GitBlob(c, a) == GitBlob(c, b)
    ensures a == b
  {
    var (left, right) := (c.ascii("blob " + Padded(|a|, 1)), c.ascii("blob " + Padded(|b|, 1)));
    assert left + [0] + a == right + [0] + b;
    assert |left| == 5 + |Padded(|a|, 1)| && |right| == 5 + |Padded(|b|, 1)|;
    if |a| <= |b| {
      WidthGrows(|a|, |b|);
    } else {
      WidthGrows(|b|, |a|);
    }
    EqualTails(left, right, a, b);
  }

  lemma {:induction false} SameLedgersSameObjects(c: Codec, a: Files, b: Files, ledgers: seq<LedgerRef>)
    requires CollisionFree(c.sha256)
    requires forall k :: 0 <= k < |ledgers| ==> Intact(c, a, ledgers[k].ref) && Intact(c, b, ledgers[k].ref)
    ensures Gather(c, a, ledgers) == Gather(c, b, ledgers)
  {
    if ledgers != [] {
      SameLedgersSameObjects(c, a, b, ledgers[..|ledgers| - 1]);
    }
  }

  /** One bundle hash fixes the whole snapshot but the blob hash, which depends on how
      the manifest file is laid out: two accepted file systems whose manifests carry the
      same hash give the same objects and ledgers. */
  lemma SealFixesSnapshot(c: Codec, a: Files, b: Files)
    requires Lawful(c) && CollisionFree(c.sha256) && Accepts(c, a) && Accepts(c, b)
    requires MainDoc(c, a).value.bundleHash == MainDoc(c, b).value.bundleHash
    ensures SnapshotOf(c, a) == SnapshotOf(c, b).(blob := GitBlob(c, a[MAIN]))
  {
    var (m, n) := (MainDoc(c, a).value.manifest, MainDoc(c, b).value.manifest);
    assert c.sha256(c.canonical(m)) == c.sha256(c.canonical(n));
    assert m == n;
    forall k | 0 <= k < |m.ledgers| ensures Intact(c, a, m.ledgers[k].ref) && Intact(c, b, m.ledgers[k].ref) {
      assert LedgerFine(c, a, m.ledgers[k], StartAfter(m.ledgers[..k]));
      assert LedgerFine(c, b, m.ledgers[k], StartAfter(m.ledgers[..k]));
    }
    SameLedgersSameObjects(c, a, b, m.ledgers);
  }

  /** So whatever is accepted under the hash of a written bundle is the census that
      was written. */
  lemma AcceptedIsTheCensus(c: Codec, w: Census, built: Files, main: Doc, fs: Files)
    requires Lawful(c) && CollisionFree(c.sha256) && Built(c, w, built, main) && w.objectCount == |w.items|
    requires Accepts(c, fs) && MainDoc(c, fs).value.bundleHash == main.bundleHash
    ensures SnapshotOf(c, fs) ==
            Snapshot(main.manifest, GitBlob(c, fs[MAIN]), Slims(w), w.exclusions, w.lineage, CoverageDoc(w))
  {
    BuiltIsAccepted(c, w, built, main);
    RoundTrip(c, w, built, main);
    SealFixesSnapshot(c, fs, built);
  }
}

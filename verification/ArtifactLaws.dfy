/** Laws of the artifact store: it refines a write-once map, also when commits
    are cut short, and repeating or varying a commit does what a map's put would. */
module ArtifactLaws {
  import opened Common
  import opened ArtifactStore

  // ----- filling the chunk directory -----

  /** `now` is `was` with the missing chunk files added. */
  ghost predicate Filled(k: Codec, level: nat, was: map<string, Bytes>, now: map<string, Bytes>, chunks: seq<Bytes>) {
    && (forall d :: d in was ==> d in now && now[d] == was[d])
    && (forall d :: d in now ==> d in was || exists i :: 0 <= i < |chunks| && k.hash(chunks[i]) == d)
    && (forall i :: 0 <= i < |chunks| ==> k.hash(chunks[i]) in now)
    && (forall i :: 0 <= i < |chunks| && k.hash(chunks[i]) !in was ==>
      now[k.hash(chunks[i])] == k.compress(level, chunks[i]))
  }

  lemma ApplyAppend(disk: Disk, writes: seq<Write>, w: Write)
    ensures ApplyAll(disk, writes + [w]) == Apply(ApplyAll(disk, writes), w)
    ensures WriteBytes(writes + [w]) == WriteBytes(writes) + |w.data|
  {
  }

  lemma FilledStep(k: Codec, level: nat, was: map<string, Bytes>, now: map<string, Bytes>, chunks: seq<Bytes>, c: Bytes)
    requires Lawful(k) && Filled(k, level, was, now, chunks)
    ensures Filled(k, level, was,
                   if k.hash(c) in was then now else now[k.hash(c) := k.compress(level, c)], chunks + [c])
  {
    var next := if k.hash(c) in was then now else now[k.hash(c) := k.compress(level, c)];
    var all := chunks + [c];
    assert all[|chunks|] == c && forall i :: 0 <= i < |chunks| ==> all[i] == chunks[i];
    forall i | 0 <= i < |all| && k.hash(all[i]) !in was ensures next[k.hash(all[i])] == k.compress(level, all[i]) {
      assert k.hash(all[i]) == k.hash(c) ==> all[i] == c;
    }
    forall d | d in next ensures d in was || exists i :: 0 <= i < |all| && k.hash(all[i]) == d {
      if d in now && d !in was {
        var i :| 0 <= i < |chunks| && k.hash(chunks[i]) == d;
        assert k.hash(all[i]) == d;
      } else if d !in was {
        assert k.hash(all[|chunks|]) == d;
      }
    }
  }

  /** Writing the pending files of some chunks fills the directory with them. */
  lemma {:induction false} PendingFills(k: Codec, level: nat, disk: Disk, chunks: seq<Bytes>)
    requires Lawful(k)
    ensures var now := ApplyAll(disk, Pending(k, level, disk.cas, chunks));
      now.manifests == disk.manifests && Filled(k, level, disk.cas, now.cas, chunks)
  {
    if chunks != [] {
      var n := |chunks| - 1;
      var before := Pending(k, level, disk.cas, chunks[..n]);
      PendingFills(k, level, disk, chunks[..n]);
      FilledStep(k, level, disk.cas, ApplyAll(disk, before).cas, chunks[..n], chunks[n]);
      assert chunks == chunks[..n] + [chunks[n]];
      ApplyAppend(disk, before, ChunkFile(k.hash(chunks[n]), k.compress(level, chunks[n])));
    }
  }

  lemma {:induction false} PendingPrefix(k: Codec, level: nat, cas: map<string, Bytes>, chunks: seq<Bytes>, n: nat) returns (j: nat)
    requires n <= |Pending(k, level, cas, chunks)|
    ensures j <= |chunks| && Pending(k, level, cas, chunks)[..n] == Pending(k, level, cas, chunks[..j])
  {
    var all := Pending(k, level, cas, chunks);
    if n == |all| {
      j := |chunks|;
      assert chunks[..j] == chunks && all[..n] == all;
    } else {
      var m := |chunks| - 1;
      j := PendingPrefix(k, level, cas, chunks[..m], n);
      assert chunks[..m][..j] == chunks[..j];
    }
  }

  lemma FilledUnique(k: Codec, level: nat, was: map<string, Bytes>, a: map<string, Bytes>, b: map<string, Bytes>, chunks: seq<Bytes>)
    requires Filled(k, level, was, a, chunks) && Filled(k, level, was, b, chunks)
    ensures a == b
  {
  }

  /** Filling in two goes, the first one cut short, ends in the same place. */
  lemma FilledResumes(
    k: Codec, level: nat, was: map<string, Bytes>, mid: map<string, Bytes>, now: map<string, Bytes>, chunks: seq<Bytes>, j: nat)
    requires j <= |chunks|
    requires Filled(k, level, was, mid, chunks[..j]) && Filled(k, level, mid, now, chunks)
    requires Lawful(k)
    ensures Filled(k, level, was, now, chunks)
  {
  }

  // ----- soundness -----

  /** Every chunk is on disk as this level compresses it. */
  ghost predicate Stored(k: Codec, level: nat, cas: map<string, Bytes>, chunks: seq<Bytes>) {
    forall i :: 0 <= i < |chunks| ==>
      k.hash(chunks[i]) in cas && cas[k.hash(chunks[i])] == k.compress(level, chunks[i])
  }

  lemma StoredIsSound(k: Codec, cfg: Config, cas: map<string, Bytes>, req: Request)
    requires Lawful(k) && cfg.chunkBytes > 0 && Stored(k, cfg.level, cas, Chunks(req.raw, cfg.chunkBytes))
    ensures var m := ManifestOf(k, cfg, req);
      Sound(k, cas, m) && Join(Parts(k, cas, m.chunks)) == req.raw
  {
    var (m, chunks) := (ManifestOf(k, cfg, req), Chunks(req.raw, cfg.chunkBytes));
    forall i | 0 <= i < |chunks| ensures ChunkSound(k, cas, m.chunks[i]) && k.decompress(cas[m.chunks[i].rawSha]) == chunks[i] {
      assert m.chunks[i] == RefOf(k, cfg.level, i, chunks[i]);
    }
    assert Parts(k, cas, m.chunks) == chunks;
    ChunksJoin(req.raw, cfg.chunkBytes);
  }

  ghost predicate Extends(was: map<string, Bytes>, now: map<string, Bytes>) {
    forall d :: d in was ==> d in now && now[d] == was[d]
  }

  lemma SoundExtends(k: Codec, was: map<string, Bytes>, now: map<string, Bytes>, m: Manifest)
    requires Extends(was, now) && Sound(k, was, m)
    ensures Sound(k, now, m) && Parts(k, now, m.chunks) == Parts(k, was, m.chunks)
  {
    forall i | 0 <= i < |m.chunks| ensures ChunkSound(k, now, m.chunks[i]) {
      assert ChunkSound(k, was, m.chunks[i]);
    }
    assert Parts(k, now, m.chunks) == Parts(k, was, m.chunks);
  }

  lemma ViewExtends(k: Codec, namespace: string, disk: Disk, now: map<string, Bytes>, u: string)
    requires Inv(k, namespace, disk) && Inv(k, namespace, disk.(cas := now)) && Extends(disk.cas, now)
    ensures View(k, namespace, disk.(cas := now), u) == View(k, namespace, disk, u)
  {
    var n := k.unitHash(u);
    if n in disk.manifests {
      assert ManifestSound(k, namespace, disk.cas, n, disk.manifests[n]);
      SoundExtends(k, disk.cas, now, k.decode(disk.manifests[n]).value);
    }
  }

  lemma FillingKeepsInv(k: Codec, namespace: string, disk: Disk, level: nat, now: map<string, Bytes>, chunks: seq<Bytes>)
    requires Lawful(k) && Inv(k, namespace, disk) && Filled(k, level, disk.cas, now, chunks)
    ensures Inv(k, namespace, disk.(cas := now))
    ensures forall u :: View(k, namespace, disk.(cas := now), u) == View(k, namespace, disk, u)
  {
    forall d | d in now ensures k.hash(k.decompress(now[d])) == d {
      if d !in disk.cas {
        var i :| 0 <= i < |chunks| && k.hash(chunks[i]) == d;
      }
    }
    forall n | n in disk.manifests ensures ManifestSound(k, namespace, now, n, disk.manifests[n]) {
      assert ManifestSound(k, namespace, disk.cas, n, disk.manifests[n]);
      SoundExtends(k, disk.cas, now, k.decode(disk.manifests[n]).value);
    }
    forall u ensures View(k, namespace, disk.(cas := now), u) == View(k, namespace, disk, u) {
      ViewExtends(k, namespace, disk, now, u);
    }
  }

  /** The request is on disk: its manifest, and its chunks as compressed by this
      configuration. */
  ghost predicate Holds(k: Codec, cfg: Config, disk: Disk, req: Request)
    requires cfg.chunkBytes > 0
  {
    var name := k.unitHash(k.strip(req.unitId));
    && k.strip(req.unitId) != ""
    && name in disk.manifests
    && disk.manifests[name] == k.encode(ManifestOf(k, cfg, req))
    && Stored(k, cfg.level, disk.cas, Chunks(req.raw, cfg.chunkBytes))
  }

  function EntryOf(req: Request): Entry { Entry(req.raw, req.logicalSha, req.context) }

  lemma HoldsIsVisible(k: Codec, cfg: Config, disk: Disk, req: Request)
    requires Lawful(k) && cfg.chunkBytes > 0 && Inv(k, cfg.namespace, disk) && Holds(k, cfg, disk, req)
    ensures View(k, cfg.namespace, disk, k.strip(req.unitId)) == Some(EntryOf(req))
    ensures Verified(k, cfg, disk, req) == Committed(ReceiptOf(k, cfg, req))
  {
  }

  lemma ManifestKeepsInv(k: Codec, cfg: Config, disk: Disk, req: Request)
    requires Lawful(k) && cfg.chunkBytes > 0 && Inv(k, cfg.namespace, disk) && k.strip(req.unitId) != ""
    requires Stored(k, cfg.level, disk.cas, Chunks(req.raw, cfg.chunkBytes))
    ensures var name := k.unitHash(k.strip(req.unitId));
      var now := disk.(manifests := disk.manifests[name := k.encode(ManifestOf(k, cfg, req))]);
      && Inv(k, cfg.namespace, now) && Holds(k, cfg, now, req)
      && forall u :: u != k.strip(req.unitId) ==> View(k, cfg.namespace, now, u) == View(k, cfg.namespace, disk, u)
  {
    var (name, m) := (k.unitHash(k.strip(req.unitId)), ManifestOf(k, cfg, req));
    var now := disk.(manifests := disk.manifests[name := k.encode(m)]);
    StoredIsSound(k, cfg, disk.cas, req);
    assert k.decode(k.encode(m)) == Some(m);
    assert ManifestSound(k, cfg.namespace, disk.cas, name, k.encode(m));
    forall n | n in now.manifests ensures ManifestSound(k, cfg.namespace, now.cas, n, now.manifests[n]) {
    }
    forall u | u != k.strip(req.unitId) ensures View(k, cfg.namespace, now, u) == View(k, cfg.namespace, disk, u) {
      assert k.unitHash(u) != name;
    }
  }

  // ----- refinement of a write-once map -----

  ghost predicate Ready(k: Codec, cfg: Config, s: State) {
    Lawful(k) && cfg.chunkBytes > 0 && Inv(k, cfg.namespace, s.disk)
  }

  ghost function UnitOf(k: Codec, req: Request): string { k.strip(req.unitId) }

  ghost function PendingOf(k: Codec, cfg: Config, disk: Disk, req: Request): seq<Write>
    requires cfg.chunkBytes > 0
  {
    Pending(k, cfg.level, disk.cas, Chunks(req.raw, cfg.chunkBytes))
  }

  /** A commit cut short before its manifest has only added chunk files. */
  lemma PartialCommit(k: Codec, cfg: Config, s: State, req: Request, n: nat) returns (j: nat)
    requires Ready(k, cfg, s) && n <= |PendingOf(k, cfg, s.disk, req)|
    ensures var (chunks, t) := (Chunks(req.raw, cfg.chunkBytes), After(s, Writes(k, cfg, s.disk, req), n));
      && j <= |chunks|
      && t.disk.manifests == s.disk.manifests
      && Filled(k, cfg.level, s.disk.cas, t.disk.cas, chunks[..j])
      && Inv(k, cfg.namespace, t.disk)
      && forall u :: View(k, cfg.namespace, t.disk, u) == View(k, cfg.namespace, s.disk, u)
  {
    var (chunks, pending) := (Chunks(req.raw, cfg.chunkBytes), PendingOf(k, cfg, s.disk, req));
    var t := After(s, Writes(k, cfg, s.disk, req), n);
    j := PendingPrefix(k, cfg.level, s.disk.cas, chunks, n);
    assert Writes(k, cfg, s.disk, req)[..n] == pending[..n];
    PendingFills(k, cfg.level, s.disk, chunks[..j]);
    FillingKeepsInv(k, cfg.namespace, s.disk, cfg.level, t.disk.cas, chunks[..j]);
    assert t.disk == s.disk.(cas := t.disk.cas);
  }

  /** All writes of a commit: the missing chunks, then the manifest. */
  lemma FullCommitDisk(k: Codec, cfg: Config, s: State, req: Request)
    requires Ready(k, cfg, s)
    ensures var (chunks, writes) := (Chunks(req.raw, cfg.chunkBytes), Writes(k, cfg, s.disk, req));
      var t := After(s, writes, |writes|);
      && t.disk.manifests == s.disk.manifests[k.unitHash(UnitOf(k, req)) := k.encode(ManifestOf(k, cfg, req))]
      && Filled(k, cfg.level, s.disk.cas, t.disk.cas, chunks)
  {
    var (pending, writes) := (PendingOf(k, cfg, s.disk, req), Writes(k, cfg, s.disk, req));
    PendingFills(k, cfg.level, s.disk, Chunks(req.raw, cfg.chunkBytes));
    ApplyAppend(s.disk, pending, writes[|writes| - 1]);
    assert writes[..|writes|] == pending + [writes[|writes| - 1]];
  }

  lemma FullCommit(k: Codec, cfg: Config, s: State, req: Request)
    requires Ready(k, cfg, s) && AcceptsAll(k, cfg, s.disk, req) && UnitOf(k, req) != ""
    ensures var writes := Writes(k, cfg, s.disk, req);
      var t := After(s, writes, |writes|);
      && Inv(k, cfg.namespace, t.disk) && Holds(k, cfg, t.disk, req)
      && (forall u :: u != UnitOf(k, req) ==> View(k, cfg.namespace, t.disk, u) == View(k, cfg.namespace, s.disk, u))
  {
    var writes := Writes(k, cfg, s.disk, req);
    var t := After(s, writes, |writes|);
    var chunks := Chunks(req.raw, cfg.chunkBytes);
    FullCommitDisk(k, cfg, s, req);
    FillingKeepsInv(k, cfg.namespace, s.disk, cfg.level, t.disk.cas, chunks);
    var filled := s.disk.(cas := t.disk.cas);
    ManifestKeepsInv(k, cfg, filled, req);
    assert t.disk == filled.(manifests := t.disk.manifests);
  }

  /** Finding one's own manifest on disk means that the whole request is there. */
  lemma OwnManifestHolds(k: Codec, cfg: Config, disk: Disk, req: Request)
    requires Lawful(k) && cfg.chunkBytes > 0 && Inv(k, cfg.namespace, disk)
    requires AcceptsAll(k, cfg, disk, req) && UnitOf(k, req) != ""
    requires var name := k.unitHash(UnitOf(k, req));
      name in disk.manifests && disk.manifests[name] == k.encode(ManifestOf(k, cfg, req))
    ensures Holds(k, cfg, disk, req)
  {
  }

  /** Every commit, complete, rejected or cut short, acts on the write-once map as
      a put that only a success performs: a success leaves the entry of its unit
      equal to the request and finds it either absent or already equal; everything
      else leaves every entry alone, and a rejection leaves the disk alone. */
  lemma CommitRefines(k: Codec, cfg: Config, s: State, req: Request, stop: nat)
    requires Ready(k, cfg, s)
    ensures var (t, out) := Commit(k, cfg, s, req, stop);
      && Inv(k, cfg.namespace, t.disk)
      && (forall u :: View(k, cfg.namespace, t.disk, u) ==
                      if out.Committed? && u == UnitOf(k, req) then Some(EntryOf(req))
                      else View(k, cfg.namespace, s.disk, u))
      && (out.Committed? ==> out.receipt == ReceiptOf(k, cfg, req) && Holds(k, cfg, t.disk, req))
      && (out.Committed? && View(k, cfg.namespace, s.disk, UnitOf(k, req)).Some? ==> t == s)
      && (out.Rejected? ==> t.disk == s.disk)
  {
    var (t, out) := Commit(k, cfg, s, req, stop);
    var name := k.unitHash(UnitOf(k, req));
    var writes := Writes(k, cfg, s.disk, req);
    if UnitOf(k, req) != "" && AcceptsAll(k, cfg, s.disk, req) {
      if name in s.disk.manifests {
        if s.disk.manifests[name] == k.encode(ManifestOf(k, cfg, req)) {
          OwnManifestHolds(k, cfg, s.disk, req);
          HoldsIsVisible(k, cfg, s.disk, req);
        }
      } else if Total(s) + WriteBytes(writes) <= cfg.maxBytes {
        if stop < |writes| {
          var _ := PartialCommit(k, cfg, s, req, stop);
        } else {
          FullCommit(k, cfg, s, req);
          HoldsIsVisible(k, cfg, t.disk, req);
        }
      }
    }
  }

  /** The checks that a commit must pass to write anything. */
  ghost predicate MayWrite(k: Codec, cfg: Config, s: State, req: Request)
    requires cfg.chunkBytes > 0
  {
    && UnitOf(k, req) != "" && AcceptsAll(k, cfg, s.disk, req) && k.unitHash(UnitOf(k, req)) !in s.disk.manifests
    && Total(s) + WriteBytes(Writes(k, cfg, s.disk, req)) <= cfg.maxBytes
  }

  /** A commit that may write makes its writes, up to the stop. */
  lemma CommitWrites(k: Codec, cfg: Config, s: State, req: Request, stop: nat)
    requires cfg.chunkBytes > 0 && MayWrite(k, cfg, s, req)
    ensures var writes := Writes(k, cfg, s.disk, req);
      var all := After(s, writes, |writes|);
      Commit(k, cfg, s, req, stop) ==
      if stop < |writes| then (After(s, writes, stop), Interrupted) else (all, Verified(k, cfg, all.disk, req))
  {
  }

  /** A commit that may not write leaves the disk and the size alone, and does not stop. */
  lemma CommitKeeps(k: Codec, cfg: Config, s: State, req: Request, stop: nat)
    requires cfg.chunkBytes > 0 && !MayWrite(k, cfg, s, req)
    ensures var (t, out) := Commit(k, cfg, s, req, stop); t.disk == s.disk && Total(t) == Total(s) && !out.Interrupted?
  {
  }

  /** A commit either leaves the disk alone or makes a prefix of its writes, for a
      unit without a manifest and within the limit. */
  lemma CommitShape(k: Codec, cfg: Config, s: State, req: Request, stop: nat)
    requires cfg.chunkBytes > 0
    ensures var (t, writes) := (Commit(k, cfg, s, req, stop).0, Writes(k, cfg, s.disk, req));
      || (t.disk == s.disk && Total(t) == Total(s))
      || (&& t == After(s, writes, if stop < |writes| then stop else |writes|)
          && k.unitHash(UnitOf(k, req)) !in s.disk.manifests
          && Total(s) + WriteBytes(writes) <= cfg.maxBytes)
  {
    if MayWrite(k, cfg, s, req) {
      CommitWrites(k, cfg, s, req, stop);
    } else {
      CommitKeeps(k, cfg, s, req, stop);
    }
  }

  /** Loading a unit returns exactly the bytes it was committed with, reports it
      missing exactly when it was not, and refuses an expected context other than the
      committed one.  The lookup trims the identifier but the binding check does not,
      so an untrimmed identifier never loads. */
  lemma LoadReadsView(k: Codec, namespace: string, disk: Disk, unitId: string, expected: Option<map<string, string>>)
    requires Lawful(k) && Inv(k, namespace, disk) && k.strip(unitId) != ""
    ensures var (unit, r) := (k.strip(unitId), Load(k, namespace, disk, unitId, expected));
      match View(k, namespace, disk, unit)
      case None => r == Err("ARTIFACT_MISSING")
      case Some(e) =>
        if unitId != unit then r == Err("ARTIFACT_BINDING_MISMATCH")
        else if expected.Some? && e.context != expected.value then r == Err("ARTIFACT_CONTEXT_MISMATCH")
        else r == Ok(e.raw)
  {
    var name := k.unitHash(k.strip(unitId));
    if name in disk.manifests {
      assert ManifestSound(k, namespace, disk.cas, name, disk.manifests[name]);
      NoErrorIffSound(k, disk.cas, k.decode(disk.manifests[name]).value.chunks);
    }
  }

  /** A receipt is good for a visible entry, and for nothing else: it verifies exactly
      when its unit is visible with the hashes on it, under the manifest it names and
      the expected context, if any.  Its size plays no part. */
  lemma ReceiptReadsView(k: Codec, disk: Disk, r: Receipt, expected: Option<map<string, string>>)
    requires Lawful(k) && Inv(k, r.namespace, disk)
    ensures Verifies(k, disk, r, expected) <==>
      && r.unitId != "" && k.strip(r.unitId) == r.unitId
      && var v := View(k, r.namespace, disk, r.unitId);
      && v.Some? && k.hash(v.value.raw) == r.rawSha && v.value.logicalSha == r.logicalSha
      && k.hash(disk.manifests[k.unitHash(r.unitId)]) == r.manifestSha
      && (expected.Some? ==> v.value.context == expected.value)
    ensures forall n :: Verifies(k, disk, r.(rawBytes := n), expected) <==> Verifies(k, disk, r, expected)
  {
    var name := k.unitHash(k.strip(r.unitId));
    if name in disk.manifests {
      assert ManifestSound(k, r.namespace, disk.cas, name, disk.manifests[name]);
    }
  }

  /** Commit, then load under the identifier that was committed: the bytes come back if
      and only if the identifier was trimmed already. */
  lemma CommitThenLoad(k: Codec, cfg: Config, s: State, req: Request, stop: nat, expected: Option<map<string, string>>)
    requires Ready(k, cfg, s) && Commit(k, cfg, s, req, stop).1.Committed?
    requires expected.Some? ==> expected.value == req.context
    ensures Load(k, cfg.namespace, Commit(k, cfg, s, req, stop).0.disk, req.unitId, expected) ==
      if k.strip(req.unitId) == req.unitId then Ok(req.raw) else Err("ARTIFACT_BINDING_MISMATCH")
  {
    CommitRefines(k, cfg, s, req, stop);
    LoadReadsView(k, cfg.namespace, Commit(k, cfg, s, req, stop).0.disk, req.unitId, expected);
  }

  /** The manifest entry describes the chunk and the file it is stored in. */
  ghost predicate RefersTo(k: Codec, level: nat, ref: ChunkRef, i: nat, chunk: Bytes) {
    && ref.index == i && ref.rawSha == k.hash(chunk) && ref.rawBytes == |chunk|
    && ref.compressedSha == k.hash(k.compress(level, chunk)) && ref.compressedBytes == |k.compress(level, chunk)|
  }

  /** What a success leaves for others to read: a manifest that says everything about the
      request and the store, chunk by chunk, every chunk in its file, and a receipt for
      exactly this. */
  lemma CommittedIsWritten(k: Codec, cfg: Config, s: State, req: Request, stop: nat)
    requires Ready(k, cfg, s) && Commit(k, cfg, s, req, stop).1.Committed?
    ensures var (t, out) := Commit(k, cfg, s, req, stop);
      var (unit, chunks) := (k.strip(req.unitId), Chunks(req.raw, cfg.chunkBytes));
      && k.unitHash(unit) in t.disk.manifests
      && var m := k.decode(t.disk.manifests[k.unitHash(unit)]);
      && m.Some? && m.value.schema == req.schema && m.value.namespace == cfg.namespace && m.value.unitId == unit
      && m.value.logicalSha == req.logicalSha && m.value.rawSha == k.hash(req.raw) && m.value.rawBytes == |req.raw|
      && m.value.context == req.context && m.value.level == cfg.level && m.value.chunkBytes == cfg.chunkBytes
      && |m.value.chunks| == |chunks|
      && (forall i :: 0 <= i < |chunks| ==>
        && RefersTo(k, cfg.level, m.value.chunks[i], i, chunks[i])
        && k.hash(chunks[i]) in t.disk.cas && t.disk.cas[k.hash(chunks[i])] == k.compress(cfg.level, chunks[i]))
      && out.receipt.namespace == cfg.namespace && out.receipt.unitId == unit
      && out.receipt.manifestSha == k.hash(t.disk.manifests[k.unitHash(unit)])
      && out.receipt.logicalSha == req.logicalSha && out.receipt.rawSha == k.hash(req.raw)
      && out.receipt.rawBytes == |req.raw|
  {
    CommitRefines(k, cfg, s, req, stop);
  }

  /** Every chunk that is on disk already is there as this configuration compresses it. */
  ghost predicate Compatible(k: Codec, cfg: Config, cas: map<string, Bytes>, req: Request)
    requires cfg.chunkBytes > 0
  {
    var chunks := Chunks(req.raw, cfg.chunkBytes);
    forall i :: 0 <= i < |chunks| && k.hash(chunks[i]) in cas ==> cas[k.hash(chunks[i])] == k.compress(cfg.level, chunks[i])
  }

  // ----- disks changed behind the store's back -----

  /** When and what a load returns, for every disk whatsoever. */
  lemma LoadedIff(k: Codec, namespace: string, disk: Disk, unitId: string, expected: Option<map<string, string>>, data: Bytes)
    ensures Load(k, namespace, disk, unitId, expected) == Ok(data) <==>
      && k.strip(unitId) != "" && k.unitHash(k.strip(unitId)) in disk.manifests
      && var m := k.decode(disk.manifests[k.unitHash(k.strip(unitId))]);
      && m.Some? && m.value.namespace == namespace && m.value.unitId == unitId
      && (expected.Some? ==> m.value.context == expected.value)
      && (forall i :: 0 <= i < |m.value.chunks| ==>
        && var ref := m.value.chunks[i];
        && ref.rawSha in disk.cas && k.hash(disk.cas[ref.rawSha]) == ref.compressedSha
        && var raw := k.decompress(disk.cas[ref.rawSha]);
        && |raw| == ref.rawBytes && k.hash(raw) == ref.rawSha)
      && data == Join(Parts(k, disk.cas, m.value.chunks)) && |data| == m.value.rawBytes && k.hash(data) == m.value.rawSha
  {
    var name := k.unitHash(k.strip(unitId));
    if name in disk.manifests && k.decode(disk.manifests[name]).Some? {
      NoErrorIffSound(k, disk.cas, k.decode(disk.manifests[name]).value.chunks);
    }
  }

  /** A receipt verifies exactly when its unit loads and the hashes on it are those of the
      manifest and of the bytes loaded, for every disk whatsoever. */
  lemma ReceiptLoads(k: Codec, disk: Disk, r: Receipt, expected: Option<map<string, string>>)
    ensures var (loaded, name) := (Load(k, r.namespace, disk, r.unitId, expected), k.unitHash(k.strip(r.unitId)));
      Verifies(k, disk, r, expected) <==>
      && loaded.Ok? && k.hash(loaded.value) == r.rawSha
      && name in disk.manifests && k.hash(disk.manifests[name]) == r.manifestSha
      && k.decode(disk.manifests[name]).Some? && k.decode(disk.manifests[name]).value.logicalSha == r.logicalSha
  {
    var name := k.unitHash(k.strip(r.unitId));
    if name in disk.manifests && k.decode(disk.manifests[name]).Some? {
      NoErrorIffSound(k, disk.cas, k.decode(disk.manifests[name]).value.chunks);
    }
  }

  /** However the chunk files are changed, a unit that loaded before loads again if
      and only if each of its chunk files still has its bytes, and then with the same
      result. */
  lemma TamperingIsSeen(
    k: Codec, namespace: string, was: Disk, cas: map<string, Bytes>, unitId: string, expected: Option<map<string, string>>)
    requires Lawful(k) && Load(k, namespace, was, unitId, expected).Ok?
    requires k.unitHash(k.strip(unitId)) in was.manifests && k.decode(was.manifests[k.unitHash(k.strip(unitId))]).Some?
    ensures var (before, after) :=
        (Load(k, namespace, was, unitId, expected), Load(k, namespace, was.(cas := cas), unitId, expected));
      var refs := k.decode(was.manifests[k.unitHash(k.strip(unitId))]).value.chunks;
      && (forall i :: 0 <= i < |refs| ==> refs[i].rawSha in was.cas)
      && (after.Ok? <==> forall i :: 0 <= i < |refs| ==> refs[i].rawSha in cas && cas[refs[i].rawSha] == was.cas[refs[i].rawSha])
      && (after.Ok? ==> after == before)
  {
    var m := k.decode(was.manifests[k.unitHash(k.strip(unitId))]).value;
    NoErrorIffSound(k, was.cas, m.chunks);
    NoErrorIffSound(k, cas, m.chunks);
    if forall i :: 0 <= i < |m.chunks| ==> ChunkSound(k, cas, m.chunks[i]) {
      forall i | 0 <= i < |m.chunks| ensures cas[m.chunks[i].rawSha] == was.cas[m.chunks[i].rawSha] {
        assert ChunkSound(k, cas, m.chunks[i]) && ChunkSound(k, was.cas, m.chunks[i]);
      }
      assert Parts(k, cas, m.chunks) == Parts(k, was.cas, m.chunks);
    }
  }

  /** The receipt of a commit is good for its bytes for ever: wherever it verifies, on any
      disk, the unit loads with the committed bytes and under no other context. */
  lemma ReceiptPinsBytes(
    k: Codec, cfg: Config, s: State, req: Request, stop: nat, disk: Disk, expected: Option<map<string, string>>)
    requires Ready(k, cfg, s) && Commit(k, cfg, s, req, stop).1.Committed?
    requires Verifies(k, disk, Commit(k, cfg, s, req, stop).1.receipt, expected)
    ensures Load(k, cfg.namespace, disk, k.strip(req.unitId), expected) == Ok(req.raw)
    ensures expected.Some? ==> expected.value == req.context
  {
    CommittedIsWritten(k, cfg, s, req, stop);
    ReceiptLoads(k, disk, Commit(k, cfg, s, req, stop).1.receipt, expected);
    var t := Commit(k, cfg, s, req, stop).0;
    var name := k.unitHash(k.strip(req.unitId));
    assert disk.manifests[name] == t.disk.manifests[name];
  }

  lemma CompatibleIff(k: Codec, cfg: Config, disk: Disk, req: Request)
    requires Lawful(k) && cfg.chunkBytes > 0
    ensures Compatible(k, cfg, disk.cas, req) <==> AcceptsAll(k, cfg, disk, req)
  {
    var chunks := Chunks(req.raw, cfg.chunkBytes);
    forall i | 0 <= i < |chunks| && k.hash(chunks[i]) in disk.cas
      ensures Accepts(k, cfg.level, disk.cas, chunks[i]) <==>
              disk.cas[k.hash(chunks[i])] == k.compress(cfg.level, chunks[i])
    {
      assert k.decompress(k.compress(cfg.level, chunks[i])) == chunks[i];
    }
  }

  lemma CommitRefuses(k: Codec, cfg: Config, s: State, req: Request, stop: nat)
    requires cfg.chunkBytes > 0 && !MayWrite(k, cfg, s, req) && k.unitHash(UnitOf(k, req)) !in s.disk.manifests
    ensures Commit(k, cfg, s, req, stop).1.Rejected?
  {
  }

  /** A commit for a new unit succeeds if and only if the unit has a name, chunks that are on
      disk already are compatible, everything it writes fits below the limit, and it is
      not stopped. */
  lemma FreshCommitSucceedsIff(k: Codec, cfg: Config, s: State, req: Request, stop: nat)
    requires Ready(k, cfg, s) && k.unitHash(k.strip(req.unitId)) !in s.disk.manifests
    ensures Commit(k, cfg, s, req, stop).1.Committed? <==>
      && k.strip(req.unitId) != "" && Compatible(k, cfg, s.disk.cas, req)
      && Total(s) + WriteBytes(Writes(k, cfg, s.disk, req)) <= cfg.maxBytes
      && |Writes(k, cfg, s.disk, req)| <= stop
  {
    var writes := Writes(k, cfg, s.disk, req);
    CompatibleIff(k, cfg, s.disk, req);
    if MayWrite(k, cfg, s, req) {
      CommitWrites(k, cfg, s, req, stop);
      FullCommit(k, cfg, s, req);
      HoldsIsVisible(k, cfg, After(s, writes, |writes|).disk, req);
    } else {
      CommitRefuses(k, cfg, s, req, stop);
    }
  }

  /** A request that differs in bytes, logical hash or context from what its unit
      already holds is rejected, and nothing on disk changes. */
  lemma DifferingCommitFails(k: Codec, cfg: Config, s: State, req: Request, stop: nat)
    requires Ready(k, cfg, s)
    requires var v := View(k, cfg.namespace, s.disk, UnitOf(k, req)); v.Some? && v.value != EntryOf(req)
    ensures Commit(k, cfg, s, req, stop).1.Rejected? && Commit(k, cfg, s, req, stop).0.disk == s.disk
  {
  }

  // ----- whole runs -----

  datatype Op = Submit(req: Request, stop: nat) | Reopen(maxBytes: nat, chunkBytes: nat, level: nat)

  /** A store instance with its configuration. */
  datatype Instance = Instance(cfg: Config, state: State)

  /** Opening an instance forgets the cached size; a configuration the constructor
      refuses opens nothing. */
  ghost function Step(k: Codec, i: Instance, op: Op): Instance
    requires i.cfg.chunkBytes > 0
  {
    match op
    case Submit(req, stop) => i.(state := Commit(k, i.cfg, i.state, req, stop).0)
    case Reopen(maxBytes, chunkBytes, level) =>
      if maxBytes == 0 || chunkBytes == 0 || level > 9 then i
      else Instance(Config(i.cfg.namespace, maxBytes, chunkBytes, level), State(i.state.disk, None))
  }

  ghost function Run(k: Codec, i: Instance, ops: seq<Op>): (j: Instance)
    requires i.cfg.chunkBytes > 0
    ensures j.cfg.chunkBytes > 0 && j.cfg.namespace == i.cfg.namespace
  {
    if ops == [] then i else Step(k, Run(k, i, ops[..|ops| - 1]), ops[|ops| - 1])
  }

  ghost predicate Live(k: Codec, i: Instance) { Ready(k, i.cfg, i.state) }

  lemma StepKeeps(k: Codec, i: Instance, op: Op, u: string)
    requires Live(k, i)
    ensures Live(k, Step(k, i, op)) && Step(k, i, op).cfg.namespace == i.cfg.namespace
    ensures var v := View(k, i.cfg.namespace, i.state.disk, u);
      v.Some? ==> View(k, i.cfg.namespace, Step(k, i, op).state.disk, u) == v
  {
    if op.Submit? {
      CommitRefines(k, i.cfg, i.state, op.req, op.stop);
    }
  }

  /** In every state of every run, stops and reopenings included, all manifests
      are backed by intact chunks, and an entry once visible never changes. */
  lemma {:induction false} RunIsWriteOnce(k: Codec, i: Instance, ops: seq<Op>, u: string)
    requires Live(k, i)
    ensures Live(k, Run(k, i, ops))
    ensures var v := View(k, i.cfg.namespace, i.state.disk, u);
      v.Some? ==> View(k, i.cfg.namespace, Run(k, i, ops).state.disk, u) == v
  {
    if ops != [] {
      RunIsWriteOnce(k, i, ops[..|ops| - 1], u);
      StepKeeps(k, Run(k, i, ops[..|ops| - 1]), ops[|ops| - 1], u);
    }
  }

  lemma EmptyIsLive(k: Codec, cfg: Config)
    requires Lawful(k) && cfg.chunkBytes > 0
    ensures Live(k, Instance(cfg, State(EMPTY, None)))
    ensures forall u :: View(k, cfg.namespace, EMPTY, u) == None
  {
  }

  // ----- repeating a commit -----

  ghost predicate DiskExtends(was: Disk, now: Disk) {
    Extends(was.cas, now.cas) && Extends(was.manifests, now.manifests)
  }

  lemma FilledExtends(k: Codec, level: nat, was: Disk, now: Disk, chunks: seq<Bytes>, name: string, data: Bytes)
    requires Filled(k, level, was.cas, now.cas, chunks)
    requires now.manifests == was.manifests || (name !in was.manifests && now.manifests == was.manifests[name := data])
    ensures DiskExtends(was, now)
  {
  }

  lemma PartExtends(k: Codec, cfg: Config, s: State, req: Request, n: nat)
    requires Ready(k, cfg, s) && n <= |PendingOf(k, cfg, s.disk, req)|
    ensures DiskExtends(s.disk, After(s, Writes(k, cfg, s.disk, req), n).disk)
  {
    var j := PartialCommit(k, cfg, s, req, n);
    var now := After(s, Writes(k, cfg, s.disk, req), n).disk;
    FilledExtends(k, cfg.level, s.disk, now, Chunks(req.raw, cfg.chunkBytes)[..j], "", []);
  }

  lemma WritesExtend(k: Codec, cfg: Config, s: State, req: Request, n: nat)
    requires Ready(k, cfg, s) && n <= |Writes(k, cfg, s.disk, req)| && k.unitHash(UnitOf(k, req)) !in s.disk.manifests
    ensures DiskExtends(s.disk, After(s, Writes(k, cfg, s.disk, req), n).disk)
  {
    if n < |Writes(k, cfg, s.disk, req)| {
      PartExtends(k, cfg, s, req, n);
    } else {
      FullCommitDisk(k, cfg, s, req);
      FilledExtends(k, cfg.level, s.disk, After(s, Writes(k, cfg, s.disk, req), n).disk, Chunks(req.raw, cfg.chunkBytes),
                    k.unitHash(UnitOf(k, req)), k.encode(ManifestOf(k, cfg, req)));
    }
  }

  lemma CommitExtends(k: Codec, cfg: Config, s: State, req: Request, stop: nat)
    requires Ready(k, cfg, s)
    ensures DiskExtends(s.disk, Commit(k, cfg, s, req, stop).0.disk)
  {
    var writes := Writes(k, cfg, s.disk, req);
    if !MayWrite(k, cfg, s, req) {
      CommitKeeps(k, cfg, s, req, stop);
    } else {
      CommitWrites(k, cfg, s, req, stop);
      WritesExtend(k, cfg, s, req, if stop < |writes| then stop else |writes|);
    }
  }

  lemma {:induction false} RunExtends(k: Codec, i: Instance, ops: seq<Op>)
    requires Live(k, i)
    ensures DiskExtends(i.state.disk, Run(k, i, ops).state.disk)
  {
    if ops != [] {
      var shorter := ops[..|ops| - 1];
      var (j, op) := (Run(k, i, shorter), ops[|ops| - 1]);
      RunExtends(k, i, shorter);
      RunIsWriteOnce(k, i, shorter, "");
      if op.Submit? {
        CommitExtends(k, j.cfg, j.state, op.req, op.stop);
      }
    }
  }

  lemma HoldsRepeats(k: Codec, cfg: Config, s: State, req: Request, stop: nat)
    requires Ready(k, cfg, s) && Holds(k, cfg, s.disk, req)
    ensures Commit(k, cfg, s, req, stop) == (s, Committed(ReceiptOf(k, cfg, req)))
  {
  }

  lemma HoldsExtends(k: Codec, cfg: Config, was: Disk, now: Disk, req: Request)
    requires cfg.chunkBytes > 0 && Holds(k, cfg, was, req) && DiskExtends(was, now)
    ensures Holds(k, cfg, now, req)
  {
  }

  /** Repeating a successful commit under the same configuration, after any
      further run, changes nothing and returns the same receipt. */
  lemma RepeatIsNoop(k: Codec, cfg: Config, s: State, req: Request, stop: nat, ops: seq<Op>, again: nat)
    requires Ready(k, cfg, s) && Commit(k, cfg, s, req, stop).1.Committed?
    ensures var later := Run(k, Instance(cfg, Commit(k, cfg, s, req, stop).0), ops).state;
      Commit(k, cfg, later, req, again) == (later, Commit(k, cfg, s, req, stop).1)
  {
    CommitRefines(k, cfg, s, req, stop);
    var i := Instance(cfg, Commit(k, cfg, s, req, stop).0);
    var later := Run(k, i, ops);
    RunIsWriteOnce(k, i, ops, "");
    RunExtends(k, i, ops);
    HoldsExtends(k, cfg, i.state.disk, later.state.disk, req);
    HoldsRepeats(k, cfg, later.state, req, again);
  }
}

/** Size accounting of the artifact store, and why an interrupted commit can
    always be retried. */
module ArtifactCapacity {
  import opened Common
  import opened ArtifactStore
  import opened ArtifactLaws

  // ----- sizes of directories -----

  lemma SizeReplace(files: map<string, Bytes>, n: string, data: Bytes)
    ensures Size(files[n := data]) == |data| + Size(files - {n})
    ensures n !in files ==> Size(files[n := data]) == |data| + Size(files)
    ensures Size(files[n := data]) <= |data| + Size(files)
    ensures n in files && files[n] == data ==> Size(files[n := data]) == Size(files)
  {
    var now := files[n := data];
    SizeWithout(now, n);
    assert now - {n} == files - {n};
    if n in files {
      SizeWithout(files, n);
      assert files[n] == data ==> now == files;
    } else {
      assert files - {n} == files;
    }
  }

  // ----- the cached size bounds the real one -----

  ghost predicate Bounded(s: State) { DiskBytes(s.disk) <= Total(s) }

  lemma ApplyBytes(disk: Disk, w: Write)
    ensures DiskBytes(Apply(disk, w)) <= DiskBytes(disk) + |w.data|
  {
    match w
    case ChunkFile(digest, data) => SizeReplace(disk.cas, digest, data);
    case ManifestFile(name, data) => SizeReplace(disk.manifests, name, data);
  }

  lemma {:induction false} ApplyAllBytes(disk: Disk, writes: seq<Write>)
    ensures DiskBytes(ApplyAll(disk, writes)) <= DiskBytes(disk) + WriteBytes(writes)
  {
    if writes != [] {
      var n := |writes| - 1;
      ApplyAllBytes(disk, writes[..n]);
      ApplyBytes(ApplyAll(disk, writes[..n]), writes[n]);
    }
  }

  lemma {:induction false} WriteBytesPrefix(writes: seq<Write>, n: nat)
    requires n <= |writes|
    ensures WriteBytes(writes[..n]) <= WriteBytes(writes)
  {
    if n == |writes| {
      assert writes[..n] == writes;
    } else {
      var shorter := writes[..|writes| - 1];
      WriteBytesPrefix(shorter, n);
      assert shorter[..n] == writes[..n];
    }
  }

  /** The cached size never falls below the real one, and after any commit that
      wrote something, complete or cut short, it is within the limit. */
  lemma CommitBounded(k: Codec, cfg: Config, s: State, req: Request, stop: nat)
    requires cfg.chunkBytes > 0 && Bounded(s)
    ensures var t := Commit(k, cfg, s, req, stop).0;
      Bounded(t) && (t.disk != s.disk ==> t.sizeCache.Some? && DiskBytes(t.disk) <= t.sizeCache.value <= cfg.maxBytes)
  {
    var writes := Writes(k, cfg, s.disk, req);
    var n := if stop < |writes| then stop else |writes|;
    CommitShape(k, cfg, s, req, stop);
    ApplyAllBytes(s.disk, writes[..n]);
    WriteBytesPrefix(writes, n);
  }

  lemma {:induction false} RunBounded(k: Codec, i: Instance, ops: seq<Op>)
    requires i.cfg.chunkBytes > 0 && Bounded(i.state)
    ensures Bounded(Run(k, i, ops).state)
  {
    if ops != [] {
      RunBounded(k, i, ops[..|ops| - 1]);
      var (j, op) := (Run(k, i, ops[..|ops| - 1]), ops[|ops| - 1]);
      if op.Submit? {
        CommitBounded(k, j.cfg, j.state, op.req, op.stop);
      }
    }
  }

  /** After any run, reopenings under other limits included, a commit that writes
      leaves the real size below the cached one and that within the limit in force. */
  lemma WriteWithinLimit(k: Codec, i: Instance, ops: seq<Op>, req: Request, stop: nat)
    requires i.cfg.chunkBytes > 0 && Bounded(i.state)
    ensures var j := Run(k, i, ops);
      var t := Commit(k, j.cfg, j.state, req, stop).0;
      t.disk != j.state.disk ==> t.sizeCache.Some? && DiskBytes(t.disk) <= t.sizeCache.value <= j.cfg.maxBytes
  {
    var j := Run(k, i, ops);
    RunBounded(k, i, ops);
    CommitBounded(k, j.cfg, j.state, req, stop);
  }

  lemma CommitWithinLimit(k: Codec, cfg: Config, s: State, req: Request, stop: nat)
    requires cfg.chunkBytes > 0 && Total(s) <= cfg.maxBytes
    ensures Total(Commit(k, cfg, s, req, stop).0) <= cfg.maxBytes
  {
    var writes := Writes(k, cfg, s.disk, req);
    CommitShape(k, cfg, s, req, stop);
    WriteBytesPrefix(writes, if stop < |writes| then stop else |writes|);
  }

  /** Over every run of one instance, from a size within the limit, real size, cached
      size and limit stay in this order. */
  lemma {:induction false} RunWithinLimit(k: Codec, i: Instance, ops: seq<Op>)
    requires i.cfg.chunkBytes > 0 && Bounded(i.state) && Total(i.state) <= i.cfg.maxBytes
    requires forall j :: 0 <= j < |ops| ==> ops[j].Submit?
    ensures var now := Run(k, i, ops);
      now.cfg == i.cfg && DiskBytes(now.state.disk) <= Total(now.state) <= i.cfg.maxBytes
  {
    RunBounded(k, i, ops);
    if ops != [] {
      var (shorter, op) := (ops[..|ops| - 1], ops[|ops| - 1]);
      RunWithinLimit(k, i, shorter);
      CommitWithinLimit(k, i.cfg, Run(k, i, shorter).state, op.req, op.stop);
    }
  }

  // ----- exactness -----

  ghost predicate Queued(writes: seq<Write>, digest: string) {
    exists i :: 0 <= i < |writes| && writes[i].ChunkFile? && writes[i].digest == digest
  }

  /** Bytes of the writes whose file an earlier write of the same list made. */
  ghost function Repeats(writes: seq<Write>): nat {
    if writes == [] then 0
    else
      var n := |writes| - 1;
      Repeats(writes[..n]) +
      if writes[n].ChunkFile? && Queued(writes[..n], writes[n].digest) then |writes[n].data| else 0
  }

  ghost predicate FreshChunk(k: Codec, level: nat, cas: map<string, Bytes>, w: Write) {
    w.ChunkFile? && w.digest !in cas && exists c :: k.hash(c) == w.digest && k.compress(level, c) == w.data
  }

  /** What the pending list of a commit looks like to the disk it is for. */
  ghost predicate FreshChunks(k: Codec, level: nat, cas: map<string, Bytes>, writes: seq<Write>) {
    forall i :: 0 <= i < |writes| ==> FreshChunk(k, level, cas, writes[i])
  }

  lemma {:induction false} PendingIsFresh(k: Codec, level: nat, cas: map<string, Bytes>, chunks: seq<Bytes>)
    ensures FreshChunks(k, level, cas, Pending(k, level, cas, chunks))
  {
    if chunks != [] {
      PendingIsFresh(k, level, cas, chunks[..|chunks| - 1]);
    }
  }

  /** After fresh writes, a digest is on disk iff it was there or has been queued,
      and a queued file holds what any further write of it would. */
  lemma {:induction false} FreshContents(k: Codec, level: nat, disk: Disk, writes: seq<Write>, w: Write)
    requires Lawful(k) && w.ChunkFile? && FreshChunks(k, level, disk.cas, writes + [w])
    ensures var cas := ApplyAll(disk, writes).cas;
      && (w.digest in cas <==> Queued(writes, w.digest))
      && (w.digest in cas ==> cas[w.digest] == w.data)
  {
    if writes != [] {
      var n := |writes| - 1;
      var (shorter, last) := (writes[..n], writes[n]);
      assert forall i :: 0 <= i < n ==> (shorter + [w])[i] == (writes + [w])[i];
      assert (writes + [w])[n] == last && (writes + [w])[|writes|] == w && (shorter + [w])[n] == w;
      FreshContents(k, level, disk, shorter, w);
      if last.digest == w.digest {
        assert last.data == w.data;
      }
    } else {
      assert ([] + [w])[0] == w;
    }
  }

  lemma {:induction false} FreshBytes(k: Codec, level: nat, disk: Disk, writes: seq<Write>)
    requires Lawful(k) && FreshChunks(k, level, disk.cas, writes)
    ensures DiskBytes(ApplyAll(disk, writes)) + Repeats(writes) == DiskBytes(disk) + WriteBytes(writes)
  {
    if writes != [] {
      var n := |writes| - 1;
      var (shorter, w) := (writes[..n], writes[n]);
      FreshBytes(k, level, disk, shorter);
      assert writes == shorter + [w];
      FreshContents(k, level, disk, shorter, w);
      SizeReplace(ApplyAll(disk, shorter).cas, w.digest, w.data);
    }
  }

  lemma FullAccounting(k: Codec, cfg: Config, s: State, req: Request)
    requires Ready(k, cfg, s) && k.unitHash(UnitOf(k, req)) !in s.disk.manifests
    ensures var writes := Writes(k, cfg, s.disk, req);
      var t := After(s, writes, |writes|);
      Total(t) - DiskBytes(t.disk) == Total(s) - DiskBytes(s.disk) + Repeats(PendingOf(k, cfg, s.disk, req))
  {
    var (pending, writes) := (PendingOf(k, cfg, s.disk, req), Writes(k, cfg, s.disk, req));
    var last := writes[|pending|];
    assert writes[..|writes|] == pending + [last];
    ApplyAppend(s.disk, pending, last);
    PendingIsFresh(k, cfg.level, s.disk.cas, Chunks(req.raw, cfg.chunkBytes));
    FreshBytes(k, cfg.level, s.disk, pending);
    PendingFills(k, cfg.level, s.disk, Chunks(req.raw, cfg.chunkBytes));
    SizeReplace(s.disk.manifests, last.name, last.data);
  }

  ghost predicate UnitIsNew(k: Codec, disk: Disk, req: Request) { k.unitHash(UnitOf(k, req)) !in disk.manifests }

  /** Exactly what the cached size gains over the real one in a commit that runs
      to its end: the bytes of the chunks it queued more than once. */
  lemma CommitAccounting(k: Codec, cfg: Config, s: State, req: Request, stop: nat)
    requires Ready(k, cfg, s) && UnitIsNew(k, s.disk, req) && Commit(k, cfg, s, req, stop).1.Committed?
    ensures var t := Commit(k, cfg, s, req, stop).0;
      Total(t) - DiskBytes(t.disk) == Total(s) - DiskBytes(s.disk) + Repeats(PendingOf(k, cfg, s.disk, req))
  {
    FullAccounting(k, cfg, s, req);
  }

  ghost predicate NoRepeats(writes: seq<Write>) {
    forall i, j :: 0 <= i < j < |writes| && writes[i].ChunkFile? && writes[j].ChunkFile? ==>
      writes[i].digest != writes[j].digest
  }

  lemma NoRepeatsStep(writes: seq<Write>, n: nat)
    requires |writes| == n + 1 && writes[n].ChunkFile?
    ensures NoRepeats(writes) <==> NoRepeats(writes[..n]) && !Queued(writes[..n], writes[n].digest)
  {
    var shorter := writes[..n];
    assert forall i :: 0 <= i < n ==> shorter[i] == writes[i];
  }

  /** Nothing is over-counted exactly when no fresh chunk was queued twice. */
  lemma {:induction false} RepeatsVanish(k: Codec, level: nat, cas: map<string, Bytes>, writes: seq<Write>)
    requires Lawful(k) && FreshChunks(k, level, cas, writes)
    ensures Repeats(writes) == 0 <==> NoRepeats(writes)
  {
    if writes != [] {
      var n := |writes| - 1;
      RepeatsVanish(k, level, cas, writes[..n]);
      assert FreshChunk(k, level, cas, writes[n]);
      NoRepeatsStep(writes, n);
    }
  }

  /** From an exact size, a completed writing commit leaves the cached size exact
      if and only if it queued no fresh chunk twice. */
  lemma CachedSizeExact(k: Codec, cfg: Config, s: State, req: Request, stop: nat)
    requires Ready(k, cfg, s) && Total(s) == DiskBytes(s.disk)
    requires UnitIsNew(k, s.disk, req) && Commit(k, cfg, s, req, stop).1.Committed?
    ensures var t := Commit(k, cfg, s, req, stop).0;
      Total(t) == DiskBytes(t.disk) <==> NoRepeats(PendingOf(k, cfg, s.disk, req))
  {
    CommitAccounting(k, cfg, s, req, stop);
    PendingIsFresh(k, cfg.level, s.disk.cas, Chunks(req.raw, cfg.chunkBytes));
    RepeatsVanish(k, cfg.level, s.disk.cas, PendingOf(k, cfg, s.disk, req));
  }

  lemma TwoChunks(c: Bytes)
    requires c != []
    ensures Chunks(c + c, |c|) == [c, c]
  {
    assert (c + c)[..|c|] == c && (c + c)[|c|..] == c;
    assert [c] + [c] == [c, c];
  }

  lemma TwoWrites(k: Codec, level: nat, c: Bytes)
    ensures var w := ChunkFile(k.hash(c), k.compress(level, c)); Pending(k, level, map[], [c, c]) == [w, w]
  {
    var w := ChunkFile(k.hash(c), k.compress(level, c));
    assert [c][..0] == [] && Pending(k, level, map[], [c]) == [w];
    assert [c, c][..1] == [c];
    assert [w] + [w] == [w, w];
  }

  lemma TwiceCounted(w: Write)
    requires w.ChunkFile?
    ensures Repeats([w, w]) == |w.data|
  {
    assert [w][..0] == [] && !Queued([], w.digest);
    assert Repeats([w]) == 0;
    assert [w, w][..1] == [w] && [w][0] == w && Queued([w], w.digest);
  }

  /** The overcount happens: a commit of one chunk twice to an empty store that has room
      for it succeeds, and leaves the cached size too large by the compressed chunk. */
  lemma RepeatedChunkOvercounts(k: Codec, cfg: Config, req: Request, c: Bytes, stop: nat)
    requires Lawful(k) && c != [] && cfg.chunkBytes == |c| && req.raw == c + c && k.strip(req.unitId) != ""
    requires WriteBytes(Writes(k, cfg, EMPTY, req)) <= cfg.maxBytes && |Writes(k, cfg, EMPTY, req)| <= stop
    ensures var (t, out) := Commit(k, cfg, State(EMPTY, None), req, stop);
      out.Committed? && Total(t) == DiskBytes(t.disk) + |k.compress(cfg.level, c)|
  {
    var s := State(EMPTY, None);
    TwoChunks(c);
    TwoWrites(k, cfg.level, c);
    TwiceCounted(ChunkFile(k.hash(c), k.compress(cfg.level, c)));
    FullCommit(k, cfg, s, req);
    var writes := Writes(k, cfg, EMPTY, req);
    HoldsIsVisible(k, cfg, After(s, writes, |writes|).disk, req);
    CommitAccounting(k, cfg, s, req, stop);
  }

  lemma PartialExact(k: Codec, cfg: Config, s: State, req: Request, n: nat)
    requires Ready(k, cfg, s) && Total(s) == DiskBytes(s.disk) && n <= |PendingOf(k, cfg, s.disk, req)|
    requires NoRepeats(PendingOf(k, cfg, s.disk, req))
    ensures var t := After(s, Writes(k, cfg, s.disk, req), n); Total(t) == DiskBytes(t.disk)
  {
    var (pending, writes) := (PendingOf(k, cfg, s.disk, req), Writes(k, cfg, s.disk, req));
    var made := pending[..n];
    assert writes[..n] == made;
    PendingIsFresh(k, cfg.level, s.disk.cas, Chunks(req.raw, cfg.chunkBytes));
    assert forall i :: 0 <= i < n ==> made[i] == pending[i];
    RepeatsVanish(k, cfg.level, s.disk.cas, made);
    FreshBytes(k, cfg.level, s.disk, made);
  }

  /** Any commit, complete, rejected or cut short, keeps an exact size exact if it
      queues no fresh chunk twice. */
  lemma CommitKeepsExact(k: Codec, cfg: Config, s: State, req: Request, stop: nat)
    requires Ready(k, cfg, s) && Total(s) == DiskBytes(s.disk) && NoRepeats(PendingOf(k, cfg, s.disk, req))
    ensures var t := Commit(k, cfg, s, req, stop).0; Total(t) == DiskBytes(t.disk)
  {
    CommitShape(k, cfg, s, req, stop);
    var (pending, writes) := (PendingOf(k, cfg, s.disk, req), Writes(k, cfg, s.disk, req));
    if stop < |writes| {
      PartialExact(k, cfg, s, req, stop);
    } else if k.unitHash(UnitOf(k, req)) !in s.disk.manifests {
      FullAccounting(k, cfg, s, req);
      PendingIsFresh(k, cfg.level, s.disk.cas, Chunks(req.raw, cfg.chunkBytes));
      RepeatsVanish(k, cfg.level, s.disk.cas, pending);
    }
  }

  /** The commit, if this operation is one, queues no fresh chunk twice. */
  ghost predicate Plain(k: Codec, i: Instance, op: Op)
    requires i.cfg.chunkBytes > 0
  {
    op.Submit? ==> NoRepeats(PendingOf(k, i.cfg, i.state.disk, op.req))
  }

  ghost predicate PlainRun(k: Codec, i: Instance, ops: seq<Op>)
    requires i.cfg.chunkBytes > 0
  {
    ops == [] || (var n := |ops| - 1; PlainRun(k, i, ops[..n]) && Plain(k, Run(k, i, ops[..n]), ops[n]))
  }

  lemma StepExact(k: Codec, i: Instance, op: Op)
    requires Live(k, i) && Total(i.state) == DiskBytes(i.state.disk) && Plain(k, i, op)
    ensures var s := Step(k, i, op).state; Total(s) == DiskBytes(s.disk)
  {
    if op.Submit? {
      CommitKeepsExact(k, i.cfg, i.state, op.req, op.stop);
    }
  }

  /** Over a whole run the cached size equals the real one, stops and reopenings
      included, if no single commit queues a fresh chunk twice. */
  lemma {:induction false} RunExact(k: Codec, i: Instance, ops: seq<Op>)
    requires Live(k, i) && Total(i.state) == DiskBytes(i.state.disk) && PlainRun(k, i, ops)
    ensures var s := Run(k, i, ops).state; Total(s) == DiskBytes(s.disk)
  {
    if ops != [] {
      var shorter := ops[..|ops| - 1];
      RunExact(k, i, shorter);
      RunIsWriteOnce(k, i, shorter, "");
      StepExact(k, Run(k, i, shorter), ops[|ops| - 1]);
    }
  }

  // ----- retrying an interrupted commit -----

  lemma WriteBytesAppend(writes: seq<Write>, w: Write)
    ensures WriteBytes(writes + [w]) == WriteBytes(writes) + |w.data|
  {
  }

  /** Bytes still to be written for some chunks. */
  ghost function Missing(k: Codec, level: nat, cas: map<string, Bytes>, chunks: seq<Bytes>): nat {
    WriteBytes(Pending(k, level, cas, chunks))
  }

  lemma {:induction false} MissingShrinks(k: Codec, level: nat, cas: map<string, Bytes>, chunks: seq<Bytes>, c: Bytes)
    requires k.hash(c) !in cas
    ensures var now := cas[k.hash(c) := k.compress(level, c)];
      Missing(k, level, now, chunks) + (if c in chunks then |k.compress(level, c)| else 0) <= Missing(k, level, cas, chunks)
  {
    if chunks != [] {
      var (front, last) := (chunks[..|chunks| - 1], chunks[|chunks| - 1]);
      MissingShrinks(k, level, cas, front, c);
      assert chunks == front + [last];
    }
  }

  lemma PotentialStep(k: Codec, level: nat, disk: Disk, mid: Disk, chunks: seq<Bytes>, shorter: seq<Bytes>, c: Bytes)
    requires Lawful(k) && c in chunks && k.hash(c) !in disk.cas
    requires mid == ApplyAll(disk, Pending(k, level, disk.cas, shorter))
    ensures var now := Apply(mid, ChunkFile(k.hash(c), k.compress(level, c)));
      DiskBytes(now) + Missing(k, level, now.cas, chunks) <= DiskBytes(mid) + Missing(k, level, mid.cas, chunks)
  {
    var (d, data) := (k.hash(c), k.compress(level, c));
    SizeReplace(mid.cas, d, data);
    if d in mid.cas {
      assert mid.cas[d] == data by {
        PendingFills(k, level, disk, shorter);
      }
      assert mid.cas[d := data] == mid.cas;
    } else {
      MissingShrinks(k, level, mid.cas, chunks, c);
    }
  }

  /** Writing a pending chunk never raises "bytes on disk plus bytes missing". */
  lemma {:induction false} PotentialFalls(k: Codec, level: nat, disk: Disk, chunks: seq<Bytes>, j: nat)
    requires Lawful(k) && j <= |chunks|
    ensures var now := ApplyAll(disk, Pending(k, level, disk.cas, chunks[..j]));
      DiskBytes(now) + Missing(k, level, now.cas, chunks) <= DiskBytes(disk) + Missing(k, level, disk.cas, chunks)
  {
    if j > 0 {
      PotentialFalls(k, level, disk, chunks, j - 1);
      var (shorter, c) := (chunks[..j - 1], chunks[j - 1]);
      var before := Pending(k, level, disk.cas, shorter);
      var (mid, w) := (ApplyAll(disk, before), ChunkFile(k.hash(c), k.compress(level, c)));
      assert chunks[..j][..j - 1] == shorter;
      if k.hash(c) !in disk.cas {
        ApplyAppend(disk, before, w);
        PotentialStep(k, level, disk, mid, chunks, shorter, c);
      }
    }
  }

  lemma FilledAccepts(k: Codec, level: nat, was: map<string, Bytes>, now: map<string, Bytes>, chunks: seq<Bytes>, c: Bytes)
    requires Lawful(k) && Filled(k, level, was, now, chunks) && Accepts(k, level, was, c)
    ensures Accepts(k, level, now, c)
  {
    var d := k.hash(c);
    if d in now && d !in was {
      var i :| 0 <= i < |chunks| && k.hash(chunks[i]) == d;
      assert chunks[i] == c;
    }
  }

  lemma InterruptedAccepts(k: Codec, cfg: Config, s: State, req: Request, stop: nat)
    requires Ready(k, cfg, s) && AcceptsAll(k, cfg, s.disk, req) && stop <= |PendingOf(k, cfg, s.disk, req)|
    ensures AcceptsAll(k, cfg, After(s, Writes(k, cfg, s.disk, req), stop).disk, req)
  {
    var cas := After(s, Writes(k, cfg, s.disk, req), stop).disk.cas;
    var chunks := Chunks(req.raw, cfg.chunkBytes);
    var j := PartialCommit(k, cfg, s, req, stop);
    forall i | 0 <= i < |chunks| ensures Accepts(k, cfg.level, cas, chunks[i]) {
      assert Accepts(k, cfg.level, s.disk.cas, chunks[i]);
      FilledAccepts(k, cfg.level, s.disk.cas, cas, chunks[..j], chunks[i]);
    }
  }

  lemma InterruptedFits(k: Codec, cfg: Config, s: State, req: Request, stop: nat)
    requires Ready(k, cfg, s) && Bounded(s) && stop <= |PendingOf(k, cfg, s.disk, req)|
    ensures var writes := Writes(k, cfg, s.disk, req);
      var disk := After(s, writes, stop).disk;
      DiskBytes(disk) + WriteBytes(Writes(k, cfg, disk, req)) <= Total(s) + WriteBytes(writes)
  {
    var t := After(s, Writes(k, cfg, s.disk, req), stop);
    var chunks := Chunks(req.raw, cfg.chunkBytes);
    var (pending, writes) := (PendingOf(k, cfg, s.disk, req), Writes(k, cfg, s.disk, req));
    var j := PendingPrefix(k, cfg.level, s.disk.cas, chunks, stop);
    assert writes[..stop] == pending[..stop];
    PotentialFalls(k, cfg.level, s.disk, chunks, j);
    WriteBytesAppend(pending, writes[|pending|]);
    WriteBytesAppend(PendingOf(k, cfg, t.disk, req), writes[|pending|]);
  }

  /** All writes made, the read-back verification succeeds. */
  lemma Completes(k: Codec, cfg: Config, s: State, req: Request)
    requires Ready(k, cfg, s) && MayWrite(k, cfg, s, req)
    ensures var writes := Writes(k, cfg, s.disk, req);
      Verified(k, cfg, After(s, writes, |writes|).disk, req) == Committed(ReceiptOf(k, cfg, req))
  {
    var writes := Writes(k, cfg, s.disk, req);
    FullCommit(k, cfg, s, req);
    HoldsIsVisible(k, cfg, After(s, writes, |writes|).disk, req);
  }

  lemma SameDisk(k: Codec, cfg: Config, s: State, r: State, req: Request, j: nat)
    requires Ready(k, cfg, s) && Ready(k, cfg, r) && j <= |Chunks(req.raw, cfg.chunkBytes)|
    requires r.disk.manifests == s.disk.manifests
    requires Filled(k, cfg.level, s.disk.cas, r.disk.cas, Chunks(req.raw, cfg.chunkBytes)[..j])
    ensures var (ws, wr) := (Writes(k, cfg, s.disk, req), Writes(k, cfg, r.disk, req));
      After(s, ws, |ws|).disk == After(r, wr, |wr|).disk
  {
    var (ws, wr) := (Writes(k, cfg, s.disk, req), Writes(k, cfg, r.disk, req));
    var chunks := Chunks(req.raw, cfg.chunkBytes);
    FullCommitDisk(k, cfg, s, req);
    FullCommitDisk(k, cfg, r, req);
    FilledResumes(k, cfg.level, s.disk.cas, r.disk.cas, After(r, wr, |wr|).disk.cas, chunks, j);
    FilledUnique(k, cfg.level, s.disk.cas, After(s, ws, |ws|).disk.cas, After(r, wr, |wr|).disk.cas, chunks);
  }

  /** Retrying an interrupted commit on a reopened store succeeds, returns the
      receipt of the request, and leaves the disk of an uninterrupted commit. */
  lemma RetryCompletes(k: Codec, cfg: Config, s: State, req: Request, stop: nat, again: nat)
    requires Ready(k, cfg, s) && Bounded(s) && Commit(k, cfg, s, req, stop).1 == Interrupted
    requires again >= |Writes(k, cfg, Commit(k, cfg, s, req, stop).0.disk, req)|
    ensures var reopened := State(Commit(k, cfg, s, req, stop).0.disk, None);
      var (t, out) := Commit(k, cfg, reopened, req, again);
      && out == Committed(ReceiptOf(k, cfg, req))
      && t.disk == Commit(k, cfg, s, req, |Writes(k, cfg, s.disk, req)|).0.disk
  {
    if !MayWrite(k, cfg, s, req) {
      CommitKeeps(k, cfg, s, req, stop);
    }
    var writes := Writes(k, cfg, s.disk, req);
    CommitWrites(k, cfg, s, req, stop);
    CommitWrites(k, cfg, s, req, |writes|);
    var reopened := State(After(s, writes, stop).disk, None);
    var j := PartialCommit(k, cfg, s, req, stop);
    InterruptedAccepts(k, cfg, s, req, stop);
    InterruptedFits(k, cfg, s, req, stop);
    CommitWrites(k, cfg, reopened, req, again);
    Completes(k, cfg, reopened, req);
    SameDisk(k, cfg, s, reopened, req, j);
  }
}

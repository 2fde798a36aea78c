/** The store as the program runs it: an object that changes its directories one
    file at a time. */
module ArtifactEngine {
  import opened Common
  import opened ArtifactStore
  import opened ArtifactLaws
  import opened ArtifactCapacity

  lemma JoinAppend(parts: seq<Bytes>, p: Bytes)
    ensures Join(parts + [p]) == Join(parts) + p
  {
    if parts == [] {
      assert [p][1..] == [] && ([] + [p]) == [p];
      assert p + [] == p;
    } else {
      JoinAppend(parts[1..], p);
      assert (parts + [p])[1..] == parts[1..] + [p];
    }
  }

  /** Sum of the file sizes of a directory. */
  method ScanBytes(files: map<string, Bytes>) returns (n: nat)
    ensures n == Size(files)
  {
    n := 0;
    var rest := files;
    while rest != map[]
      invariant n + Size(rest) == Size(files)
      decreases |rest|
    {
      var name :| name in rest;
      SizeWithout(rest, name);
      n := n + |rest[name]|;
      rest := rest - {name};
    }
  }

  method SumBytes(writes: seq<Write>) returns (n: nat)
    ensures n == WriteBytes(writes)
  {
    n := 0;
    for i := 0 to |writes|
      invariant n == WriteBytes(writes[..i])
    {
      assert writes[..i + 1][..i] == writes[..i];
      n := n + |writes[i].data|;
    }
    assert writes[..|writes|] == writes;
  }

  /** What the chunk loop has gathered from the chunks seen so far. */
  ghost predicate Planned(k: Codec, level: nat, cas: map<string, Bytes>, seen: seq<Bytes>, refs: seq<ChunkRef>, pending: seq<Write>) {
    && (forall i :: 0 <= i < |seen| ==> Accepts(k, level, cas, seen[i]))
    && refs == Refs(k, level, seen)
    && pending == Pending(k, level, cas, seen)
  }

  lemma PlannedStep(k: Codec, level: nat, cas: map<string, Bytes>, seen: seq<Bytes>, refs: seq<ChunkRef>, pending: seq<Write>, c: Bytes)
    requires Planned(k, level, cas, seen, refs, pending) && Accepts(k, level, cas, c)
    ensures Planned(k, level, cas, seen + [c], refs + [RefOf(k, level, |refs|, c)],
                    if k.hash(c) in cas then pending else pending + [ChunkFile(k.hash(c), k.compress(level, c))])
  {
  }

  /** Chunks already seen, followed by those of the rest. */
  ghost predicate Split(raw: Bytes, n: nat, seen: seq<Bytes>, offset: nat)
    requires n > 0 && offset <= |raw|
  {
    Chunks(raw, n) == seen + Chunks(raw[offset..], n)
  }

  lemma FirstChunk(raw: Bytes, offset: nat, end: nat, n: nat)
    requires n > 0 && offset < end <= |raw| && end == if offset + n <= |raw| then offset + n else |raw|
    ensures Chunks(raw[offset..], n) == [raw[offset..end]] + Chunks(raw[end..], n)
  {
    var rest := raw[offset..];
    if |rest| <= n {
      assert rest == raw[offset..end] && raw[end..] == [];
    } else {
      assert rest[..n] == raw[offset..end] && rest[n..] == raw[end..];
    }
  }

  lemma SplitStep(raw: Bytes, n: nat, seen: seq<Bytes>, offset: nat, end: nat)
    requires n > 0 && offset < end <= |raw| && end == if offset + n <= |raw| then offset + n else |raw|
    requires Split(raw, n, seen, offset)
    ensures Split(raw, n, seen + [raw[offset..end]], end)
    ensures |seen| < |Chunks(raw, n)| && Chunks(raw, n)[|seen|] == raw[offset..end]
  {
    FirstChunk(raw, offset, end, n);
    assert seen + ([raw[offset..end]] + Chunks(raw[end..], n)) == seen + [raw[offset..end]] + Chunks(raw[end..], n);
  }

  /** The chunk loop of a commit: references for the manifest and files to write. */
  method PlanChunks(k: Codec, cfg: Config, cas: map<string, Bytes>, raw: Bytes)
    returns (ok: bool, refs: seq<ChunkRef>, pending: seq<Write>)
    requires cfg.chunkBytes > 0
    ensures ok ==> Planned(k, cfg.level, cas, Chunks(raw, cfg.chunkBytes), refs, pending)
    ensures !ok ==> exists i :: 0 <= i < |Chunks(raw, cfg.chunkBytes)| && !Accepts(k, cfg.level, cas, Chunks(raw, cfg.chunkBytes)[i])
  {
    refs, pending := [], [];
    var offset := 0;
    ghost var seen: seq<Bytes> := [];
    assert raw[0..] == raw && [] + Chunks(raw, cfg.chunkBytes) == Chunks(raw, cfg.chunkBytes);
    while offset < |raw|
      invariant offset <= |raw|
      invariant Split(raw, cfg.chunkBytes, seen, offset)
      invariant Planned(k, cfg.level, cas, seen, refs, pending)
    {
      var end := if offset + cfg.chunkBytes <= |raw| then offset + cfg.chunkBytes else |raw|;
      var chunk := raw[offset..end];
      SplitStep(raw, cfg.chunkBytes, seen, offset, end);
      if k.hash(chunk) in cas {
        var existing := cas[k.hash(chunk)];
        if k.hash(existing) != k.hash(k.compress(cfg.level, chunk)) || k.decompress(existing) != chunk {
          assert !Accepts(k, cfg.level, cas, Chunks(raw, cfg.chunkBytes)[|seen|]);
          ok := false;
          return;
        }
      }
      PlannedStep(k, cfg.level, cas, seen, refs, pending, chunk);
      if k.hash(chunk) !in cas {
        pending := pending + [ChunkFile(k.hash(chunk), k.compress(cfg.level, chunk))];
      }
      refs := refs + [RefOf(k, cfg.level, |refs|, chunk)];
      seen := seen + [chunk];
      offset := end;
    }
    assert raw[offset..] == [] && seen + [] == seen;
    ok := true;
  }

  /** The output after `i` sound chunks. */
  ghost predicate ReadSoFar(k: Codec, cas: map<string, Bytes>, refs: seq<ChunkRef>, i: nat, parts: Bytes)
    requires i <= |refs|
  {
    && FirstError(k, cas, refs[..i]).None?
    && (forall j :: 0 <= j < i ==> refs[j].rawSha in cas)
    && parts == Join(Parts(k, cas, refs[..i]))
  }

  lemma {:induction false} ErrorPersists(k: Codec, cas: map<string, Bytes>, refs: seq<ChunkRef>, i: nat)
    requires i <= |refs| && FirstError(k, cas, refs[..i]).Some?
    ensures FirstError(k, cas, refs) == FirstError(k, cas, refs[..i])
  {
    if i == |refs| {
      assert refs[..i] == refs;
    } else {
      var shorter := refs[..|refs| - 1];
      assert shorter[..i] == refs[..i];
      ErrorPersists(k, cas, shorter, i);
    }
  }

  /** One turn of the chunk loop: an error is final, a sound chunk extends the output. */
  lemma ReadOne(k: Codec, cas: map<string, Bytes>, refs: seq<ChunkRef>, i: nat, parts: Bytes)
    requires i < |refs| && ReadSoFar(k, cas, refs, i, parts)
    ensures ChunkError(k, cas, refs[i]).Some? ==> FirstError(k, cas, refs) == ChunkError(k, cas, refs[i])
    ensures ChunkError(k, cas, refs[i]).None? ==>
      refs[i].rawSha in cas && ReadSoFar(k, cas, refs, i + 1, parts + k.decompress(cas[refs[i].rawSha]))
  {
    assert refs[..i + 1][..i] == refs[..i];
    if ChunkError(k, cas, refs[i]).Some? {
      ErrorPersists(k, cas, refs, i + 1);
    } else {
      var raw := k.decompress(cas[refs[i].rawSha]);
      JoinAppend(Parts(k, cas, refs[..i]), raw);
      assert Parts(k, cas, refs[..i + 1]) == Parts(k, cas, refs[..i]) + [raw];
    }
  }

  class ContentAddressedArtifactStore {
    const codec: Codec
    const cfg: Config
    var cas: map<string, Bytes>
    var manifests: map<string, Bytes>
    var sizeCache: Option<nat>

    ghost function Snapshot(): State
      reads this
    {
      State(Disk(cas, manifests), sizeCache)
    }

    /** Opens the namespace directories as they are. */
    constructor (codec: Codec, cfg: Config, cas: map<string, Bytes>, manifests: map<string, Bytes>)
      ensures this.codec == codec && this.cfg == cfg && Snapshot() == State(Disk(cas, manifests), None)
    {
      this.codec, this.cfg, this.cas, this.manifests, sizeCache := codec, cfg, cas, manifests, None;
    }

    method TotalBytes() returns (n: nat)
      modifies this`sizeCache
      ensures n == Total(old(Snapshot())) && Snapshot() == old(Snapshot()).(sizeCache := Some(n))
    {
      if sizeCache.None? {
        var chunks := ScanBytes(cas);
        var documents := ScanBytes(manifests);
        sizeCache := Some(chunks + documents);
      }
      n := sizeCache.value;
    }

    method AtomicWrite(w: Write)
      modifies this
      ensures Snapshot() == old(Snapshot()).(disk := Apply(old(Snapshot()).disk, w))
    {
      match w
      case ChunkFile(digest, data) => cas := cas[digest := data];
      case ManifestFile(name, data) => manifests := manifests[name := data];
    }

    /** Write the files one by one, recording each, unless the process stops. */
    method WriteFiles(writes: seq<Write>, stop: nat)
      requires sizeCache.Some?
      modifies this
      ensures Snapshot() == After(old(Snapshot()), writes, if stop < |writes| then stop else |writes|)
    {
      ghost var before := Snapshot();
      var i := 0;
      assert writes[..0] == [];
      while i < |writes| && i < stop
        invariant i <= |writes| && i <= stop
        invariant Snapshot() == After(before, writes, i)
      {
        assert writes[..i + 1] == writes[..i] + [writes[i]];
        ApplyAppend(before.disk, writes[..i], writes[i]);
        AtomicWrite(writes[i]);
        sizeCache := Some(sizeCache.value + |writes[i].data|);
        i := i + 1;
      }
    }

    /** Reserve the space, then write; `None` means that every file was written. */
    method Materialise(writes: seq<Write>, stop: nat) returns (verdict: Option<Outcome>)
      modifies this
      ensures var s := old(Snapshot());
        if Total(s) + WriteBytes(writes) > cfg.maxBytes then
          Snapshot() == s.(sizeCache := Some(Total(s))) && verdict == Some(Rejected("CAPACITY_EXTERNAL_BYTES_EXCEEDED"))
        else if stop < |writes| then Snapshot() == After(s, writes, stop) && verdict == Some(Interrupted)
        else Snapshot() == After(s, writes, |writes|) && verdict == None
    {
      var added := SumBytes(writes);
      var total := TotalBytes();
      if total + added > cfg.maxBytes {
        return Some(Rejected("CAPACITY_EXTERNAL_BYTES_EXCEEDED"));
      }
      WriteFiles(writes, stop);
      verdict := if stop < |writes| then Some(Interrupted) else None;
    }

    method CommitBytes(req: Request, stop: nat) returns (out: Outcome)
      requires cfg.chunkBytes > 0
      modifies this
      ensures (Snapshot(), out) == Commit(codec, cfg, old(Snapshot()), req, stop)
    {
      var unit := codec.strip(req.unitId);
      if unit == "" {
        return Rejected("unit_id is required");
      }
      var ok, refs, pending := PlanChunks(codec, cfg, cas, req.raw);
      if !ok {
        return Rejected("ARTIFACT_CORRUPT");
      }
      var manifest := Manifest(req.schema, cfg.namespace, unit, req.logicalSha, codec.hash(req.raw), |req.raw|,
                               req.context, cfg.level, cfg.chunkBytes, refs);
      assert manifest == ManifestOf(codec, cfg, req);
      var data := codec.encode(manifest);
      var name := codec.unitHash(unit);
      if name in manifests {
        if manifests[name] != data {
          return Rejected("ARTIFACT_HISTORY_REWRITE");
        }
      } else {
        var writes := pending + [ManifestFile(name, data)];
        assert writes == Writes(codec, cfg, Snapshot().disk, req);
        var verdict := Materialise(writes, stop);
        if verdict.Some? {
          return verdict.value;
        }
      }
      var receipt := Receipt(cfg.namespace, unit, codec.hash(data), req.logicalSha, codec.hash(req.raw), |req.raw|);
      var verified := VerifyReceipt(receipt, Some(req.context));
      out := if verified then Committed(receipt) else Rejected("ARTIFACT_CORRUPT");
    }

    /** The chunk loop of a load. */
    method ReadChunks(refs: seq<ChunkRef>) returns (r: Result<Bytes>)
      ensures FirstError(codec, cas, refs).Some? ==> r == Err(FirstError(codec, cas, refs).value)
      ensures FirstError(codec, cas, refs).None? ==>
        (forall i :: 0 <= i < |refs| ==> refs[i].rawSha in cas) && r == Ok(Join(Parts(codec, cas, refs)))
    {
      var parts: Bytes := [];
      for i := 0 to |refs|
        invariant ReadSoFar(codec, cas, refs, i, parts)
      {
        ReadOne(codec, cas, refs, i, parts);
        if ChunkError(codec, cas, refs[i]).Some? {
          return Err(ChunkError(codec, cas, refs[i]).value);
        }
        parts := parts + codec.decompress(cas[refs[i].rawSha]);
      }
      assert refs[..|refs|] == refs;
      r := Ok(parts);
    }

    method LoadBytes(unitId: string, expected: Option<map<string, string>>) returns (r: Result<Bytes>)
      ensures r == Load(codec, cfg.namespace, Disk(cas, manifests), unitId, expected)
    {
      var manifest := LoadManifest(codec, cfg.namespace, Disk(cas, manifests), unitId);
      if manifest.Err? {
        return Err(manifest.error);
      }
      var m := manifest.value;
      if expected.Some? && m.context != expected.value {
        return Err("ARTIFACT_CONTEXT_MISMATCH");
      }
      var output := ReadChunks(m.chunks);
      if output.Err? {
        return Err(output.error);
      }
      if |output.value| != m.rawBytes {
        return Err("ARTIFACT_CORRUPT:length");
      }
      if codec.hash(output.value) != m.rawSha {
        return Err("ARTIFACT_CORRUPT:whole");
      }
      r := output;
    }

    method VerifyReceipt(receipt: Receipt, expected: Option<map<string, string>>) returns (ok: bool)
      ensures ok <==> receipt.namespace == cfg.namespace && Verifies(codec, Disk(cas, manifests), receipt, expected)
    {
      if receipt.namespace != cfg.namespace {
        return false;
      }
      var manifest := LoadManifest(codec, cfg.namespace, Disk(cas, manifests), receipt.unitId);
      if manifest.Err? {
        return false;
      }
      if codec.hash(manifests[codec.unitHash(codec.strip(receipt.unitId))]) != receipt.manifestSha {
        return false;
      }
      var output := LoadBytes(receipt.unitId, expected);
      NoErrorIffSound(codec, cas, manifest.value.chunks);
      ok := output.Ok? && codec.hash(output.value) == receipt.rawSha && manifest.value.logicalSha == receipt.logicalSha;
    }
  }
}

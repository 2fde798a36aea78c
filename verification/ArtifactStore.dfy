/** The content-addressed artifact store: deterministic chunking, deduplicated
    compressed chunks, one manifest per unit written last, a cached size and a
    capacity limit.  A temporary write followed by a rename is one atomic step. */
module ArtifactStore {
  import opened Common

  // ----- data -----

  datatype ChunkRef = ChunkRef(index: nat, rawSha: string, rawBytes: nat, compressedSha: string, compressedBytes: nat)

  datatype Manifest = Manifest(
    schema: string, namespace: string, unitId: string, logicalSha: string, rawSha: string, rawBytes: nat,
    context: map<string, string>, level: nat, chunkBytes: nat, chunks: seq<ChunkRef>)

  datatype Receipt = Receipt(
    namespace: string, unitId: string, manifestSha: string, logicalSha: string, rawSha: string, rawBytes: nat)

  /** SHA-256 over bytes and over unit names, gzip with a fixed MTIME, canonical
      JSON, and `str.strip`. */
  datatype Codec = Codec(
    hash: Bytes -> string, unitHash: string -> string, compress: (nat, Bytes) -> Bytes, decompress: Bytes -> Bytes,
    encode: Manifest -> Bytes, decode: Bytes -> Option<Manifest>, strip: string -> string)

  ghost predicate Lawful(k: Codec) {
    && CollisionFree(k.hash) && CollisionFree(k.unitHash)
    && (forall level, x :: k.decompress(k.compress(level, x)) == x && k.compress(level, x) != [])
    && (forall m :: k.decode(k.encode(m)) == Some(m))
    && (forall s :: k.strip(k.strip(s)) == k.strip(s))
  }

  datatype Config = Config(namespace: string, maxBytes: nat, chunkBytes: nat, level: nat)

  datatype Request = Request(unitId: string, raw: Bytes, logicalSha: string, context: map<string, string>, schema: string)

  datatype Disk = Disk(cas: map<string, Bytes>, manifests: map<string, Bytes>)

  /** One store instance over a disk; the cached size starts out unknown. */
  datatype State = State(disk: Disk, sizeCache: Option<nat>)

  const EMPTY := Disk(map[], map[])

  // ----- chunking -----

  function Chunks(raw: Bytes, n: nat): seq<Bytes>
    requires n > 0
    decreases |raw|
  {
    if raw == [] then []
    else if |raw| <= n then [raw]
    else [raw[..n]] + Chunks(raw[n..], n)
  }

  function Join(parts: seq<Bytes>): Bytes {
    if parts == [] then [] else parts[0] + Join(parts[1..])
  }

  lemma JoinFirst(first: Bytes, rest: seq<Bytes>)
    ensures Join([first] + rest) == first + Join(rest)
  {
    assert ([first] + rest)[1..] == rest;
  }

  lemma {:induction false} ChunksJoin(raw: Bytes, n: nat)
    requires n > 0
    ensures Join(Chunks(raw, n)) == raw
    decreases |raw|
  {
    if raw != [] && |raw| > n {
      ChunksJoin(raw[n..], n);
      JoinFirst(raw[..n], Chunks(raw[n..], n));
    } else if raw != [] {
      JoinFirst(raw, []);
    }
  }

  /** Chunk `i` is the i-th stretch of n bytes, the last one shorter if need be, and there
      are just enough of them. */
  lemma {:induction false} ChunksAt(raw: Bytes, n: nat, i: nat, start: nat)
    requires n > 0 && i < |Chunks(raw, n)| && start == i * n
    ensures start < |raw| && Chunks(raw, n)[i] == raw[start..if start + n <= |raw| then start + n else |raw|]
    ensures i == |Chunks(raw, n)| - 1 <==> |raw| <= start + n
    decreases |raw|
  {
    if |raw| > n {
      var rest := raw[n..];
      if i > 0 {
        assert start - n == (i - 1) * n;
        ChunksAt(rest, n, i - 1, start - n);
        assert Chunks(raw, n)[i] == Chunks(rest, n)[i - 1];
      } else {
        assert start == 0 && Chunks(rest, n) != [];
      }
    } else {
      assert i == 0 && start == 0;
      assert raw[0..|raw|] == raw;
    }
  }

  function RefOf(k: Codec, level: nat, index: nat, chunk: Bytes): ChunkRef {
    var compressed := k.compress(level, chunk);
    ChunkRef(index, k.hash(chunk), |chunk|, k.hash(compressed), |compressed|)
  }

  function Refs(k: Codec, level: nat, chunks: seq<Bytes>): (refs: seq<ChunkRef>)
    ensures |refs| == |chunks|
    ensures forall i :: 0 <= i < |refs| ==> refs[i] == RefOf(k, level, i, chunks[i])
  {
    seq(|chunks|, i requires 0 <= i < |chunks| => RefOf(k, level, i, chunks[i]))
  }

  function ManifestOf(k: Codec, cfg: Config, req: Request): Manifest
    requires cfg.chunkBytes > 0
  {
    Manifest(req.schema, cfg.namespace, k.strip(req.unitId), req.logicalSha, k.hash(req.raw), |req.raw|,
             req.context, cfg.level, cfg.chunkBytes, Refs(k, cfg.level, Chunks(req.raw, cfg.chunkBytes)))
  }

  function ReceiptOf(k: Codec, cfg: Config, req: Request): Receipt
    requires cfg.chunkBytes > 0
  {
    Receipt(cfg.namespace, k.strip(req.unitId), k.hash(k.encode(ManifestOf(k, cfg, req))), req.logicalSha,
            k.hash(req.raw), |req.raw|)
  }

  // ----- reading -----

  /** The checks that `load_bytes` makes on one chunk. */
  predicate ChunkSound(k: Codec, cas: map<string, Bytes>, ref: ChunkRef) {
    && ref.rawSha in cas
    && k.hash(cas[ref.rawSha]) == ref.compressedSha
    && |k.decompress(cas[ref.rawSha])| == ref.rawBytes
    && k.hash(k.decompress(cas[ref.rawSha])) == ref.rawSha
  }

  /** The chunks a manifest refers to, decompressed. */
  function Parts(k: Codec, cas: map<string, Bytes>, refs: seq<ChunkRef>): (parts: seq<Bytes>)
    requires forall i :: 0 <= i < |refs| ==> refs[i].rawSha in cas
    ensures |parts| == |refs|
    ensures forall i :: 0 <= i < |refs| ==> parts[i] == k.decompress(cas[refs[i].rawSha])
  {
    seq(|refs|, i requires 0 <= i < |refs| => k.decompress(cas[refs[i].rawSha]))
  }

  ghost predicate Sound(k: Codec, cas: map<string, Bytes>, m: Manifest) {
    && (forall i :: 0 <= i < |m.chunks| ==> ChunkSound(k, cas, m.chunks[i]))
    && |Join(Parts(k, cas, m.chunks))| == m.rawBytes
    && k.hash(Join(Parts(k, cas, m.chunks))) == m.rawSha
  }

  function ChunkError(k: Codec, cas: map<string, Bytes>, ref: ChunkRef): Option<string> {
    if ref.rawSha !in cas then Some("ARTIFACT_MISSING")
    else if k.hash(cas[ref.rawSha]) != ref.compressedSha then Some("ARTIFACT_CORRUPT:compressed")
    else if !ChunkSound(k, cas, ref) then Some("ARTIFACT_CORRUPT:raw")
    else None
  }

  /** The first complaint of the chunk loop. */
  function FirstError(k: Codec, cas: map<string, Bytes>, refs: seq<ChunkRef>): Option<string> {
    if refs == [] then None
    else
      var before := FirstError(k, cas, refs[..|refs| - 1]);
      if before.Some? then before else ChunkError(k, cas, refs[|refs| - 1])
  }

  lemma {:induction false} NoErrorIffSound(k: Codec, cas: map<string, Bytes>, refs: seq<ChunkRef>)
    ensures FirstError(k, cas, refs).None? <==> forall i :: 0 <= i < |refs| ==> ChunkSound(k, cas, refs[i])
  {
    if refs != [] {
      NoErrorIffSound(k, cas, refs[..|refs| - 1]);
    }
  }

  function LoadManifest(k: Codec, namespace: string, disk: Disk, unitId: string): Result<Manifest> {
    var name := k.unitHash(k.strip(unitId));
    if k.strip(unitId) == "" then Err("unit_id is required")
    else if name !in disk.manifests then Err("ARTIFACT_MISSING")
    else
      match k.decode(disk.manifests[name])
      case None => Err("ARTIFACT_CORRUPT")
      case Some(m) =>
        if m.namespace != namespace || m.unitId != unitId then Err("ARTIFACT_BINDING_MISMATCH") else Ok(m)
  }

  /** `load_bytes`. */
  ghost function Load(k: Codec, namespace: string, disk: Disk, unitId: string, expected: Option<map<string, string>>): Result<Bytes> {
    match LoadManifest(k, namespace, disk, unitId)
    case Err(e) => Err(e)
    case Ok(m) =>
      if expected.Some? && m.context != expected.value then Err("ARTIFACT_CONTEXT_MISMATCH")
      else if FirstError(k, disk.cas, m.chunks).Some? then Err(FirstError(k, disk.cas, m.chunks).value)
      else
        NoErrorIffSound(k, disk.cas, m.chunks);
        var output := Join(Parts(k, disk.cas, m.chunks));
        if |output| != m.rawBytes then Err("ARTIFACT_CORRUPT:length")
        else if k.hash(output) != m.rawSha then Err("ARTIFACT_CORRUPT:whole")
        else Ok(output)
  }

  // ----- what a disk means -----

  /** What a unit was committed with. */
  datatype Entry = Entry(raw: Bytes, logicalSha: string, context: map<string, string>)

  /** Every manifest is the encoding of a well-placed manifest whose chunks are
      all present and intact. */
  ghost predicate ManifestSound(k: Codec, namespace: string, cas: map<string, Bytes>, name: string, data: Bytes) {
    && k.decode(data).Some?
    && var m := k.decode(data).value;
    && k.encode(m) == data
    && m.namespace == namespace
    && name == k.unitHash(m.unitId)
    && k.strip(m.unitId) == m.unitId
    && m.unitId != ""
    && Sound(k, cas, m)
  }

  ghost predicate Inv(k: Codec, namespace: string, disk: Disk) {
    && (forall d :: d in disk.cas ==> k.hash(k.decompress(disk.cas[d])) == d)
    && (forall n :: n in disk.manifests ==> ManifestSound(k, namespace, disk.cas, n, disk.manifests[n]))
  }

  /** The write-once map that a disk stands for. */
  ghost function View(k: Codec, namespace: string, disk: Disk, unit: string): Option<Entry>
    requires Inv(k, namespace, disk)
  {
    if k.unitHash(unit) in disk.manifests then
      var m := k.decode(disk.manifests[k.unitHash(unit)]).value;
      assert ManifestSound(k, namespace, disk.cas, k.unitHash(unit), disk.manifests[k.unitHash(unit)]);
      Some(Entry(Join(Parts(k, disk.cas, m.chunks)), m.logicalSha, m.context))
    else None
  }

  // ----- committing -----

  /** One atomic file replacement. */
  datatype Write = ChunkFile(digest: string, data: Bytes) | ManifestFile(name: string, data: Bytes)

  function Apply(disk: Disk, w: Write): Disk {
    match w
    case ChunkFile(digest, data) => disk.(cas := disk.cas[digest := data])
    case ManifestFile(name, data) => disk.(manifests := disk.manifests[name := data])
  }

  function ApplyAll(disk: Disk, writes: seq<Write>): Disk {
    if writes == [] then disk else Apply(ApplyAll(disk, writes[..|writes| - 1]), writes[|writes| - 1])
  }

  function WriteBytes(writes: seq<Write>): nat {
    if writes == [] then 0 else WriteBytes(writes[..|writes| - 1]) + |writes[|writes| - 1].data|
  }

  /** A chunk already on disk must be the very file this commit would write. */
  predicate Accepts(k: Codec, level: nat, cas: map<string, Bytes>, chunk: Bytes) {
    k.hash(chunk) in cas ==>
      k.hash(cas[k.hash(chunk)]) == k.hash(k.compress(level, chunk)) && k.decompress(cas[k.hash(chunk)]) == chunk
  }

  /** Chunk files still to be written, one per missing occurrence. */
  function Pending(k: Codec, level: nat, cas: map<string, Bytes>, chunks: seq<Bytes>): seq<Write> {
    if chunks == [] then []
    else
      var n := |chunks| - 1;
      var before := Pending(k, level, cas, chunks[..n]);
      if k.hash(chunks[n]) in cas then before
      else before + [ChunkFile(k.hash(chunks[n]), k.compress(level, chunks[n]))]
  }

  datatype Outcome = Committed(receipt: Receipt) | Rejected(error: string) | Interrupted

  ghost function DiskBytes(disk: Disk): nat { Size(disk.cas) + Size(disk.manifests) }

  ghost function Total(s: State): nat { if s.sizeCache.Some? then s.sizeCache.value else DiskBytes(s.disk) }

  /** All files of a commit, the manifest last. */
  function Writes(k: Codec, cfg: Config, disk: Disk, req: Request): seq<Write>
    requires cfg.chunkBytes > 0
  {
    Pending(k, cfg.level, disk.cas, Chunks(req.raw, cfg.chunkBytes)) +
    [ManifestFile(k.unitHash(k.strip(req.unitId)), k.encode(ManifestOf(k, cfg, req)))]
  }

  ghost predicate AcceptsAll(k: Codec, cfg: Config, disk: Disk, req: Request)
    requires cfg.chunkBytes > 0
  {
    var chunks := Chunks(req.raw, cfg.chunkBytes);
    forall i :: 0 <= i < |chunks| ==> Accepts(k, cfg.level, disk.cas, chunks[i])
  }

  /** State after the first `n` writes of a commit: each one is recorded in the
      cached size as it is made. */
  ghost function After(s: State, writes: seq<Write>, n: nat): State
    requires n <= |writes|
  {
    State(ApplyAll(s.disk, writes[..n]), Some(Total(s) + WriteBytes(writes[..n])))
  }

  /** `verify_receipt` for a receipt of this namespace; the size on it is not compared. */
  ghost predicate Verifies(k: Codec, disk: Disk, r: Receipt, expected: Option<map<string, string>>) {
    var name := k.unitHash(k.strip(r.unitId));
    && k.strip(r.unitId) != ""
    && name in disk.manifests
    && k.hash(disk.manifests[name]) == r.manifestSha
    && k.decode(disk.manifests[name]).Some?
    && var m := k.decode(disk.manifests[name]).value;
    && m.namespace == r.namespace
    && m.unitId == r.unitId
    && (expected.Some? ==> m.context == expected.value)
    && Sound(k, disk.cas, m)
    && k.hash(Join(Parts(k, disk.cas, m.chunks))) == r.rawSha
    && m.logicalSha == r.logicalSha
  }

  /** The read-back verification at the end of a commit. */
  ghost function Verified(k: Codec, cfg: Config, disk: Disk, req: Request): Outcome
    requires cfg.chunkBytes > 0
  {
    if Verifies(k, disk, ReceiptOf(k, cfg, req), Some(req.context)) then Committed(ReceiptOf(k, cfg, req))
    else Rejected("ARTIFACT_CORRUPT")
  }

  /** `commit_bytes`, where the process stops before write number `stop` if there
      is one. */
  ghost function Commit(k: Codec, cfg: Config, s: State, req: Request, stop: nat): (State, Outcome)
    requires cfg.chunkBytes > 0
  {
    var name := k.unitHash(k.strip(req.unitId));
    var data := k.encode(ManifestOf(k, cfg, req));
    var writes := Writes(k, cfg, s.disk, req);
    if k.strip(req.unitId) == "" then (s, Rejected("unit_id is required"))
    else if !AcceptsAll(k, cfg, s.disk, req) then (s, Rejected("ARTIFACT_CORRUPT"))
    else if name in s.disk.manifests then
      if s.disk.manifests[name] != data then (s, Rejected("ARTIFACT_HISTORY_REWRITE"))
      else (s, Verified(k, cfg, s.disk, req))
    else if Total(s) + WriteBytes(writes) > cfg.maxBytes then
      (s.(sizeCache := Some(Total(s))), Rejected("CAPACITY_EXTERNAL_BYTES_EXCEEDED"))
    else if stop < |writes| then (After(s, writes, stop), Interrupted)
    else
      var t := After(s, writes, |writes|);
      (t, Verified(k, cfg, t.disk, req))
  }
}

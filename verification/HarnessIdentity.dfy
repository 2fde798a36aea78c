/** The assurance-harness identity: a digest over the sorted tracked files, each
    contributing a four-byte length, its path and its 32-byte content digest. */
module HarnessIdentity {
  import opened Common
  import opened Sorting

  /** A repository: whether it is a git root, which tracked files a pathspec matches, which pathspecs climb out
      of it, which paths are regular files, and their bytes. */
  datatype Repo = Repo(
    gitRoot: bool, tracked: string -> set<string>, climbs: string -> bool, isFile: string -> bool, content: string -> Bytes)

  /** SHA-256 and UTF-8. */
  datatype Coding = Coding(hash: Bytes -> Bytes, utf8: string -> Bytes)

  ghost predicate Lawful(c: Coding) {
    (forall x :: |c.hash(x)| == 32) && (forall s, t :: c.utf8(s) == c.utf8(t) ==> s == t)
  }

  const VERSION := "ovc-aa0-assurance-harness/v1"

  // ----- which files -----

  predicate SpecFine(repo: Repo, spec: string) {
    spec != "" && spec[0] != '/' && !repo.climbs(spec) && repo.tracked(spec) != {}
  }

  ghost predicate Resolvable(repo: Repo, specs: seq<string>) {
    && repo.gitRoot
    && (forall i :: 0 <= i < |specs| ==>
      specs[i] != "" && specs[i][0] != '/' && !repo.climbs(specs[i]) && repo.tracked(specs[i]) != {})
    && (forall i, p :: 0 <= i < |specs| && p in repo.tracked(specs[i]) ==> repo.isFile(p))
  }

  /** All tracked files that some pathspec matches. */
  function Union(repo: Repo, specs: seq<string>): set<string> {
    if specs == [] then {} else Union(repo, specs[..|specs| - 1]) + repo.tracked(specs[|specs| - 1])
  }

  /** Some pathspec matches the path. */
  ghost predicate Matched(repo: Repo, specs: seq<string>, p: string) {
    exists i :: 0 <= i < |specs| && p in repo.tracked(specs[i])
  }

  lemma {:induction false} UnionContains(repo: Repo, specs: seq<string>, p: string)
    ensures p in Union(repo, specs) <==> Matched(repo, specs, p)
  {
    if specs != [] {
      var n := |specs| - 1;
      UnionContains(repo, specs[..n], p);
      assert forall i :: 0 <= i < n ==> specs[..n][i] == specs[i];
    }
  }

  /** The increasing list of a set of paths. */
  ghost predicate Lists(files: seq<string>, paths: set<string>) {
    && (forall i, j :: 0 <= i < j < |files| ==> LexLe(files[i], files[j]) && files[i] != files[j])
    && (forall p :: p in files <==> p in paths)
  }

  lemma {:induction false} DistinctCount(a: seq<string>, x: string)
    requires forall i, j :: 0 <= i < j < |a| ==> a[i] != a[j]
    ensures multiset(a)[x] == if x in a then 1 else 0
  {
    if a != [] {
      var n := |a| - 1;
      DistinctCount(a[..n], x);
      assert a == a[..n] + [a[n]];
      assert a[n] !in a[..n];
    }
  }

  lemma ListContents(a: seq<string>, paths: set<string>)
    requires Lists(a, paths)
    ensures multiset(a) == multiset(paths)
  {
    forall x ensures multiset(a)[x] == multiset(paths)[x] {
      DistinctCount(a, x);
    }
  }

  lemma {:induction false} ListIsUnique(a: seq<string>, b: seq<string>, paths: set<string>)
    requires Lists(a, paths) && Lists(b, paths)
    ensures a == b
  {
    ListContents(a, paths);
    ListContents(b, paths);
    LexIsTotalPreorder();
    forall x, y | x in multiset(a) && y in multiset(a) && LexLe(x, y) && LexLe(y, x) ensures x == y {
      LexAntisymmetric(x, y);
    }
    SortedUnique(a, b, LexLe);
  }

  function Itself(): string -> string { (p: string) => p }

  lemma SortLists(found: seq<string>, paths: set<string>)
    requires forall i, j :: 0 <= i < j < |found| ==> found[i] != found[j]
    requires forall p :: p in found <==> p in paths
    ensures Lists(SortBy(found, LexLe), paths)
  {
    LexIsTotalPreorder();
    SortBySorts(found, LexLe);
    SortKeepsDistinct(found, Itself(), LexLe);
    var sorted := SortBy(found, LexLe);
    assert forall i, j :: 0 <= i < j < |sorted| ==> Itself()(sorted[i]) != Itself()(sorted[j]);
    SortByContents(found, LexLe);
    forall p ensures p in SortBy(found, LexLe) <==> p in paths {
      SameElements(found, SortBy(found, LexLe), p);
    }
  }

  method SortedPaths(paths: set<string>) returns (files: seq<string>)
    ensures Lists(files, paths)
  {
    var found: seq<string> := [];
    var rest := paths;
    while rest != {}
      invariant rest <= paths
      invariant forall p :: p in found <==> p in paths && p !in rest
      invariant forall i, j :: 0 <= i < j < |found| ==> found[i] != found[j]
      decreases |rest|
    {
      var p :| p in rest;
      found := found + [p];
      rest := rest - {p};
    }
    files := SortBy(found, LexLe);
    SortLists(found, paths);
  }

  lemma AllFiles(repo: Repo, specs: seq<string>, files: seq<string>)
    requires repo.gitRoot && forall i :: 0 <= i < |specs| ==> SpecFine(repo, specs[i])
    requires Lists(files, Union(repo, specs)) && forall j :: 0 <= j < |files| ==> repo.isFile(files[j])
    ensures Resolvable(repo, specs)
  {
    forall i, p | 0 <= i < |specs| && p in repo.tracked(specs[i]) ensures repo.isFile(p) {
      UnionContains(repo, specs, p);
      assert p in files;
    }
  }

  /** `tracked_harness_files`: the increasing list of everything matched, refused if
      a pathspec is unsafe or matches nothing, or a match is not a file. */
  method TrackedHarnessFiles(repo: Repo, specs: seq<string>) returns (r: Result<seq<string>>)
    ensures r.Ok? <==> Resolvable(repo, specs)
    ensures r.Ok? ==> Lists(r.value, Union(repo, specs))
  {
    if !repo.gitRoot {
      return Err("AA0_HARNESS_GIT_ROOT_REQUIRED");
    }
    var resolved: set<string> := {};
    for i := 0 to |specs|
      invariant forall j :: 0 <= j < i ==> SpecFine(repo, specs[j])
      invariant resolved == Union(repo, specs[..i])
    {
      if !SpecFine(repo, specs[i]) {
        return Err("AA0_HARNESS_PATHSPEC_INVALID");
      }
      assert specs[..i + 1][..i] == specs[..i];
      resolved := resolved + repo.tracked(specs[i]);
    }
    assert specs[..|specs|] == specs;
    var files := SortedPaths(resolved);
    for i := 0 to |files|
      invariant forall j :: 0 <= j < i ==> repo.isFile(files[j])
    {
      if !repo.isFile(files[i]) {
        assert files[i] in files;
        UnionContains(repo, specs, files[i]);
        return Err("AA0_HARNESS_TRACKED_INPUT_NOT_FILE");
      }
    }
    AllFiles(repo, specs, files);
    return Ok(files);
  }

  /** Order, repetition and overlap of the pathspecs do not matter: matching the same
      files gives the same list. */
  lemma FilesIgnoreSpecOrder(repo: Repo, specs: seq<string>, others: seq<string>, a: seq<string>, b: seq<string>)
    requires forall p :: Matched(repo, specs, p) <==> Matched(repo, others, p)
    requires Lists(a, Union(repo, specs)) && Lists(b, Union(repo, others))
    ensures a == b
  {
    forall p ensures p in Union(repo, specs) <==> p in Union(repo, others) {
      UnionContains(repo, specs, p);
      UnionContains(repo, others, p);
    }
    assert Union(repo, specs) == Union(repo, others);
    ListIsUnique(a, b, Union(repo, specs));
  }

  // ----- the hashed stream -----

  const LIMIT := 0x1_0000_0000

  /** `n.to_bytes(4, "big")` */
  function BigEndian(n: nat): (b: Bytes)
    requires n < LIMIT
    ensures |b| == 4
  {
    [n / 0x100 / 0x100 / 0x100, n / 0x100 / 0x100 % 0x100, n / 0x100 % 0x100, n % 0x100]
  }

  function FromBigEndian(b: Bytes): nat
    requires |b| == 4
  {
    var (top: nat, high: nat, low: nat, last: nat) := (b[0], b[1], b[2], b[3]);
    ((top * 0x100 + high) * 0x100 + low) * 0x100 + last
  }

  /** The most significant byte comes first. */
  lemma BigEndianIs(n: nat)
    requires n < LIMIT
    ensures var b := BigEndian(n);
      n == (b[0] as int) * 0x100_0000 + (b[1] as int) * 0x1_0000 + (b[2] as int) * 0x100 + b[3] as int
  {
    var a := n / 0x100;
    var b := a / 0x100;
    assert n == a * 0x100 + n % 0x100;
    assert a == b * 0x100 + a % 0x100;
    assert b == b / 0x100 * 0x100 + b % 0x100;
  }

  datatype Entry = Entry(path: Bytes, digest: Bytes)

  ghost predicate Short(e: Entry) { |e.path| < LIMIT }

  ghost predicate AllShort(entries: seq<Entry>) { forall i :: 0 <= i < |entries| ==> Short(entries[i]) }

  ghost predicate Digests(entries: seq<Entry>) { forall i :: 0 <= i < |entries| ==> |entries[i].digest| == 32 }

  function EncodeOne(e: Entry): Bytes
    requires Short(e)
  {
    BigEndian(|e.path|) + e.path + e.digest
  }

  function Encode(entries: seq<Entry>): Bytes
    requires AllShort(entries)
  {
    if entries == [] then [] else EncodeOne(entries[0]) + Encode(entries[1..])
  }

  function Decode(s: Bytes): Option<seq<Entry>>
    decreases |s|
  {
    if s == [] then Some([])
    else if |s| < 4 then None
    else
      var n := FromBigEndian(s[..4]);
      if |s| < 4 + n + 32 then None
      else
        match Decode(s[4 + n + 32..])
        case None => None
        case Some(rest) => Some([Entry(s[4..4 + n], s[4 + n..4 + n + 32])] + rest)
  }

  lemma DecodeOne(e: Entry, rest: Bytes, entries: seq<Entry>)
    requires Short(e) && |e.digest| == 32 && Decode(rest) == Some(entries)
    ensures Decode(EncodeOne(e) + rest) == Some([e] + entries)
  {
    var (s, n) := (EncodeOne(e) + rest, |e.path|);
    assert s[..4] == BigEndian(n);
    assert s[4..4 + n] == e.path;
    assert s[4 + n..4 + n + 32] == e.digest;
    assert s[4 + n + 32..] == rest;
  }

  /** The stream can be read back: it is uniquely decodable. */
  lemma {:induction false} StreamRoundTrip(entries: seq<Entry>)
    requires AllShort(entries) && Digests(entries)
    ensures Decode(Encode(entries)) == Some(entries)
  {
    if entries != [] {
      var (e, rest) := (entries[0], entries[1..]);
      assert Short(e) && AllShort(rest) && Digests(rest);
      StreamRoundTrip(rest);
      DecodeOne(e, Encode(rest), rest);
      assert entries == [e] + rest;
    }
  }

  lemma EqualStreamsEqualEntries(a: seq<Entry>, b: seq<Entry>)
    requires AllShort(a) && AllShort(b) && Digests(a) && Digests(b)
    requires Encode(a) == Encode(b)
    ensures a == b
  {
    StreamRoundTrip(a);
    StreamRoundTrip(b);
  }

  // ----- the identity -----

  function EntryOf(c: Coding, repo: Repo, path: string): Entry { Entry(c.utf8(path), c.hash(repo.content(path))) }

  function Entries(c: Coding, repo: Repo, files: seq<string>): (es: seq<Entry>)
    ensures |es| == |files| && forall i :: 0 <= i < |files| ==> es[i] == EntryOf(c, repo, files[i])
  {
    seq(|files|, i requires 0 <= i < |files| => EntryOf(c, repo, files[i]))
  }

  ghost predicate ShortPaths(c: Coding, files: seq<string>) {
    forall i :: 0 <= i < |files| ==> |c.utf8(files[i])| < LIMIT
  }

  function Header(c: Coding): Bytes { c.utf8(VERSION) + [0] }

  function Stream(c: Coding, repo: Repo, files: seq<string>): Bytes
    requires ShortPaths(c, files)
  {
    c.utf8("ovc-aa0-assurance-harness/v1") + [0] + Encode(Entries(c, repo, files))
  }

  lemma Regroup(a: Bytes, b: Bytes, c: Bytes)
    ensures a + (b + c) == (a + b) + c
  {
  }

  lemma {:induction false} EncodeAppend(entries: seq<Entry>, e: Entry)
    requires AllShort(entries) && Short(e)
    ensures AllShort(entries + [e]) && Encode(entries + [e]) == Encode(entries) + EncodeOne(e)
  {
    if entries == [] {
      assert entries + [e] == [e];
      assert Encode([e]) == EncodeOne(e) + Encode([]);
    } else {
      var (first, rest) := (entries[0], entries[1..]);
      EncodeAppend(rest, e);
      assert (entries + [e])[0] == first && (entries + [e])[1..] == rest + [e];
      Regroup(EncodeOne(first), Encode(rest), EncodeOne(e));
    }
  }

  /** Feeding one more file extends the stream by that file's entry. */
  lemma StreamGrows(c: Coding, repo: Repo, files: seq<string>, f: string)
    requires ShortPaths(c, files) && |c.utf8(f)| < LIMIT
    ensures ShortPaths(c, files + [f])
    ensures Stream(c, repo, files + [f]) == Stream(c, repo, files) + EncodeOne(EntryOf(c, repo, f))
  {
    var (es, e) := (Entries(c, repo, files), EntryOf(c, repo, f));
    EncodeAppend(es, e);
    assert Entries(c, repo, files + [f]) == es + [e];
    Regroup(Header(c), Encode(es), EncodeOne(e));
  }

  /** `compute_harness_identity`: the bytes fed to the digest are the stream of the
      listed files; a path too long for its length field is an error. */
  method ComputeHarnessIdentity(c: Coding, repo: Repo, specs: seq<string>) returns (r: Result<Bytes>, files: seq<string>)
    ensures Resolvable(repo, specs) ==> Lists(files, Union(repo, specs))
    ensures r.Ok? <==> Resolvable(repo, specs) && ShortPaths(c, files)
    ensures r.Ok? ==> r.value == c.hash(Stream(c, repo, files))
  {
    files := [];
    var tracked := TrackedHarnessFiles(repo, specs);
    if tracked.Err? {
      return Err(tracked.error), files;
    }
    files := tracked.value;
    var fed := Header(c);
    for i := 0 to |files|
      invariant ShortPaths(c, files[..i])
      invariant fed == Stream(c, repo, files[..i])
    {
      var (path, digest) := (c.utf8(files[i]), c.hash(repo.content(files[i])));
      if |path| >= LIMIT {
        return Err("OverflowError"), files;
      }
      assert files[..i + 1] == files[..i] + [files[i]];
      StreamGrows(c, repo, files[..i], files[i]);
      fed := fed + (BigEndian(|path|) + path + digest);
    }
    assert files[..|files|] == files;
    r := Ok(c.hash(fed));
  }

  ghost predicate NoCollision(c: Coding, x: Bytes, y: Bytes) { c.hash(x) == c.hash(y) ==> x == y }

  /** Equal identities mean the same harness: unless SHA-256 collides on the very
      streams or files compared, the path lists and all file contents agree. */
  lemma SameIdentitySameHarness(c: Coding, a: Repo, b: Repo, fa: seq<string>, fb: seq<string>)
    requires Lawful(c) && ShortPaths(c, fa) && ShortPaths(c, fb)
    requires c.hash(Stream(c, a, fa)) == c.hash(Stream(c, b, fb))
    requires NoCollision(c, Stream(c, a, fa), Stream(c, b, fb))
    requires forall p :: NoCollision(c, a.content(p), b.content(p))
    ensures fa == fb
    ensures forall p :: p in fa ==> a.content(p) == b.content(p)
  {
    var (ea, eb) := (Entries(c, a, fa), Entries(c, b, fb));
    var h := |Header(c)|;
    assert Stream(c, a, fa)[h..] == Encode(ea) && Stream(c, b, fb)[h..] == Encode(eb);
    EqualStreamsEqualEntries(ea, eb);
    forall i | 0 <= i < |fa| ensures fa[i] == fb[i] && a.content(fa[i]) == b.content(fa[i]) {
      assert ea[i] == EntryOf(c, a, fa[i]) && eb[i] == EntryOf(c, b, fb[i]);
    }
  }
}

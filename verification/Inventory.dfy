/** Workspace inventories: how a directory tree is listed, how a listing is
    validated, and what it means for the two to agree. */
module Inventory {
  import opened Common
  import opened Sorting

  /** A directory tree as its regular files by relative POSIX path. */
  type Tree = map<string, Bytes>

  datatype FileRecord = FileRecord(path: string, sha256: string, size: int)

  datatype Document = Document(schema: string, workspaceId: string, files: seq<FileRecord>, unresolved: seq<string>)

  /** SHA-256 of file bytes and of a canonical document, case folding, and the path
      predicate of `validate_relative_path`. */
  datatype Env = Env(
    hash: Bytes -> string, documentHash: Document -> string, casefold: string -> string, validPath: string -> bool)

  const SCHEMA := "ovc-evidence-workspace-inventory/v1"

  predicate IsAlnum(c: char) { 'a' <= c <= 'z' || 'A' <= c <= 'Z' || '0' <= c <= '9' }

  /** `[A-Za-z0-9][A-Za-z0-9._-]{0,127}` */
  predicate IsIdentifier(s: string) {
    1 <= |s| <= 128 && IsAlnum(s[0]) && forall i :: 0 <= i < |s| ==> IsAlnum(s[i]) || s[i] in "._-"
  }

  /** An identifier is a plain file name: it cannot name another directory. */
  lemma IdentifierIsPlain(s: string)
    requires IsIdentifier(s)
    ensures s != "" && s != "." && s != ".." && |s| <= 128
    ensures forall i :: 0 <= i < |s| ==> s[i] != '/' && s[i] != '\\' && s[i] != ':' && s[i] as int > 32
  {
  }

  predicate IsSha256(s: string) {
    |s| == 64 && forall i :: 0 <= i < |s| ==> '0' <= s[i] <= '9' || 'a' <= s[i] <= 'f'
  }

  // ----- validation -----

  predicate RecordFine(env: Env, r: FileRecord) {
    env.validPath(r.path) && IsSha256(r.sha256) && r.size >= 0
  }

  /** Paths strictly increase, and no two collide when case is folded. */
  ghost predicate Canonical(env: Env, files: seq<FileRecord>) {
    && (forall i, j :: 0 <= i < j < |files| ==> LexLe(files[i].path, files[j].path) && files[i].path != files[j].path)
    && (forall i, j :: 0 <= i < j < |files| ==> env.casefold(files[i].path) != env.casefold(files[j].path))
  }

  ghost predicate Valid(env: Env, doc: Document) {
    && doc.schema == SCHEMA && IsIdentifier(doc.workspaceId) && doc.unresolved == []
    && Canonical(env, doc.files)
    && forall i :: 0 <= i < |doc.files| ==>
      env.validPath(doc.files[i].path) && IsSha256(doc.files[i].sha256) && doc.files[i].size >= 0
  }

  ghost predicate Scanned(env: Env, files: seq<FileRecord>, aliases: set<string>) {
    && Canonical(env, files)
    && (forall i :: 0 <= i < |files| ==> RecordFine(env, files[i]))
    && (forall a :: a in aliases <==> exists i :: 0 <= i < |files| && env.casefold(files[i].path) == a)
  }

  lemma ScannedStep(env: Env, files: seq<FileRecord>, r: FileRecord, aliases: set<string>)
    requires Scanned(env, files, aliases) && RecordFine(env, r) && env.casefold(r.path) !in aliases
    requires files != [] ==> !LexLe(r.path, files[|files| - 1].path)
    ensures Scanned(env, files + [r], aliases + {env.casefold(r.path)})
  {
    var all := files + [r];
    forall i | 0 <= i < |files| ensures LexLe(files[i].path, r.path) && files[i].path != r.path {
      var last := files[|files| - 1].path;
      LexTotal(last, r.path);
      LexReflexive(last);
      if i < |files| - 1 {
        LexTransitive(files[i].path, last, r.path);
      }
    }
    forall a | a in aliases + {env.casefold(r.path)} ensures exists i :: 0 <= i < |all| && env.casefold(all[i].path) == a {
      if a in aliases {
        var i :| 0 <= i < |files| && env.casefold(files[i].path) == a;
        assert env.casefold(all[i].path) == a;
      } else {
        assert env.casefold(all[|files|].path) == a;
      }
    }
  }

  lemma ScanRejects(env: Env, doc: Document, i: nat, aliases: set<string>)
    requires i < |doc.files| && Scanned(env, doc.files[..i], aliases)
    requires var r := doc.files[i];
      !RecordFine(env, r) || env.casefold(r.path) in aliases || (i > 0 && LexLe(r.path, doc.files[i - 1].path))
    ensures !Valid(env, doc)
  {
    var r := doc.files[i];
    if env.casefold(r.path) in aliases {
      var j :| 0 <= j < |doc.files[..i]| && env.casefold(doc.files[..i][j].path) == env.casefold(r.path);
      assert env.casefold(doc.files[j].path) == env.casefold(r.path);
    } else if RecordFine(env, r) {
      var previous := doc.files[i - 1].path;
      if LexLe(previous, r.path) {
        LexAntisymmetric(previous, r.path);
      }
    }
  }

  /** The validation loop accepts exactly the valid documents. */
  method ValidateInventory(env: Env, doc: Document) returns (ok: bool)
    ensures ok <==> Valid(env, doc)
  {
    if doc.schema != SCHEMA || !IsIdentifier(doc.workspaceId) || doc.unresolved != [] {
      return false;
    }
    var aliases: set<string> := {};
    for i := 0 to |doc.files|
      invariant Scanned(env, doc.files[..i], aliases)
    {
      var r := doc.files[i];
      if !RecordFine(env, r) || env.casefold(r.path) in aliases || (i > 0 && LexLe(r.path, doc.files[i - 1].path)) {
        ScanRejects(env, doc, i, aliases);
        return false;
      }
      ScannedStep(env, doc.files[..i], r, aliases);
      assert doc.files[..i + 1] == doc.files[..i] + [r];
      aliases := aliases + {env.casefold(r.path)};
    }
    assert doc.files[..|doc.files|] == doc.files;
    return true;
  }

  // ----- listing a tree -----

  predicate PathLe(a: FileRecord, b: FileRecord) { LexLe(a.path, b.path) }

  function RecordOf(env: Env, path: string, data: Bytes): FileRecord {
    FileRecord(path, env.hash(data), |data|)
  }

  /** The records are those of the tree, one per file. */
  ghost predicate Describes(env: Env, files: seq<FileRecord>, tree: Tree) {
    && (forall i :: 0 <= i < |files| ==>
      && files[i].path in tree && files[i].sha256 == env.hash(tree[files[i].path])
      && files[i].size == |tree[files[i].path]|)
    && (forall p :: p in tree ==> exists i :: 0 <= i < |files| && files[i].path == p)
  }

  /** Every path is admissible and no two collide when case is folded. */
  ghost predicate PathsFine(env: Env, tree: Tree) {
    && (forall p :: p in tree ==> env.validPath(p))
    && (forall p, q :: p in tree && q in tree && env.casefold(p) == env.casefold(q) ==> p == q)
  }

  ghost predicate Apart(records: seq<FileRecord>) {
    forall i, j :: 0 <= i < j < |records| ==> records[i].path != records[j].path
  }

  /** The records of the files walked so far, in walking order. */
  ghost predicate Listed(env: Env, records: seq<FileRecord>, tree: Tree, rest: set<string>) {
    && Apart(records)
    && (forall i :: 0 <= i < |records| ==>
      && records[i].path in tree && records[i].path !in rest
      && records[i] == RecordOf(env, records[i].path, tree[records[i].path]))
    && (forall p :: p in tree && p !in rest ==> exists i :: 0 <= i < |records| && records[i].path == p)
  }

  /** The paths walked so far are fine, and `aliases` holds their folded forms. */
  ghost predicate Folded(env: Env, tree: Tree, rest: set<string>, aliases: set<string>) {
    && (forall p :: p in tree && p !in rest ==> env.validPath(p) && env.casefold(p) in aliases)
    && (forall p, q :: p in tree && q in tree && p !in rest && q !in rest && env.casefold(p) == env.casefold(q) ==> p == q)
    && (forall a :: a in aliases ==> exists p :: p in tree && p !in rest && env.casefold(p) == a)
  }

  lemma ListedStep(env: Env, records: seq<FileRecord>, tree: Tree, rest: set<string>, p: string)
    requires Listed(env, records, tree, rest) && p in rest && p in tree
    ensures Listed(env, records + [RecordOf(env, p, tree[p])], tree, rest - {p})
  {
    var all := records + [RecordOf(env, p, tree[p])];
    assert all[|records|].path == p;
    forall q | q in tree && q !in rest - {p} ensures exists i :: 0 <= i < |all| && all[i].path == q {
      if q != p {
        var i :| 0 <= i < |records| && records[i].path == q;
        assert all[i].path == q;
      }
    }
  }

  lemma FoldedStep(env: Env, tree: Tree, rest: set<string>, aliases: set<string>, p: string)
    requires Folded(env, tree, rest, aliases) && p in rest && p in tree
    requires env.validPath(p) && env.casefold(p) !in aliases
    ensures Folded(env, tree, rest - {p}, aliases + {env.casefold(p)})
  {
  }

  lemma FoldedRejects(env: Env, tree: Tree, rest: set<string>, aliases: set<string>, p: string)
    requires Folded(env, tree, rest, aliases) && p in rest && p in tree
    requires !env.validPath(p) || env.casefold(p) in aliases
    ensures !PathsFine(env, tree)
  {
  }

  lemma WalkStarts(env: Env, tree: Tree)
    ensures Listed(env, [], tree, tree.Keys) && Folded(env, tree, tree.Keys, {})
  {
  }

  ghost predicate Increasing(records: seq<FileRecord>) {
    forall i, j :: 0 <= i < j < |records| ==> LexLe(records[i].path, records[j].path) && records[i].path != records[j].path
  }

  lemma PathLeIsTotalPreorder()
    ensures TotalPreorder(PathLe)
  {
    forall a, b ensures PathLe(a, b) || PathLe(b, a) {
      LexTotal(a.path, b.path);
    }
    forall a, b, c | PathLe(a, b) && PathLe(b, c) ensures PathLe(a, c) {
      LexTransitive(a.path, b.path, c.path);
    }
  }

  function PathOf(): FileRecord -> string { (r: FileRecord) => r.path }

  lemma SortIncreases(records: seq<FileRecord>)
    requires Apart(records)
    ensures Increasing(SortBy(records, PathLe))
  {
    PathLeIsTotalPreorder();
    SortBySorts(records, PathLe);
    SortKeepsDistinct(records, PathOf(), PathLe);
    var sorted := SortBy(records, PathLe);
    forall i, j | 0 <= i < j < |sorted| ensures LexLe(sorted[i].path, sorted[j].path) && sorted[i].path != sorted[j].path {
      assert PathLe(sorted[i], sorted[j]) && PathOf()(sorted[i]) != PathOf()(sorted[j]);
    }
  }

  lemma SortDescribes(env: Env, records: seq<FileRecord>, tree: Tree)
    requires Listed(env, records, tree, {})
    ensures Describes(env, SortBy(records, PathLe), tree) && Increasing(SortBy(records, PathLe))
  {
    var sorted := SortBy(records, PathLe);
    SortByContents(records, PathLe);
    SortIncreases(records);
    forall i | 0 <= i < |sorted|
      ensures sorted[i].path in tree && sorted[i] == RecordOf(env, sorted[i].path, tree[sorted[i].path])
    {
      SameElements(records, sorted, sorted[i]);
    }
    forall p | p in tree ensures exists i :: 0 <= i < |sorted| && sorted[i].path == p {
      var i :| 0 <= i < |records| && records[i].path == p;
      SameElements(records, sorted, records[i]);
    }
  }

  lemma WalkEnds(env: Env, records: seq<FileRecord>, tree: Tree, aliases: set<string>)
    requires Listed(env, records, tree, {}) && Folded(env, tree, {}, aliases)
    ensures PathsFine(env, tree)
    ensures Describes(env, SortBy(records, PathLe), tree) && Increasing(SortBy(records, PathLe))
  {
    SortDescribes(env, records, tree);
  }

  /** `_inventory_records`: lists a tree in path order, whatever the order of the
      directory walk, or refuses it for a bad or colliding path. */
  method InventoryRecords(env: Env, tree: Tree) returns (ok: bool, records: seq<FileRecord>)
    ensures ok <==> PathsFine(env, tree)
    ensures ok ==> Describes(env, records, tree) && Increasing(records)
  {
    records := [];
    var rest, aliases: set<string> := tree.Keys, {};
    WalkStarts(env, tree);
    while rest != {}
      invariant rest <= tree.Keys
      invariant Listed(env, records, tree, rest) && Folded(env, tree, rest, aliases)
      decreases |rest|
    {
      var p :| p in rest;
      if !env.validPath(p) || env.casefold(p) in aliases {
        FoldedRejects(env, tree, rest, aliases, p);
        return false, records;
      }
      ListedStep(env, records, tree, rest, p);
      FoldedStep(env, tree, rest, aliases, p);
      records := records + [RecordOf(env, p, tree[p])];
      aliases := aliases + {env.casefold(p)};
      rest := rest - {p};
    }
    WalkEnds(env, records, tree, aliases);
    return true, SortBy(records, PathLe);
  }

  // ----- agreement -----

  lemma DescribesElements(env: Env, a: seq<FileRecord>, b: seq<FileRecord>, tree: Tree, r: FileRecord)
    requires Describes(env, a, tree) && Describes(env, b, tree) && r in a
    ensures r in b
  {
  }

  lemma {:induction false} IncreasingContents(a: seq<FileRecord>)
    requires Increasing(a)
    ensures forall r :: multiset(a)[r] == if r in a then 1 else 0
  {
    if a != [] {
      var n := |a| - 1;
      IncreasingContents(a[..n]);
      assert a == a[..n] + [a[n]];
      assert a[n] !in a[..n];
    }
  }

  /** A tree has only one increasing listing. */
  lemma ListingIsUnique(env: Env, a: seq<FileRecord>, b: seq<FileRecord>, tree: Tree)
    requires Describes(env, a, tree) && Describes(env, b, tree) && Increasing(a) && Increasing(b)
    ensures a == b
  {
    forall r ensures multiset(a)[r] == multiset(b)[r] {
      IncreasingContents(a);
      IncreasingContents(b);
      if r in a {
        DescribesElements(env, a, b, tree, r);
      }
      if r in b {
        DescribesElements(env, b, a, tree, r);
      }
    }
    assert multiset(a) == multiset(b);
    PathLeIsTotalPreorder();
    forall x, y | x in multiset(a) && y in multiset(a) && PathLe(x, y) && PathLe(y, x) ensures x == y {
      LexAntisymmetric(x.path, y.path);
    }
    SortedUnique(a, b, PathLe);
  }

  /** `_verify_inventory` accepts a tree exactly when the inventory is valid and
      lists every file of the tree, and nothing else, with its hash and size. */
  method VerifyInventory(env: Env, tree: Tree, doc: Document) returns (ok: bool)
    ensures ok <==> Valid(env, doc) && Describes(env, doc.files, tree)
  {
    var valid := ValidateInventory(env, doc);
    if !valid {
      return false;
    }
    var fine, actual := InventoryRecords(env, tree);
    if !fine {
      return false;
    }
    if Describes(env, doc.files, tree) {
      ListingIsUnique(env, actual, doc.files, tree);
    }
    return actual == doc.files;
  }

  /** The listing of a tree with admissible paths, whatever its files hold, makes a valid
      inventory. */
  lemma ListingIsValid(env: Env, records: seq<FileRecord>, tree: Tree, id: string)
    requires PathsFine(env, tree) && Describes(env, records, tree) && Increasing(records) && IsIdentifier(id)
    requires forall data :: IsSha256(env.hash(data))
    ensures Valid(env, Document(SCHEMA, id, records, []))
  {
    forall i, j | 0 <= i < j < |records| ensures env.casefold(records[i].path) != env.casefold(records[j].path) {
      assert records[i].path in tree && records[j].path in tree && records[i].path != records[j].path;
    }
  }

  /** Under a collision-free hash an inventory fixes the tree byte for byte. */
  lemma InventoryFixesTree(env: Env, files: seq<FileRecord>, a: Tree, b: Tree)
    requires CollisionFree(env.hash) && Describes(env, files, a) && Describes(env, files, b)
    ensures a == b
  {
  }
}

/** The append-only checkpoint store: hash-linked records in numbered files,
    where "latest" is the last file name in lexicographic order.  Canonical JSON
    is injective, so a file is modelled as the record it holds. */
module CheckpointChain {
  import opened Common
  import opened Sorting
  import opened Numerals

  datatype Body = Body(
    namespace: string, sequence: int, checkpointId: string, parent: Option<string>, payload: map<string, string>)

  datatype Checkpoint = Checkpoint(body: Body, sha: string)

  datatype Receipt = Receipt(namespace: string, sequence: int, checkpointId: string, sha: string, parent: Option<string>)

  type Files = map<string, Checkpoint>

  type Hash = Body -> string

  /** `f"{sequence:08d}.json"` */
  function Name(sequence: nat): string { Padded(sequence, 8) + ".json" }

  // ----- latest -----

  ghost predicate IsLast(files: Files, name: string) {
    name in files && forall n :: n in files ==> LexLe(n, name)
  }

  lemma {:induction false} LastExists(files: Files)
    requires files != map[]
    ensures exists name :: IsLast(files, name)
    decreases |files|
  {
    var n :| n in files;
    var rest := files - {n};
    LexReflexive(n);
    if rest == map[] {
      forall m | m in files ensures m == n {
        assert m != n ==> m in rest;
      }
      assert IsLast(files, n);
    } else {
      LastExists(rest);
      var l :| IsLast(rest, l);
      LexTotal(n, l);
      if LexLe(n, l) {
        assert IsLast(files, l);
      } else {
        forall m | m in files ensures LexLe(m, n) {
          if m != n {
            assert m in rest;
            LexTransitive(m, l, n);
          }
        }
        assert IsLast(files, n);
      }
    }
  }

  ghost function Latest(files: Files): Option<Checkpoint> {
    if files == map[] then None
    else
      LastExists(files);
      var name :| IsLast(files, name);
      Some(files[name])
  }

  lemma LastIsUnique(files: Files, a: string, b: string)
    requires IsLast(files, a) && IsLast(files, b)
    ensures a == b
  {
    LexAntisymmetric(a, b);
  }

  lemma LatestIs(files: Files, name: string)
    requires IsLast(files, name)
    ensures Latest(files) == Some(files[name])
  {
    var other :| IsLast(files, other) && Latest(files) == Some(files[other]);
    LastIsUnique(files, name, other);
  }

  // ----- commit and verify -----

  function VerifyResult(hash: Hash, namespace: string, files: Files, sequence: int): Result<Body> {
    if sequence <= 0 then Err("checkpoint sequence must be positive")
    else if Name(sequence) !in files then Err("CHECKPOINT_MISSING")
    else
      var c := files[Name(sequence)];
      if c.sha != hash(c.body) then Err("CHECKPOINT_HASH_MISMATCH")
      else if c.body.namespace != namespace || c.body.sequence != sequence then Err("CHECKPOINT_BINDING_MISMATCH")
      else if sequence > 1 && Name(sequence - 1) !in files then Err("CHECKPOINT_PARENT_MISSING")
      else if sequence > 1 && c.body.parent != Some(files[Name(sequence - 1)].sha) then
        Err("CHECKPOINT_PARENT_HASH_MISMATCH")
      else Ok(c.body)
  }

  datatype Request = Request(sequence: int, checkpointId: string, payload: map<string, string>)

  ghost function Expected(files: Files): int {
    match Latest(files)
    case None => 1
    case Some(c) => c.body.sequence + 1
  }

  ghost function BodyFor(namespace: string, files: Files, req: Request): Body {
    var parent := match Latest(files) case None => None case Some(c) => Some(c.sha);
    Body(namespace, req.sequence, req.checkpointId, parent, req.payload)
  }

  ghost function Commit(hash: Hash, namespace: string, files: Files, req: Request): (Files, Result<Receipt>) {
    var body := BodyFor(namespace, files, req);
    var record := Checkpoint(body, hash(body));
    if req.sequence != Expected(files) then (files, Err("CHECKPOINT_SEQUENCE_MISMATCH"))
    else if req.sequence <= 0 then (files, Err("checkpoint sequence must be positive"))
    else if Name(req.sequence) in files && files[Name(req.sequence)] != record then
      (files, Err("CHECKPOINT_HISTORY_REWRITE"))
    else
      var now := files[Name(req.sequence) := record];
      var verified := VerifyResult(hash, namespace, now, req.sequence);
      (now, if verified.Err? then Err(verified.error)
            else Ok(Receipt(namespace, req.sequence, req.checkpointId, record.sha, body.parent)))
  }

  class AppendOnlyCheckpointStore {
    const hash: Hash
    const namespace: string
    var files: Files

    constructor (hash: Hash, namespace: string, files: Files)
      ensures this.hash == hash && this.namespace == namespace && this.files == files
    {
      this.hash, this.namespace, this.files := hash, namespace, files;
    }

    method FindLatest() returns (latest: Option<Checkpoint>)
      ensures latest == Latest(files)
    {
      if files == map[] {
        return None;
      }
      var last :| last in files;
      var rest := files.Keys - {last};
      LexReflexive(last);
      while rest != {}
        invariant last in files && rest <= files.Keys
        invariant forall n :: n in files && n !in rest ==> LexLe(n, last)
        decreases |rest|
      {
        var n :| n in rest;
        rest := rest - {n};
        LexReflexive(n);
        if !LexLe(n, last) {
          LexTotal(n, last);
          forall m | m in files && m !in rest ensures LexLe(m, n) {
            if m != n {
              LexTransitive(m, last, n);
            }
          }
          last := n;
        }
      }
      LatestIs(files, last);
      latest := Some(files[last]);
    }

    method Verify(sequence: int) returns (r: Result<Body>)
      ensures r == VerifyResult(hash, namespace, files, sequence)
    {
      r := VerifyResult(hash, namespace, files, sequence);
    }

    method CommitNext(req: Request) returns (r: Result<Receipt>)
      modifies this
      ensures (files, r) == Commit(hash, namespace, old(files), req)
    {
      var previous := FindLatest();
      var expected := if previous.None? then 1 else previous.value.body.sequence + 1;
      if req.sequence != expected {
        return Err("CHECKPOINT_SEQUENCE_MISMATCH");
      }
      if req.sequence <= 0 {
        return Err("checkpoint sequence must be positive");
      }
      var parent := if previous.None? then None else Some(previous.value.sha);
      var body := Body(namespace, req.sequence, req.checkpointId, parent, req.payload);
      var record := Checkpoint(body, hash(body));
      var name := Name(req.sequence);
      if name in files {
        if files[name] != record {
          return Err("CHECKPOINT_HISTORY_REWRITE");
        }
        assert files[name := record] == files;
      } else {
        files := files[name := record];
      }
      var verified := Verify(req.sequence);
      if verified.Err? {
        return Err(verified.error);
      }
      r := Ok(Receipt(namespace, req.sequence, req.checkpointId, record.sha, parent));
    }
  }

  // ----- chains -----

  /** The largest sequence whose name still sorts in numeric order. */
  const WIDTH_LIMIT := 99_999_999

  ghost predicate Linked(hash: Hash, namespace: string, files: Files, i: nat)
    requires i >= 1
  {
    VerifyResult(hash, namespace, files, i).Ok? && (i == 1 ==> files[Name(i)].body.parent == None)
  }

  ghost predicate Numbered(name: string, n: nat) {
    exists i :: 1 <= i <= n && name == Name(i)
  }

  ghost predicate AllLinked(hash: Hash, namespace: string, files: Files, n: nat) {
    forall i :: 1 <= i <= n ==> Linked(hash, namespace, files, i)
  }

  ghost predicate AllNumbered(files: Files, n: nat) {
    forall name :: name in files ==> Numbered(name, n)
  }

  /** The store holds exactly the checkpoints 1..n, each one verifying. */
  ghost predicate Chain(hash: Hash, namespace: string, files: Files, n: nat) {
    AllLinked(hash, namespace, files, n) && AllNumbered(files, n)
  }

  lemma NamesDiffer(i: nat, j: nat)
    requires Name(i) == Name(j)
    ensures i == j
  {
    assert Name(i)[..|Name(i)| - 5] == Padded(i, 8) && Name(j)[..|Name(j)| - 5] == Padded(j, 8);
    PaddedInjective(i, j, 8);
  }

  lemma SmallNamesInOrder(i: nat, j: nat)
    requires i <= j <= WIDTH_LIMIT
    ensures LexLe(Name(i), Name(j))
  {
    if i == j {
      LexReflexive(Name(i));
    } else {
      NamesInOrder(i, j, 8, ".json");
    }
  }

  lemma {:induction false} PowerLeadsWithOne(w: nat)
    ensures Padded(Pow10(w), w)[0] == '1'
  {
    if w > 0 {
      PowerLeadsWithOne(w - 1);
    }
  }

  lemma {:induction false} NinesLeadWithNine(w: nat)
    requires w > 0
    ensures Padded(Pow10(w) - 1, w)[0] == '9'
  {
    if w == 1 {
      assert Pow10(1) == 10 * Pow10(0);
    } else {
      NinesLeadWithNine(w - 1);
    }
  }

  lemma FirstDigits()
    ensures Name(WIDTH_LIMIT + 1)[0] == '1' && Name(WIDTH_LIMIT)[0] == '9'
  {
    PowerLeadsWithOne(8);
    NinesLeadWithNine(8);
  }

  /** The nine-digit name sorts before the last eight-digit one. */
  lemma OverflowSortsFirst()
    ensures LexLe(Name(WIDTH_LIMIT + 1), Name(WIDTH_LIMIT))
  {
    FirstDigits();
    LexDecidedAt(Name(WIDTH_LIMIT + 1), Name(WIDTH_LIMIT), 0);
  }

  /** The sequence that "latest" finds in a store holding 1..n. */
  function LastInOrder(n: nat): nat { if n <= WIDTH_LIMIT then n else WIDTH_LIMIT }

  lemma NotAfterLast(i: nat, n: nat)
    requires i <= n <= WIDTH_LIMIT + 1
    ensures LexLe(Name(i), Name(LastInOrder(n)))
  {
    if i <= WIDTH_LIMIT {
      SmallNamesInOrder(i, LastInOrder(n));
    } else {
      OverflowSortsFirst();
    }
  }

  lemma ChainLatest(hash: Hash, namespace: string, files: Files, n: nat)
    requires Chain(hash, namespace, files, n) && 1 <= n <= WIDTH_LIMIT + 1
    ensures Name(LastInOrder(n)) in files
    ensures Latest(files) == Some(files[Name(LastInOrder(n))])
  {
    assert Linked(hash, namespace, files, LastInOrder(n));
    forall name | name in files ensures LexLe(name, Name(LastInOrder(n))) {
      var i :| 1 <= i <= n && name == Name(i);
      NotAfterLast(i, n);
    }
    LatestIs(files, Name(LastInOrder(n)));
  }

  lemma ChainExpected(hash: Hash, namespace: string, files: Files, n: nat)
    requires Chain(hash, namespace, files, n) && n <= WIDTH_LIMIT + 1
    ensures Expected(files) == LastInOrder(n) + 1
  {
    if n == 0 {
      assert files == map[];
    } else {
      ChainLatest(hash, namespace, files, n);
      assert Linked(hash, namespace, files, LastInOrder(n));
    }
  }

  lemma NextIsNew(hash: Hash, namespace: string, files: Files, n: nat)
    requires Chain(hash, namespace, files, n)
    ensures Name(n + 1) !in files
  {
    if Name(n + 1) in files {
      var i :| 1 <= i <= n && Name(n + 1) == Name(i);
      NamesDiffer(n + 1, i);
    }
  }

  lemma LinkSurvives(hash: Hash, namespace: string, files: Files, i: nat, name: string, record: Checkpoint)
    requires i >= 1 && Linked(hash, namespace, files, i) && name !in files
    ensures Linked(hash, namespace, files[name := record], i)
  {
  }

  lemma NewLink(hash: Hash, namespace: string, files: Files, n: nat, record: Checkpoint)
    requires n > 0 ==> Name(n) in files
    requires Name(n + 1) !in files
    requires record.sha == hash(record.body) && record.body.namespace == namespace && record.body.sequence == n + 1
    requires record.body.parent == if n == 0 then None else Some(files[Name(n)].sha)
    ensures Linked(hash, namespace, files[Name(n + 1) := record], n + 1)
  {
  }

  lemma LinksGrow(hash: Hash, namespace: string, files: Files, now: Files, n: nat, record: Checkpoint)
    requires AllLinked(hash, namespace, files, n) && Name(n + 1) !in files && now == files[Name(n + 1) := record]
    requires Linked(hash, namespace, now, n + 1)
    ensures AllLinked(hash, namespace, now, n + 1)
  {
    forall i | 1 <= i <= n + 1 ensures Linked(hash, namespace, now, i) {
      if i <= n {
        assert Linked(hash, namespace, files, i);
        LinkSurvives(hash, namespace, files, i, Name(n + 1), record);
      }
    }
  }

  lemma NamesGrow(files: Files, now: Files, n: nat)
    requires now.Keys <= files.Keys + {Name(n + 1)} && AllNumbered(files, n)
    ensures AllNumbered(now, n + 1)
  {
    forall name | name in now ensures Numbered(name, n + 1) {
      if name in files {
        assert Numbered(name, n);
      }
    }
  }

  lemma ChainGrows(hash: Hash, namespace: string, files: Files, n: nat, record: Checkpoint)
    requires Chain(hash, namespace, files, n)
    requires record.sha == hash(record.body) && record.body.namespace == namespace && record.body.sequence == n + 1
    requires record.body.parent == if n == 0 then None else if Name(n) in files then Some(files[Name(n)].sha) else None
    ensures Name(n + 1) !in files
    ensures Chain(hash, namespace, files[Name(n + 1) := record], n + 1)
  {
    var now := files[Name(n + 1) := record];
    NextIsNew(hash, namespace, files, n);
    assert n > 0 ==> Linked(hash, namespace, files, n);
    NewLink(hash, namespace, files, n, record);
    LinksGrow(hash, namespace, files, now, n, record);
    NamesGrow(files, now, n);
  }

  ghost predicate Preserved(was: Files, now: Files) {
    forall name :: name in was ==> name in now && now[name] == was[name]
  }

  /** Hash of the record that a chain of length n ends with. */
  ghost function HeadOf(files: Files, n: nat): Option<string> {
    if n > 0 && Name(n) in files then Some(files[Name(n)].sha) else None
  }

  /** The new record holds the request under the hash of the one before it, and the
      receipt says so. */
  ghost predicate Recorded(hash: Hash, namespace: string, files: Files, n: nat, req: Request, now: Files, r: Result<Receipt>) {
    var body := Body(namespace, n + 1, req.checkpointId, HeadOf(files, n), req.payload);
    && Name(n + 1) in now && now[Name(n + 1)] == Checkpoint(body, hash(body))
    && r == Ok(Receipt(namespace, n + 1, req.checkpointId, hash(body), HeadOf(files, n)))
  }

  lemma NextCommit(hash: Hash, namespace: string, files: Files, n: nat, req: Request)
    requires Chain(hash, namespace, files, n) && n <= WIDTH_LIMIT && req.sequence == n + 1 == Expected(files)
    ensures var (now, r) := Commit(hash, namespace, files, req);
      Preserved(files, now) && Recorded(hash, namespace, files, n, req, now, r) && Chain(hash, namespace, now, n + 1)
  {
    if n > 0 {
      ChainLatest(hash, namespace, files, n);
    } else {
      assert files == map[];
    }
    var body := BodyFor(namespace, files, req);
    var record := Checkpoint(body, hash(body));
    ChainGrows(hash, namespace, files, n, record);
    assert Linked(hash, namespace, files[Name(n + 1) := record], n + 1);
  }

  lemma StuckCommit(hash: Hash, namespace: string, files: Files, req: Request)
    requires Chain(hash, namespace, files, WIDTH_LIMIT + 1)
    requires req.sequence == WIDTH_LIMIT + 1 == Expected(files)
    ensures var ((now, r), name) := (Commit(hash, namespace, files, req), Name(WIDTH_LIMIT + 1));
      && name in files && now == files
      && (r.Ok? <==> req.checkpointId == files[name].body.checkpointId && req.payload == files[name].body.payload)
  {
    var n := WIDTH_LIMIT + 1;
    ChainLatest(hash, namespace, files, n);
    assert Linked(hash, namespace, files, n);
    assert files[Name(n) := files[Name(n)]] == files;
  }

  /** What one commit does to a chain, for every request.  Below the width limit
      exactly the next sequence is accepted, and recorded.  At the limit the store is
      stuck: it still expects the sequence it already holds, never changes again, and
      only confirms the request that it holds there. */
  lemma CommitOnChain(hash: Hash, namespace: string, files: Files, n: nat, req: Request)
    requires Chain(hash, namespace, files, n) && n <= WIDTH_LIMIT + 1
    ensures var (now, r) := Commit(hash, namespace, files, req);
      && Preserved(files, now)
      && (n <= WIDTH_LIMIT && req.sequence == n + 1 ==>
        Recorded(hash, namespace, files, n, req, now, r) && Chain(hash, namespace, now, n + 1))
      && (n <= WIDTH_LIMIT && req.sequence != n + 1 ==> r.Err? && now == files)
      && (n == WIDTH_LIMIT + 1 ==> now == files)
      && (n == WIDTH_LIMIT + 1 && Name(n) in files ==>
        (r.Ok? <==>
          && req.sequence == n && req.checkpointId == files[Name(n)].body.checkpointId
          && req.payload == files[Name(n)].body.payload))
  {
    ChainExpected(hash, namespace, files, n);
    if n <= WIDTH_LIMIT && req.sequence == n + 1 {
      NextCommit(hash, namespace, files, n, req);
    } else if n == WIDTH_LIMIT + 1 && req.sequence == n {
      StuckCommit(hash, namespace, files, req);
    }
  }

  // ----- whole runs -----

  ghost function Run(hash: Hash, namespace: string, files: Files, reqs: seq<Request>): Files {
    if reqs == [] then files
    else Commit(hash, namespace, Run(hash, namespace, files, reqs[..|reqs| - 1]), reqs[|reqs| - 1]).0
  }

  /** No run, of whatever length and requests, changes an existing checkpoint or
      breaks the chain; and the chain never outgrows the width limit by more than
      the one record that blocks it. */
  lemma {:induction false} RunOnChain(hash: Hash, namespace: string, files: Files, n: nat, reqs: seq<Request>) returns (m: nat)
    requires Chain(hash, namespace, files, n) && n <= WIDTH_LIMIT + 1
    ensures n <= m <= n + |reqs| && m <= WIDTH_LIMIT + 1
    ensures Chain(hash, namespace, Run(hash, namespace, files, reqs), m)
    ensures Preserved(files, Run(hash, namespace, files, reqs))
  {
    m := n;
    if reqs != [] {
      var l := RunOnChain(hash, namespace, files, n, reqs[..|reqs| - 1]);
      var before := Run(hash, namespace, files, reqs[..|reqs| - 1]);
      CommitOnChain(hash, namespace, before, l, reqs[|reqs| - 1]);
      m := if l <= WIDTH_LIMIT && reqs[|reqs| - 1].sequence == l + 1 then l + 1 else l;
    }
  }

  /** The files left by submitting sequences 1, 2, 3, ... to an empty store. */
  ghost function Submitted(hash: Hash, namespace: string, reqs: seq<Request>): Files {
    Run(hash, namespace, map[], reqs)
  }

  /** The request is stored under its sequence. */
  ghost predicate HeldAt(files: Files, req: Request) {
    && req.sequence > 0 && Name(req.sequence) in files
    && var body := files[Name(req.sequence)].body;
    && body.sequence == req.sequence && body.checkpointId == req.checkpointId && body.payload == req.payload
  }

  /** How many of n consecutive sequences the store can hold. */
  function Capped(n: nat): nat { if n <= WIDTH_LIMIT + 1 then n else WIDTH_LIMIT + 1 }

  /** The first requests, as many as the store can hold, are stored. */
  ghost predicate AllHeld(files: Files, reqs: seq<Request>) {
    forall i :: 0 <= i < Capped(|reqs|) && i < |reqs| ==> HeldAt(files, reqs[i])
  }

  lemma ConsecutiveStep(hash: Hash, namespace: string, files: Files, n: nat, req: Request)
    requires Chain(hash, namespace, files, Capped(n)) && req.sequence == n + 1
    ensures var now := Commit(hash, namespace, files, req).0;
      Chain(hash, namespace, now, Capped(n + 1)) && Preserved(files, now) && (n <= WIDTH_LIMIT ==> HeldAt(now, req))
  {
    CommitOnChain(hash, namespace, files, Capped(n), req);
  }

  lemma HeldStays(was: Files, now: Files, reqs: seq<Request>, req: Request)
    requires AllHeld(was, reqs) && Preserved(was, now) && (|reqs| <= WIDTH_LIMIT ==> HeldAt(now, req))
    ensures AllHeld(now, reqs + [req])
  {
    var all := reqs + [req];
    forall i | 0 <= i < Capped(|all|) && i < |all| ensures HeldAt(now, all[i]) {
      if i < |reqs| {
        assert HeldAt(was, reqs[i]) && all[i] == reqs[i];
      }
    }
  }

  /** Submitting 1..n to an empty store: all of them are held, each under its own number, if
      and only if n is at most 100,000,000; past that, everything from 100,000,001 on is
      refused. */
  lemma {:induction false} ConsecutiveRun(hash: Hash, namespace: string, reqs: seq<Request>)
    requires forall i :: 0 <= i < |reqs| ==> reqs[i].sequence == i + 1
    ensures Chain(hash, namespace, Submitted(hash, namespace, reqs), Capped(|reqs|))
    ensures AllHeld(Submitted(hash, namespace, reqs), reqs)
  {
    if reqs != [] {
      var (front, last) := (reqs[..|reqs| - 1], reqs[|reqs| - 1]);
      ConsecutiveRun(hash, namespace, front);
      ConsecutiveStep(hash, namespace, Submitted(hash, namespace, front), |front|, last);
      HeldStays(Submitted(hash, namespace, front), Submitted(hash, namespace, reqs), front, last);
      assert reqs == front + [last];
    }
  }

  /** A record verifies in one place and one namespace only: neither moving it to another
      number nor reading it as another namespace goes unnoticed. */
  lemma VerifyBinds(hash: Hash, a: string, b: string, files: Files, i: int, j: int)
    requires VerifyResult(hash, a, files, i).Ok? && VerifyResult(hash, b, files, j).Ok?
    requires i > 0 && j > 0 && Name(i) in files && Name(j) in files && files[Name(i)] == files[Name(j)]
    ensures i == j && a == b
    ensures VerifyResult(hash, a, files, i).value == files[Name(i)].body && hash(files[Name(i)].body) == files[Name(i)].sha
  {
  }

  // ----- equal heads, equal histories -----

  lemma EqualHashesEqualRecords(hash: Hash, namespace: string, a: Files, b: Files, i: nat)
    requires CollisionFree(hash) && i >= 1 && Linked(hash, namespace, a, i) && Linked(hash, namespace, b, i)
    requires a[Name(i)].sha == b[Name(i)].sha
    ensures a[Name(i)] == b[Name(i)]
  {
  }

  lemma EqualRecordsEqualParents(hash: Hash, namespace: string, a: Files, b: Files, i: nat)
    requires i >= 1 && Linked(hash, namespace, a, i + 1) && Linked(hash, namespace, b, i + 1)
    requires a[Name(i + 1)] == b[Name(i + 1)]
    ensures Name(i) in a && Name(i) in b && a[Name(i)].sha == b[Name(i)].sha
  {
  }

  /** Under a collision-free hash, the head's hash fixes the whole chain. */
  lemma {:induction false} HeadFixesChain(hash: Hash, namespace: string, a: Files, b: Files, n: nat, i: nat)
    requires CollisionFree(hash)
    requires Chain(hash, namespace, a, n) && Chain(hash, namespace, b, n) && 1 <= i <= n
    requires Name(n) in a && Name(n) in b && a[Name(n)].sha == b[Name(n)].sha
    ensures Name(i) in a && Name(i) in b && a[Name(i)] == b[Name(i)]
    decreases n - i
  {
    if i < n {
      HeadFixesChain(hash, namespace, a, b, n, i + 1);
      EqualRecordsEqualParents(hash, namespace, a, b, i);
    }
    EqualHashesEqualRecords(hash, namespace, a, b, i);
  }

  lemma EqualHeadsEqualStores(hash: Hash, namespace: string, a: Files, b: Files, n: nat)
    requires CollisionFree(hash) && n >= 1
    requires Chain(hash, namespace, a, n) && Chain(hash, namespace, b, n)
    requires Name(n) in a && Name(n) in b && a[Name(n)].sha == b[Name(n)].sha
    ensures a == b
  {
    forall name ensures name in a <==> name in b {
      if name in a {
        var i :| 1 <= i <= n && name == Name(i);
        HeadFixesChain(hash, namespace, a, b, n, i);
      }
      if name in b {
        var i :| 1 <= i <= n && name == Name(i);
        HeadFixesChain(hash, namespace, a, b, n, i);
      }
    }
    forall name | name in a ensures a[name] == b[name] {
      var i :| 1 <= i <= n && name == Name(i);
      HeadFixesChain(hash, namespace, a, b, n, i);
    }
  }
}

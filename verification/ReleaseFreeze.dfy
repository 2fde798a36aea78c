/** Freezing a release: verify the workspace, copy it to a staging directory,
    verify the copy, rename it into place, and write the receipt last; roll back
    on failure.  Staging directories live next to the releases. */
module ReleaseFreeze {
  import opened Common
  import opened Sorting
  import opened Inventory

  datatype Receipt = Receipt(releaseId: string, workspaceId: string, inventorySha: string, fileCount: nat, totalBytes: int)

  /** The directories under the external root, by name. */
  datatype Root = Root(workspaces: map<string, Tree>, releases: map<string, Tree>, receipts: map<string, Receipt>)

  datatype Request = Request(workspaceId: string, releaseId: string, qaState: string, inventory: Document)

  /** Everything that may go wrong in one attempt: what each copy reads from the
      possibly changing workspace (nothing if it fails), whether the rename or the
      receipt write fails, before which action the process is killed, if at all,
      and what an incomplete removal leaves behind, if anything. */
  datatype Faults = Faults(
    copies: nat -> Option<Bytes>, renameFails: bool, receiptFails: bool, killedAt: Option<nat>, residue: Option<Tree>)

  datatype Outcome = Frozen(receipt: Receipt) | Refused(error: string) | Raised | Killed

  function ReceiptName(releaseId: string): string { releaseId + ".json" }

  /** The prefix and random suffix that `mkdtemp` combines. */
  function StagingName(releaseId: string, suffix: string): string { "." + releaseId + ".freeze-" + suffix }

  // ----- before anything is written -----

  ghost function Refusal(env: Env, root: Root, req: Request): Option<string> {
    if req.qaState != "PASS" then Some("freeze-release requires qa-state PASS")
    else if !IsIdentifier(req.workspaceId) then Some("workspace-id")
    else if req.workspaceId !in root.workspaces then Some("required directory is missing or unsafe")
    else if !Valid(env, req.inventory) then Some("invalid workspace inventory")
    else if req.inventory.workspaceId != req.workspaceId then Some("inventory workspace_id does not match requested workspace")
    else if !Describes(env, req.inventory.files, root.workspaces[req.workspaceId]) then
      Some("workspace bytes do not match the approved inventory")
    else if !IsIdentifier(req.releaseId) then Some("release-id")
    else if !IsIdentifier(ReceiptName(req.releaseId)) then Some("freeze-receipt")
    else if req.releaseId in root.releases then Some("release already exists")
    else if ReceiptName(req.releaseId) in root.receipts then Some("freeze receipt already exists")
    else None
  }

  // ----- copying -----

  /** How many of the copies succeed before the first failure. */
  function Copyable(copies: nat -> Option<Bytes>, n: nat): (k: nat)
    ensures k <= n && forall i :: 0 <= i < k ==> copies(i).Some?
    ensures k < n ==> copies(k).None?
  {
    if n == 0 then 0
    else
      var k := Copyable(copies, n - 1);
      if k == n - 1 && copies(k).Some? then n else k
  }

  function Copied(files: seq<FileRecord>, copies: nat -> Option<Bytes>, n: nat): Tree
    requires n <= |files| && forall i :: 0 <= i < n ==> copies(i).Some?
  {
    if n == 0 then map[] else Copied(files, copies, n - 1)[files[n - 1].path := copies(n - 1).value]
  }

  function SizeSum(files: seq<FileRecord>): int {
    if files == [] then 0 else SizeSum(files[..|files| - 1]) + files[|files| - 1].size
  }

  function ReceiptFor(env: Env, req: Request): Receipt {
    Receipt(req.releaseId, req.workspaceId, env.documentHash(req.inventory), |req.inventory.files|,
            SizeSum(req.inventory.files))
  }

  /** Remove a directory, completely or not. */
  function Removed(releases: map<string, Tree>, name: string, residue: Option<Tree>): map<string, Tree> {
    match residue
    case None => releases - {name}
    case Some(left) => releases[name := left]
  }

  // ----- one attempt -----

  /** Copying and verifying; no outcome yet means that the staged tree is ready. */
  ghost function Staged(env: Env, releases: map<string, Tree>, req: Request, staging: string, f: Faults)
    : (r: (map<string, Tree>, Option<Outcome>))
    ensures r.1.None? ==> staging in r.0
  {
    var files := req.inventory.files;
    var copied := Copyable(f.copies, |files|);
    if f.killedAt.Some? && f.killedAt.value <= copied then
      (releases[staging := Copied(files, f.copies, f.killedAt.value)], Some(Killed))
    else if copied < |files| || !Describes(env, files, Copied(files, f.copies, |files|)) || f.renameFails then
      (Removed(releases, staging, f.residue), Some(Raised))
    else (releases[staging := Copied(files, f.copies, |files|)], None)
  }

  /** Renaming the staged tree and writing the receipt. */
  ghost function Published(env: Env, root: Root, req: Request, tree: Tree, f: Faults): (Root, Outcome) {
    var renamed := root.(releases := root.releases[req.releaseId := tree]);
    if f.killedAt == Some(|req.inventory.files| + 1) then (renamed, Killed)
    else if f.receiptFails then (root.(releases := Removed(root.releases, req.releaseId, f.residue)), Raised)
    else
      var receipt := ReceiptFor(env, req);
      (renamed.(receipts := root.receipts[ReceiptName(req.releaseId) := receipt]), Frozen(receipt))
  }

  /** The guarded part of `freeze_release`, with its rollback.  Killing the process
      before action p leaves things as they are: actions 0..n-1 copy the n files,
      action n renames, action n + 1 writes the receipt. */
  ghost function Attempted(env: Env, root: Root, req: Request, staging: string, f: Faults): (Root, Outcome) {
    var (releases, verdict) := Staged(env, root.releases, req, staging, f);
    if verdict.Some? then (root.(releases := releases), verdict.value)
    else Published(env, root, req, releases[staging], f)
  }

  /** `freeze_release` with its faults. */
  ghost function Freeze(env: Env, root: Root, req: Request, suffix: string, f: Faults): (Root, Outcome) {
    var refusal := Refusal(env, root, req);
    if refusal.Some? then (root, Refused(refusal.value))
    else Attempted(env, root, req, StagingName(req.releaseId, suffix), f)
  }

  lemma Unstage(was: map<string, Tree>, name: string, tree: Tree, residue: Option<Tree>)
    requires name !in was
    ensures was[name := tree] - {name} == was
    ensures Removed(was[name := tree], name, residue) == Removed(was, name, residue)
  {
  }

  // ----- the program -----

  /** What passing all the checks means. */
  lemma Cleared(env: Env, root: Root, req: Request)
    requires Refusal(env, root, req).None?
    ensures IsIdentifier(req.releaseId) && IsIdentifier(ReceiptName(req.releaseId))
    ensures req.releaseId !in root.releases && ReceiptName(req.releaseId) !in root.receipts
    ensures Valid(env, req.inventory) && req.inventory.workspaceId == req.workspaceId
    ensures req.workspaceId in root.workspaces && Describes(env, req.inventory.files, root.workspaces[req.workspaceId])
  {
  }

  /** A staging directory is never mistaken for a release. */
  lemma StagingIsNoIdentifier(releaseId: string, suffix: string)
    ensures !IsIdentifier(StagingName(releaseId, suffix))
  {
  }

  class EvidenceRoot {
    const env: Env
    var workspaces: map<string, Tree>
    var releases: map<string, Tree>
    var receipts: map<string, Receipt>

    ghost function Contents(): Root
      reads this
    {
      Root(workspaces, releases, receipts)
    }

    constructor (env: Env, workspaces: map<string, Tree>, releases: map<string, Tree>, receipts: map<string, Receipt>)
      ensures this.env == env && Contents() == Root(workspaces, releases, receipts)
    {
      this.env, this.workspaces, this.releases, this.receipts := env, workspaces, releases, receipts;
    }

    method Check(req: Request) returns (refusal: Option<string>)
      ensures refusal == Refusal(env, Contents(), req)
    {
      if req.qaState != "PASS" {
        return Some("freeze-release requires qa-state PASS");
      }
      if !IsIdentifier(req.workspaceId) {
        return Some("workspace-id");
      }
      if req.workspaceId !in workspaces {
        return Some("required directory is missing or unsafe");
      }
      var valid := ValidateInventory(env, req.inventory);
      if !valid {
        return Some("invalid workspace inventory");
      }
      if req.inventory.workspaceId != req.workspaceId {
        return Some("inventory workspace_id does not match requested workspace");
      }
      var verified := VerifyInventory(env, workspaces[req.workspaceId], req.inventory);
      if !verified {
        return Some("workspace bytes do not match the approved inventory");
      }
      if !IsIdentifier(req.releaseId) {
        return Some("release-id");
      }
      if !IsIdentifier(ReceiptName(req.releaseId)) {
        return Some("freeze-receipt");
      }
      if req.releaseId in releases {
        return Some("release already exists");
      }
      if ReceiptName(req.releaseId) in receipts {
        return Some("freeze receipt already exists");
      }
      return None;
    }

    /** Copy the listed files into the staging directory, one by one. */
    method CopyInventory(files: seq<FileRecord>, staging: string, f: Faults) returns (killed: bool, copied: nat)
      requires staging !in releases
      modifies this`releases
      ensures copied <= |files| && forall i :: 0 <= i < copied ==> f.copies(i).Some?
      ensures releases == old(releases)[staging := Copied(files, f.copies, copied)]
      ensures killed <==> f.killedAt.Some? && f.killedAt.value <= Copyable(f.copies, |files|)
      ensures copied == if killed then f.killedAt.value else Copyable(f.copies, |files|)
    {
      killed, copied := false, 0;
      releases := releases[staging := map[]];
      while true
        invariant copied <= Copyable(f.copies, |files|)
        invariant releases == old(releases)[staging := Copied(files, f.copies, copied)]
        invariant f.killedAt.Some? ==> copied <= f.killedAt.value
        decreases |files| - copied
      {
        if f.killedAt == Some(copied) {
          return true, copied;
        }
        if copied == |files| || f.copies(copied).None? {
          return false, copied;
        }
        releases := releases[staging := releases[staging][files[copied].path := f.copies(copied).value]];
        copied := copied + 1;
      }
    }

    method TotalSize(files: seq<FileRecord>) returns (n: int)
      ensures n == SizeSum(files)
    {
      n := 0;
      for i := 0 to |files|
        invariant n == SizeSum(files[..i])
      {
        assert files[..i + 1][..i] == files[..i];
        n := n + files[i].size;
      }
      assert files[..|files|] == files;
    }

    method RemoveTree(name: string, residue: Option<Tree>)
      modifies this`releases
      ensures releases == Removed(old(releases), name, residue)
    {
      match residue
      case None => releases := releases - {name};
      case Some(left) => releases := releases[name := left];
    }

    /** Stage and verify the copy; `None` means that it is ready to be renamed. */
    method Stage(req: Request, staging: string, f: Faults) returns (verdict: Option<Outcome>)
      requires staging !in releases && Valid(env, req.inventory)
      modifies this`releases
      ensures (releases, verdict) == Staged(env, old(releases), req, staging, f)
      ensures verdict.None? ==> releases - {staging} == old(releases)
    {
      var files := req.inventory.files;
      ghost var was := releases;
      var killed, copied := CopyInventory(files, staging, f);
      Unstage(was, staging, releases[staging], f.residue);
      if killed {
        return Some(Killed);
      }
      var verified := false;
      if copied == |files| {
        verified := VerifyInventory(env, releases[staging], req.inventory);
      }
      if !verified || f.renameFails {
        RemoveTree(staging, f.residue);
        return Some(Raised);
      }
      return None;
    }

    /** Rename the staged tree, then write the receipt. */
    method Publish(req: Request, staging: string, f: Faults) returns (out: Outcome)
      requires staging in releases && staging != req.releaseId && req.releaseId !in releases
      modifies this
      ensures var was := old(Contents());
        (Contents(), out) == Published(env, was.(releases := was.releases - {staging}), req, was.releases[staging], f)
    {
      ghost var was := releases - {staging};
      releases := (releases - {staging})[req.releaseId := releases[staging]];
      if f.killedAt == Some(|req.inventory.files| + 1) {
        return Killed;
      }
      if f.receiptFails {
        assert Removed(releases, req.releaseId, f.residue) == Removed(was, req.releaseId, f.residue);
        RemoveTree(req.releaseId, f.residue);
        return Raised;
      }
      var total := TotalSize(req.inventory.files);
      var receipt := Receipt(req.releaseId, req.workspaceId, env.documentHash(req.inventory), |req.inventory.files|, total);
      receipts := receipts[ReceiptName(req.releaseId) := receipt];
      out := Frozen(receipt);
    }

    /** The guarded part, once all checks have passed. */
    method StageAndPublish(req: Request, staging: string, f: Faults) returns (out: Outcome)
      requires staging !in releases && req.releaseId !in releases && staging != req.releaseId && Valid(env, req.inventory)
      modifies this
      ensures (Contents(), out) == Attempted(env, old(Contents()), req, staging, f)
    {
      var verdict := Stage(req, staging, f);
      if verdict.Some? {
        return verdict.value;
      }
      out := Publish(req, staging, f);
    }

    method FreezeRelease(req: Request, suffix: string, f: Faults) returns (out: Outcome)
      requires StagingName(req.releaseId, suffix) !in releases
      modifies this
      ensures (Contents(), out) == Freeze(env, old(Contents()), req, suffix, f)
    {
      var refusal := Check(req);
      if refusal.Some? {
        return Refused(refusal.value);
      }
      Cleared(env, Contents(), req);
      StagingIsNoIdentifier(req.releaseId, suffix);
      out := StageAndPublish(req, StagingName(req.releaseId, suffix), f);
    }
  }

  // ----- names -----

  /** The receipt name of an identifier is an identifier itself up to 123 of the 128
      characters, and not beyond. */
  lemma ReceiptNameFits(id: string)
    requires IsIdentifier(id)
    ensures IsIdentifier(ReceiptName(id)) <==> |id| <= 123
  {
    var name := ReceiptName(id);
    assert name[0] == id[0];
    if |id| <= 123 {
      forall i | 0 <= i < |name| ensures IsAlnum(name[i]) || name[i] in "._-" {
        assert i < |id| ==> name[i] == id[i];
      }
    }
  }

  /** Everything `freeze_release` demands, except that the receipt name be an identifier. */
  ghost predicate OtherwiseAcceptable(env: Env, root: Root, req: Request) {
    && req.qaState == "PASS" && IsIdentifier(req.workspaceId) && req.workspaceId in root.workspaces
    && Valid(env, req.inventory) && req.inventory.workspaceId == req.workspaceId
    && Describes(env, req.inventory.files, root.workspaces[req.workspaceId])
    && IsIdentifier(req.releaseId) && req.releaseId !in root.releases && ReceiptName(req.releaseId) !in root.receipts
  }

  /** A request is let through if and only if it is acceptable and its release
      identifier has at most 123 characters. */
  lemma AcceptedIdsAreShort(env: Env, root: Root, req: Request)
    ensures Refusal(env, root, req).None? <==> OtherwiseAcceptable(env, root, req) && |req.releaseId| <= 123
  {
    if IsIdentifier(req.releaseId) {
      ReceiptNameFits(req.releaseId);
    }
  }

  /** A valid identifier whose release can never be frozen. */
  lemma LongIdIsRefused(env: Env, root: Root, req: Request) returns (id: string)
    ensures |id| == 124 && IsIdentifier(id)
    ensures Refusal(env, root, req.(releaseId := id)).Some?
  {
    id := seq(124, i => 'a');
    ReceiptNameFits(id);
    AcceptedIdsAreShort(env, root, req.(releaseId := id));
  }

  // ----- what receipts certify -----

  /** The tree of a release is exactly what some valid inventory with the hash on
      the receipt lists. */
  ghost predicate Certifies(env: Env, receipt: Receipt, tree: Tree, inventory: Document) {
    && Valid(env, inventory) && Describes(env, inventory.files, tree)
    && receipt.inventorySha == env.documentHash(inventory)
    && receipt.workspaceId == inventory.workspaceId
    && receipt.fileCount == |inventory.files| && receipt.totalBytes == SizeSum(inventory.files)
  }

  lemma FrontDescribes(env: Env, files: seq<FileRecord>, tree: Tree)
    requires files != [] && Describes(env, files, tree) && DistinctBy(files, PathOf())
    ensures Describes(env, files[..|files| - 1], tree - {files[|files| - 1].path})
    ensures DistinctBy(files[..|files| - 1], PathOf())
  {
    var (n, p) := (|files| - 1, files[|files| - 1].path);
    forall i | 0 <= i < n ensures files[i].path != p {
      assert PathOf()(files[i]) != PathOf()(files[n]);
    }
    forall q | q in tree - {p} ensures exists i :: 0 <= i < n && files[..n][i].path == q {
      var i :| 0 <= i < |files| && files[i].path == q;
      assert i < n && files[..n][i].path == q;
    }
  }

  lemma CountWithout(tree: Tree, p: string)
    requires p in tree
    ensures |tree| == |tree - {p}| + 1
  {
    assert tree.Keys == (tree - {p}).Keys + {p};
    assert |tree| == |tree.Keys| && |tree - {p}| == |(tree - {p}).Keys|;
  }

  lemma {:induction false} ListedTotals(env: Env, files: seq<FileRecord>, tree: Tree)
    requires Describes(env, files, tree) && DistinctBy(files, PathOf())
    ensures |files| == |tree| && SizeSum(files) == Size(tree)
  {
    if files == [] {
      assert tree == map[];
    } else {
      var (front, p) := (files[..|files| - 1], files[|files| - 1].path);
      FrontDescribes(env, files, tree);
      ListedTotals(env, front, tree - {p});
      SizeWithout(tree, p);
      CountWithout(tree, p);
    }
  }

  /** A receipt counts the files and bytes of the release it certifies, whose paths are all
      admissible and stay apart on a file system that ignores case. */
  lemma ReceiptCounts(env: Env, receipt: Receipt, tree: Tree, inventory: Document)
    requires Certifies(env, receipt, tree, inventory)
    ensures receipt.fileCount == |tree| && receipt.totalBytes == Size(tree)
    ensures forall p :: p in tree ==> env.validPath(p)
    ensures forall p, q :: p in tree && q in tree && env.casefold(p) == env.casefold(q) ==> p == q
  {
    assert DistinctBy(inventory.files, PathOf());
    ListedTotals(env, inventory.files, tree);
    forall p, q | p in tree && q in tree && env.casefold(p) == env.casefold(q) ensures p == q {
      var i :| 0 <= i < |inventory.files| && inventory.files[i].path == p;
      var j :| 0 <= j < |inventory.files| && inventory.files[j].path == q;
    }
  }

  ghost predicate ReceiptSound(env: Env, root: Root, name: string) {
    && name in root.receipts
    && var r := root.receipts[name];
    && IsIdentifier(r.releaseId) && name == ReceiptName(r.releaseId)
    && r.releaseId in root.releases
    && exists inventory :: Certifies(env, r, root.releases[r.releaseId], inventory)
  }

  /** Every receipt stands for a release that equals its inventory. */
  ghost predicate Sound(env: Env, root: Root) {
    forall name :: name in root.receipts ==> ReceiptSound(env, root, name)
  }

  ghost predicate SameElsewhere(was: map<string, Tree>, now: map<string, Tree>, a: string, b: string) {
    forall name :: name != a && name != b ==>
      (name in now <==> name in was) && (name in was ==> now[name] == was[name])
  }

  /** The effect of an attempt on the directories: only a success writes a receipt,
      and it adds one matching pair; nothing but the staging name and the new release
      name is ever touched, and neither of them existed. */
  ghost predicate Effect(env: Env, root: Root, now: Root, out: Outcome, req: Request, staging: string) {
    && now.workspaces == root.workspaces
    && (if out.Frozen? then
      && ReceiptName(req.releaseId) !in root.receipts
      && now.receipts == root.receipts[ReceiptName(req.releaseId) := out.receipt]
      && out.receipt.releaseId == req.releaseId && IsIdentifier(req.releaseId)
      && req.releaseId in now.releases
      && now.releases == root.releases[req.releaseId := now.releases[req.releaseId]]
      && Certifies(env, out.receipt, now.releases[req.releaseId], req.inventory)
    else now.receipts == root.receipts)
    && (now != root ==> req.releaseId !in root.releases && staging !in root.releases)
    && SameElsewhere(root.releases, now.releases, req.releaseId, staging)
  }

  lemma StagedEffect(env: Env, root: Root, req: Request, staging: string, f: Faults)
    requires staging !in root.releases && req.releaseId !in root.releases
    ensures var (releases, verdict) := Staged(env, root.releases, req, staging, f);
            var now := root.(releases := releases);
            if verdict.None? then Describes(env, req.inventory.files, releases[staging])
            else && Effect(env, root, now, verdict.value, req, staging)
                 && (now == root <==> verdict.value.Raised? && f.residue.None?)
  {
  }

  lemma PublishedEffect(env: Env, root: Root, req: Request, staging: string, tree: Tree, f: Faults)
    requires staging !in root.releases && req.releaseId !in root.releases && ReceiptName(req.releaseId) !in root.receipts
    requires IsIdentifier(req.releaseId) && Valid(env, req.inventory) && req.inventory.workspaceId == req.workspaceId
    requires Describes(env, req.inventory.files, tree)
    ensures var (now, out) := Published(env, root, req, tree, f);
            Effect(env, root, now, out, req, staging) && (now == root <==> out.Raised? && f.residue.None?)
  {
  }

  lemma AttemptedEffect(env: Env, root: Root, req: Request, staging: string, f: Faults)
    requires staging !in root.releases && req.releaseId !in root.releases && ReceiptName(req.releaseId) !in root.receipts
    requires IsIdentifier(req.releaseId) && Valid(env, req.inventory) && req.inventory.workspaceId == req.workspaceId
    ensures var (now, out) := Attempted(env, root, req, staging, f); Effect(env, root, now, out, req, staging)
    ensures var (now, out) := Attempted(env, root, req, staging, f); now == root <==> out.Raised? && f.residue.None?
  {
    var (releases, verdict) := Staged(env, root.releases, req, staging, f);
    StagedEffect(env, root, req, staging, f);
    if verdict.None? {
      PublishedEffect(env, root, req, staging, releases[staging], f);
    }
  }

  /** Every attempt has such an effect, whatever goes wrong; and what leaves everything
      exactly as it was is a refusal, or an exception whose removal completes, and
      nothing else. */
  lemma FreezeEffect(env: Env, root: Root, req: Request, suffix: string, f: Faults)
    requires StagingName(req.releaseId, suffix) !in root.releases
    ensures var (now, out) := Freeze(env, root, req, suffix, f);
      && Effect(env, root, now, out, req, StagingName(req.releaseId, suffix))
      && (now == root <==> out.Refused? || (out.Raised? && f.residue.None?))
  {
    if Refusal(env, root, req).None? {
      Cleared(env, root, req);
      AttemptedEffect(env, root, req, StagingName(req.releaseId, suffix), f);
    }
  }

  /** A release or receipt that exists is never touched. */
  lemma EffectPreserves(env: Env, root: Root, now: Root, out: Outcome, req: Request, staging: string, name: string)
    requires Effect(env, root, now, out, req, staging)
    ensures name in root.releases ==> name in now.releases && now.releases[name] == root.releases[name]
    ensures name in root.receipts ==> name in now.receipts && now.receipts[name] == root.receipts[name]
  {
  }

  lemma EffectKeepsSound(env: Env, root: Root, now: Root, out: Outcome, req: Request, staging: string)
    requires Effect(env, root, now, out, req, staging) && Sound(env, root)
    ensures Sound(env, now)
  {
    forall name | name in now.receipts ensures ReceiptSound(env, now, name) {
      if name in root.receipts {
        assert ReceiptSound(env, root, name);
        EffectPreserves(env, root, now, out, req, staging, name);
        EffectPreserves(env, root, now, out, req, staging, root.receipts[name].releaseId);
      } else {
        assert name == ReceiptName(req.releaseId) && out.Frozen?;
      }
    }
  }

  // ----- whole runs -----

  /** One attempt of a run, with the fresh name that `mkdtemp` picked for it. */
  datatype Attempt = Attempt(req: Request, suffix: string, faults: Faults)

  ghost function Run(env: Env, root: Root, attempts: seq<Attempt>): Root {
    if attempts == [] then root
    else
      var a := attempts[|attempts| - 1];
      Freeze(env, Run(env, root, attempts[..|attempts| - 1]), a.req, a.suffix, a.faults).0
  }

  ghost predicate FreshNames(env: Env, root: Root, attempts: seq<Attempt>) {
    forall i :: 0 <= i < |attempts| ==>
      StagingName(attempts[i].req.releaseId, attempts[i].suffix) !in Run(env, root, attempts[..i]).releases
  }

  lemma FreshPrefix(env: Env, root: Root, attempts: seq<Attempt>)
    requires attempts != [] && FreshNames(env, root, attempts)
    ensures FreshNames(env, root, attempts[..|attempts| - 1])
    ensures var a := attempts[|attempts| - 1];
      StagingName(a.req.releaseId, a.suffix) !in Run(env, root, attempts[..|attempts| - 1]).releases
  {
    var shorter := attempts[..|attempts| - 1];
    forall i | 0 <= i < |shorter|
      ensures StagingName(shorter[i].req.releaseId, shorter[i].suffix) !in Run(env, root, shorter[..i]).releases
    {
      assert shorter[..i] == attempts[..i];
    }
  }

  /** Over any run of attempts with any faults, every receipt is backed by a release
      that equals its inventory, and neither a release nor a receipt once present
      ever changes. */
  lemma {:induction false} RunIsSound(env: Env, root: Root, attempts: seq<Attempt>, name: string)
    requires Sound(env, root) && FreshNames(env, root, attempts)
    ensures Sound(env, Run(env, root, attempts))
    ensures name in root.releases ==>
      name in Run(env, root, attempts).releases && Run(env, root, attempts).releases[name] == root.releases[name]
    ensures name in root.receipts ==>
      name in Run(env, root, attempts).receipts && Run(env, root, attempts).receipts[name] == root.receipts[name]
  {
    if attempts != [] {
      var n := |attempts| - 1;
      var a := attempts[n];
      FreshPrefix(env, root, attempts);
      RunIsSound(env, root, attempts[..n], name);
      var before := Run(env, root, attempts[..n]);
      var (now, out) := Freeze(env, before, a.req, a.suffix, a.faults);
      FreezeEffect(env, before, a.req, a.suffix, a.faults);
      EffectKeepsSound(env, before, now, out, a.req, StagingName(a.req.releaseId, a.suffix));
      EffectPreserves(env, before, now, out, a.req, StagingName(a.req.releaseId, a.suffix), name);
    }
  }

  /** Nothing goes wrong with an attempt on these files: no kill up to the receipt, every
      file is copied, and neither the rename nor the receipt fails. */
  ghost predicate Undisturbed(f: Faults, n: nat) {
    && (f.killedAt.Some? ==> f.killedAt.value > n + 1)
    && (forall i :: 0 <= i < n ==> f.copies(i).Some?)
    && !f.renameFails && !f.receiptFails
  }

  lemma CopyableIff(copies: nat -> Option<Bytes>, n: nat)
    ensures Copyable(copies, n) == n <==> forall i :: 0 <= i < n ==> copies(i).Some?
  {
  }

  /** The copy is complete and is what the inventory lists. */
  ghost predicate GoodCopy(env: Env, req: Request, f: Faults) {
    var (files, n) := (req.inventory.files, |req.inventory.files|);
    (forall i :: 0 <= i < n ==> f.copies(i).Some?) && Describes(env, files, Copied(files, f.copies, n))
  }

  lemma AttemptFreezes(env: Env, root: Root, req: Request, staging: string, f: Faults)
    requires Undisturbed(f, |req.inventory.files|) && GoodCopy(env, req, f)
    ensures var tree := Copied(req.inventory.files, f.copies, |req.inventory.files|);
      Attempted(env, root, req, staging, f) ==
      (root.(releases := root.releases[req.releaseId := tree],
             receipts := root.receipts[ReceiptName(req.releaseId) := ReceiptFor(env, req)]), Frozen(ReceiptFor(env, req)))
  {
    CopyableIff(f.copies, |req.inventory.files|);
  }

  lemma AttemptFails(env: Env, root: Root, req: Request, staging: string, f: Faults)
    requires !(Undisturbed(f, |req.inventory.files|) && GoodCopy(env, req, f))
    ensures !Attempted(env, root, req, staging, f).1.Frozen?
  {
    CopyableIff(f.copies, |req.inventory.files|);
  }

  /** An attempt succeeds if and only if the request is accepted, nothing goes wrong, and
      what was copied is what the inventory lists; it then returns the receipt of the
      request. */
  lemma FrozenIff(env: Env, root: Root, req: Request, suffix: string, f: Faults)
    ensures var out := Freeze(env, root, req, suffix, f).1;
      && (out.Frozen? <==>
        Refusal(env, root, req).None? && Undisturbed(f, |req.inventory.files|) && GoodCopy(env, req, f))
      && (out.Frozen? ==>
        && out.receipt.releaseId == req.releaseId && out.receipt.workspaceId == req.workspaceId
        && out.receipt.inventorySha == env.documentHash(req.inventory))
  {
    if Undisturbed(f, |req.inventory.files|) && GoodCopy(env, req, f) {
      AttemptFreezes(env, root, req, StagingName(req.releaseId, suffix), f);
    } else {
      AttemptFails(env, root, req, StagingName(req.releaseId, suffix), f);
    }
  }

  /** Every copy reads the workspace as it was verified. */
  ghost predicate ReadsWorkspace(files: seq<FileRecord>, copies: nat -> Option<Bytes>, tree: Tree) {
    forall i :: 0 <= i < |files| ==> files[i].path in tree && copies(i) == Some(tree[files[i].path])
  }

  lemma {:induction false} CopiedAt(files: seq<FileRecord>, copies: nat -> Option<Bytes>, tree: Tree, n: nat, p: string)
    requires n <= |files| && ReadsWorkspace(files, copies, tree)
    ensures p in Copied(files, copies, n) <==> exists i :: 0 <= i < n && files[i].path == p
    ensures p in Copied(files, copies, n) ==> p in tree && Copied(files, copies, n)[p] == tree[p]
  {
    if n > 0 {
      CopiedAt(files, copies, tree, n - 1, p);
    }
  }

  lemma CopiedIsWorkspace(env: Env, files: seq<FileRecord>, copies: nat -> Option<Bytes>, tree: Tree)
    requires Describes(env, files, tree) && ReadsWorkspace(files, copies, tree)
    ensures Copied(files, copies, |files|) == tree
  {
    forall p ensures p in Copied(files, copies, |files|) <==> p in tree {
      CopiedAt(files, copies, tree, |files|, p);
    }
    forall p | p in tree ensures Copied(files, copies, |files|)[p] == tree[p] {
      CopiedAt(files, copies, tree, |files|, p);
    }
  }

  /** Copying an unchanged workspace while nothing goes wrong freezes it. */
  lemma UnchangedWorkspaceFreezes(env: Env, root: Root, req: Request, suffix: string, f: Faults)
    requires Refusal(env, root, req).None? && StagingName(req.releaseId, suffix) !in root.releases
    requires req.workspaceId in root.workspaces && Undisturbed(f, |req.inventory.files|)
    requires ReadsWorkspace(req.inventory.files, f.copies, root.workspaces[req.workspaceId])
    ensures var (now, out) := Freeze(env, root, req, suffix, f);
      && out.Frozen?
      && now.releases == root.releases[req.releaseId := root.workspaces[req.workspaceId]]
      && now.receipts == root.receipts[req.releaseId + ".json" := out.receipt]
  {
    Cleared(env, root, req);
    CopiedIsWorkspace(env, req.inventory.files, f.copies, root.workspaces[req.workspaceId]);
    AttemptFreezes(env, root, req, StagingName(req.releaseId, suffix), f);
  }

  ghost predicate HasFile(tree: Tree, path: string, data: Bytes) { path in tree && tree[path] == data }

  /** The tree holds the first n files as copied, and no others. */
  ghost predicate HoldsCopies(files: seq<FileRecord>, copies: nat -> Option<Bytes>, n: nat, tree: Tree) {
    && (forall p :: p in tree ==> exists i :: 0 <= i < n && i < |files| && files[i].path == p)
    && forall i :: 0 <= i < n && i < |files| ==> copies(i).Some? && HasFile(tree, files[i].path, copies(i).value)
  }

  ghost predicate PathsDiffer(files: seq<FileRecord>) {
    forall i, j :: 0 <= i < j < |files| ==> files[i].path != files[j].path
  }

  lemma OneMoreCopy(files: seq<FileRecord>, copies: nat -> Option<Bytes>, m: nat, n: nat, tree: Tree, now: Tree)
    requires m + 1 == n <= |files| && PathsDiffer(files) && copies(m).Some? && HoldsCopies(files, copies, m, tree)
    requires now == tree[files[m].path := copies(m).value]
    ensures HoldsCopies(files, copies, n, now)
  {
    forall p | p in now ensures exists i :: 0 <= i < n && i < |files| && files[i].path == p {
      if p != files[m].path {
        var i :| 0 <= i < m && i < |files| && files[i].path == p;
      }
    }
    forall i | 0 <= i < n && i < |files| ensures copies(i).Some? && HasFile(now, files[i].path, copies(i).value) {
      assert i < m ==> HasFile(tree, files[i].path, copies(i).value) && files[i].path != files[m].path;
    }
  }

  lemma {:induction false} CopiedHolds(files: seq<FileRecord>, copies: nat -> Option<Bytes>, n: nat)
    requires n <= |files| && PathsDiffer(files) && forall i :: 0 <= i < n ==> copies(i).Some?
    ensures HoldsCopies(files, copies, n, Copied(files, copies, n))
  {
    if n > 0 {
      var m: nat := n - 1;
      CopiedHolds(files, copies, m);
      OneMoreCopy(files, copies, m, n, Copied(files, copies, m), Copied(files, copies, n));
    }
  }

  lemma AcceptedPathsDiffer(env: Env, root: Root, req: Request)
    requires Refusal(env, root, req).None?
    ensures PathsDiffer(req.inventory.files)
  {
    Cleared(env, root, req);
    var inventory := req.inventory;
    forall i, j | 0 <= i < j < |inventory.files| ensures inventory.files[i].path != inventory.files[j].path {
      assert DistinctBy(inventory.files, PathOf());
    }
  }

  lemma KilledAttempt(env: Env, root: Root, req: Request, staging: string, f: Faults, p: nat)
    requires f.killedAt == Some(p) && p <= |req.inventory.files| && forall i :: 0 <= i < p ==> f.copies(i).Some?
    ensures Attempted(env, root, req, staging, f) ==
      (root.(releases := root.releases[staging := Copied(req.inventory.files, f.copies, p)]), Killed)
  {
  }

  /** A process killed before action p, up to the rename, leaves exactly the first p files
      in the staging directory, and nothing else changed. */
  lemma KilledWhileCopying(env: Env, root: Root, req: Request, suffix: string, f: Faults, p: nat)
    requires Refusal(env, root, req).None? && f.killedAt == Some(p) && p <= |req.inventory.files|
    requires forall i :: 0 <= i < p ==> f.copies(i).Some?
    ensures var ((now, out), staging, files) :=
        (Freeze(env, root, req, suffix, f), "." + req.releaseId + ".freeze-" + suffix, req.inventory.files);
      && out == Killed && staging in now.releases && now == root.(releases := root.releases[staging := now.releases[staging]])
      && HoldsCopies(files, f.copies, p, now.releases[staging])
  {
    AcceptedPathsDiffer(env, root, req);
    CopiedHolds(req.inventory.files, f.copies, p);
    KilledAttempt(env, root, req, StagingName(req.releaseId, suffix), f, p);
  }

  /** A release without a receipt. */
  ghost predicate Orphan(root: Root, id: string) { id in root.releases && ReceiptName(id) !in root.receipts }

  /** Staging leaves other names alone. */
  lemma StagedSpares(env: Env, releases: map<string, Tree>, req: Request, staging: string, f: Faults)
    requires staging != req.releaseId
    ensures req.releaseId in Staged(env, releases, req, staging, f).0 <==> req.releaseId in releases
  {
  }

  lemma PublishedOrphans(env: Env, root: Root, req: Request, tree: Tree, f: Faults)
    requires req.releaseId !in root.releases && ReceiptName(req.releaseId) !in root.receipts
    ensures Orphan(Published(env, root, req, tree, f).0, req.releaseId) <==>
      f.killedAt == Some(|req.inventory.files| + 1) || (f.receiptFails && f.residue.Some?)
  {
  }

  /** An accepted attempt leaves its release without a receipt if and only if the copy was
      complete and good, the rename went through, and then the process was killed before
      the receipt, or the receipt failed and the removal left something behind. */
  lemma AttemptOrphans(env: Env, root: Root, req: Request, suffix: string, f: Faults)
    requires StagingName(req.releaseId, suffix) !in root.releases && Refusal(env, root, req).None?
    ensures Orphan(Freeze(env, root, req, suffix, f).0, req.releaseId) <==>
      var n := |req.inventory.files|;
      && (f.killedAt.Some? ==> f.killedAt.value > n) && GoodCopy(env, req, f) && !f.renameFails
      && (f.killedAt == Some(n + 1) || (f.receiptFails && f.residue.Some?))
  {
    Cleared(env, root, req);
    var staging := StagingName(req.releaseId, suffix);
    CopyableIff(f.copies, |req.inventory.files|);
    StagingIsNoIdentifier(req.releaseId, suffix);
    StagedSpares(env, root.releases, req, staging, f);
    var (releases, verdict) := Staged(env, root.releases, req, staging, f);
    if verdict.None? {
      PublishedOrphans(env, root, req, releases[staging], f);
    }
  }

  lemma TakenIsRefused(env: Env, root: Root, req: Request)
    requires req.releaseId in root.releases
    ensures Refusal(env, root, req).Some?
  {
  }

  lemma ReceiptNamesDiffer(a: string, b: string)
    ensures ReceiptName(a) == ReceiptName(b) ==> a == b
  {
    assert ReceiptName(a)[..|ReceiptName(a)| - 5] == a && ReceiptName(b)[..|ReceiptName(b)| - 5] == b;
  }

  lemma OrphanStays(env: Env, root: Root, req: Request, suffix: string, f: Faults, id: string)
    requires Orphan(root, id) && StagingName(req.releaseId, suffix) !in root.releases
    ensures Orphan(Freeze(env, root, req, suffix, f).0, id)
  {
    var (now, out) := Freeze(env, root, req, suffix, f);
    FreezeEffect(env, root, req, suffix, f);
    EffectPreserves(env, root, now, out, req, StagingName(req.releaseId, suffix), id);
    if out.Frozen? {
      ReceiptNamesDiffer(req.releaseId, id);
    }
  }

  /** Such a release blocks its identifier for ever: no run removes it or gives it a
      receipt, and every later request for it is refused. */
  lemma {:induction false} OrphanBlocks(env: Env, root: Root, attempts: seq<Attempt>, id: string, again: Request)
    requires Orphan(root, id) && FreshNames(env, root, attempts) && again.releaseId == id
    ensures Orphan(Run(env, root, attempts), id) && Refusal(env, Run(env, root, attempts), again).Some?
  {
    if attempts != [] {
      var n := |attempts| - 1;
      var a := attempts[n];
      FreshPrefix(env, root, attempts);
      OrphanBlocks(env, root, attempts[..n], id, again);
      OrphanStays(env, Run(env, root, attempts[..n]), a.req, a.suffix, a.faults, id);
    }
    TakenIsRefused(env, Run(env, root, attempts), again);
  }

  /** What a success froze is the workspace as it was verified, byte for byte, even
      if the workspace changed while it was being copied. */
  lemma FrozenEqualsWorkspace(env: Env, root: Root, req: Request, suffix: string, f: Faults)
    requires CollisionFree(env.hash) && StagingName(req.releaseId, suffix) !in root.releases
    requires Freeze(env, root, req, suffix, f).1.Frozen?
    ensures req.workspaceId in root.workspaces
    ensures Freeze(env, root, req, suffix, f).0.releases == root.releases[req.releaseId := root.workspaces[req.workspaceId]]
  {
    Cleared(env, root, req);
    FreezeEffect(env, root, req, suffix, f);
    var tree := Freeze(env, root, req, suffix, f).0.releases[req.releaseId];
    InventoryFixesTree(env, req.inventory.files, tree, root.workspaces[req.workspaceId]);
  }
}

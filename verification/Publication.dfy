/** The remote publication protocol: payloads first, manifest last, then read-back
    verification.  Any number of publishers of one prefix interleave freely and
    may stop anywhere.  An immutable copy is one atomic step that creates the
    object, accepts an identical one, and fails otherwise. */
module Publication {
  import opened Common

  datatype Item = Item(path: string, size: nat, sha: string)

  /** A local candidate: its files, its manifest and the manifest's declared hash. */
  datatype Candidate = Candidate(files: map<string, Bytes>, items: seq<Item>, manifest: Bytes, manifestSha: string)

  const MANIFEST := "manifest.json"

  datatype Phase =
    | Idle
    | Uploading(next: nat)
    | Checking(next: nat)
    | Done
    | Failed
    | Stopped

  type Remote = map<string, Bytes>

  datatype System = System(remote: Remote, phases: seq<Phase>)

  /** SHA-256 and the reading of a manifest's file list. */
  datatype Format = Format(hash: Bytes -> string, parse: Bytes -> seq<Item>)

  function ExpectedKeys(c: Candidate): set<string> {
    (set i | 0 <= i < |c.items| :: c.items[i].path) + {MANIFEST}
  }

  predicate Matches(f: Format, remote: Remote, item: Item) {
    item.path in remote && |remote[item.path]| == item.size && f.hash(remote[item.path]) == item.sha
  }

  predicate MatchesManifest(f: Format, remote: Remote, c: Candidate) {
    MANIFEST in remote && |remote[MANIFEST]| == |c.manifest| && f.hash(remote[MANIFEST]) == c.manifestSha
  }

  /** Create, or accept an identical object, or fail. */
  function Put(remote: Remote, key: string, data: Bytes): Option<Remote> {
    if key !in remote then Some(remote[key := data])
    else if remote[key] == data then Some(remote)
    else None
  }

  /** The next atomic action of one publisher. */
  function Act(f: Format, c: Candidate, remote: Remote, phase: Phase): (Remote, Phase) {
    match phase
    case Idle =>
      if remote.Keys != {} && remote.Keys != ExpectedKeys(c) then (remote, Failed)
      else if remote.Keys == {} then (remote, Uploading(0))
      else (remote, Checking(0))
    case Uploading(i) =>
      if i < |c.items| then
        if c.items[i].path !in c.files then (remote, Failed)
        else
          match Put(remote, c.items[i].path, c.files[c.items[i].path]) {
            case Some(now) => (now, Uploading(i + 1))
            case None => (remote, Failed)
          }
      else
        (match Put(remote, MANIFEST, c.manifest)
         case Some(now) => (now, Checking(0))
         case None => (remote, Failed))
    case Checking(i) =>
      if i < |c.items| then (remote, if Matches(f, remote, c.items[i]) then Checking(i + 1) else Failed)
      else (remote, if MatchesManifest(f, remote, c) then Done else Failed)
    case _ => (remote, phase)
  }

  /** One event of a schedule: a publisher acts, or its process stops. */
  datatype Event = Event(publisher: nat, stops: bool)

  function Step(f: Format, cs: seq<Candidate>, s: System, e: Event): (t: System)
    requires |cs| == |s.phases|
    ensures |t.phases| == |cs|
  {
    if e.publisher >= |cs| then s
    else
      var p := s.phases[e.publisher];
      if e.stops then
        if p.Done? || p.Failed? then s else s.(phases := s.phases[e.publisher := Stopped])
      else
        var (remote, phase) := Act(f, cs[e.publisher], s.remote, p);
        System(remote, s.phases[e.publisher := phase])
  }

  function Run(f: Format, cs: seq<Candidate>, s: System, events: seq<Event>): (t: System)
    requires |cs| == |s.phases|
    ensures |t.phases| == |cs|
  {
    if events == [] then s else Step(f, cs, Run(f, cs, s, events[..|events| - 1]), events[|events| - 1])
  }

  // ----- objects are never changed -----

  ghost predicate Extends(was: Remote, now: Remote) {
    forall k :: k in was ==> k in now && now[k] == was[k]
  }

  lemma ActExtends(f: Format, c: Candidate, remote: Remote, phase: Phase)
    ensures Extends(remote, Act(f, c, remote, phase).0)
  {
  }

  lemma {:induction false} RunExtends(f: Format, cs: seq<Candidate>, s: System, events: seq<Event>)
    requires |cs| == |s.phases|
    ensures Extends(s.remote, Run(f, cs, s, events).remote)
  {
    if events != [] {
      var (before, e) := (Run(f, cs, s, events[..|events| - 1]), events[|events| - 1]);
      RunExtends(f, cs, s, events[..|events| - 1]);
      if e.publisher < |cs| {
        ActExtends(f, cs[e.publisher], before.remote, before.phases[e.publisher]);
      }
    }
  }

  // ----- what each phase knows -----

  /** What a publisher may rely on about the remote in each phase. */
  ghost predicate Knows(f: Format, c: Candidate, remote: Remote, phase: Phase) {
    match phase
    case Uploading(i) =>
      i <= |c.items| &&
      forall j :: 0 <= j < i ==>
        c.items[j].path in c.files && c.items[j].path in remote && remote[c.items[j].path] == c.files[c.items[j].path]
    case Checking(i) => i <= |c.items| && forall j :: 0 <= j < i ==> Matches(f, remote, c.items[j])
    case Done => (forall j :: 0 <= j < |c.items| ==> Matches(f, remote, c.items[j])) && MatchesManifest(f, remote, c)
    case _ => true
  }

  lemma KnowsPersists(f: Format, c: Candidate, was: Remote, now: Remote, phase: Phase)
    requires Knows(f, c, was, phase) && Extends(was, now)
    ensures Knows(f, c, now, phase)
  {
  }

  lemma ActKnows(f: Format, c: Candidate, remote: Remote, phase: Phase)
    requires Knows(f, c, remote, phase)
    ensures var (now, next) := Act(f, c, remote, phase); Knows(f, c, now, next)
  {
    ActExtends(f, c, remote, phase);
  }

  ghost predicate AllKnow(f: Format, cs: seq<Candidate>, s: System) {
    |cs| == |s.phases| && forall i :: 0 <= i < |cs| ==> Knows(f, cs[i], s.remote, s.phases[i])
  }

  lemma StepKnows(f: Format, cs: seq<Candidate>, s: System, e: Event)
    requires AllKnow(f, cs, s)
    ensures AllKnow(f, cs, Step(f, cs, s, e))
  {
    var t := Step(f, cs, s, e);
    if e.publisher < |cs| {
      ActExtends(f, cs[e.publisher], s.remote, s.phases[e.publisher]);
      forall i | 0 <= i < |cs| ensures Knows(f, cs[i], t.remote, t.phases[i]) {
        if i == e.publisher {
          if !e.stops {
            ActKnows(f, cs[i], s.remote, s.phases[i]);
          }
        } else {
          KnowsPersists(f, cs[i], s.remote, t.remote, s.phases[i]);
        }
      }
    }
  }

  /** The object is visible with the size and the hash that the item lists. */
  ghost predicate AsListed(f: Format, remote: Remote, item: Item) {
    item.path in remote && |remote[item.path]| == item.size && f.hash(remote[item.path]) == item.sha
  }

  lemma {:induction false} RunKnows(f: Format, cs: seq<Candidate>, s: System, events: seq<Event>)
    requires AllKnow(f, cs, s)
    ensures AllKnow(f, cs, Run(f, cs, s, events))
  {
    if events != [] {
      RunKnows(f, cs, s, events[..|events| - 1]);
      StepKnows(f, cs, Run(f, cs, s, events[..|events| - 1]), events[|events| - 1]);
    }
  }

  ghost predicate AllIdle(s: System) {
    forall i :: 0 <= i < |s.phases| ==> s.phases[i] == Idle
  }

  /** A successful return means, at that moment and ever after, that every payload
      and the manifest are visible with the declared size and hash: whatever the
      prefix held before, whatever the other publishers do. */
  lemma SuccessIsVisible(f: Format, cs: seq<Candidate>, s: System, events: seq<Event>, i: nat)
    requires |cs| == |s.phases| && AllIdle(s) && i < |cs|
    requires Run(f, cs, s, events).phases[i] == Done
    ensures var remote := Run(f, cs, s, events).remote;
      && (forall j :: 0 <= j < |cs[i].items| ==> AsListed(f, remote, cs[i].items[j]))
      && MANIFEST in remote && |remote[MANIFEST]| == |cs[i].manifest| && f.hash(remote[MANIFEST]) == cs[i].manifestSha
  {
    RunKnows(f, cs, s, events);
  }

  /** What `build_candidate` leaves behind: the manifest lists the files, and each
      listed file has the listed size and hash. */
  ghost predicate Consistent(f: Format, c: Candidate) {
    && f.parse(c.manifest) == c.items
    && forall j :: 0 <= j < |c.items| ==>
      && c.items[j].path != MANIFEST
      && (c.items[j].path in c.files ==>
        |c.files[c.items[j].path]| == c.items[j].size && f.hash(c.files[c.items[j].path]) == c.items[j].sha)
  }

  ghost predicate Present(c: Candidate) {
    forall j :: 0 <= j < |c.items| ==> c.items[j].path in c.files
  }

  /** Everything the manifest lists exists locally, and its hash is declared right. */
  ghost predicate Publishable(f: Format, c: Candidate) {
    && Consistent(f, c)
    && c.manifestSha == f.hash(c.manifest)
    && Present(c)
  }

  ghost predicate HasBytes(remote: Remote, key: string, data: Bytes) { key in remote && remote[key] == data }

  /** The remote holds every payload and the manifest of the candidate, byte for byte. */
  ghost predicate HoldsBytes(c: Candidate, remote: Remote) {
    && HasBytes(remote, MANIFEST, c.manifest)
    && forall j :: 0 <= j < |c.items| ==> c.items[j].path in c.files && HasBytes(remote, c.items[j].path, c.files[c.items[j].path])
  }

  lemma MatchedBytes(f: Format, c: Candidate, remote: Remote)
    requires Publishable(f, c) && CollisionFree(f.hash)
    ensures HoldsBytes(c, remote) <==>
      (forall j :: 0 <= j < |c.items| ==> Matches(f, remote, c.items[j])) && MatchesManifest(f, remote, c)
  {
    forall j | 0 <= j < |c.items|
      ensures Matches(f, remote, c.items[j]) <==> HasBytes(remote, c.items[j].path, c.files[c.items[j].path])
    {
      var (path, sha) := (c.items[j].path, c.items[j].sha);
      assert f.hash(c.files[path]) == sha;
    }
  }

  /** Under a collision-free hash that means the very bytes of the candidate. */
  lemma SuccessHoldsTheBytes(f: Format, cs: seq<Candidate>, s: System, events: seq<Event>, i: nat)
    requires |cs| == |s.phases| && AllIdle(s) && i < |cs| && Publishable(f, cs[i]) && CollisionFree(f.hash)
    requires Run(f, cs, s, events).phases[i] == Done
    ensures HoldsBytes(cs[i], Run(f, cs, s, events).remote)
  {
    SuccessIsVisible(f, cs, s, events, i);
    MatchedBytes(f, cs[i], Run(f, cs, s, events).remote);
  }

  // ----- a visible manifest is complete -----

  ghost predicate Complete(f: Format, remote: Remote) {
    MANIFEST in remote ==>
      var items := f.parse(remote[MANIFEST]);
      forall j :: 0 <= j < |items| ==> AsListed(f, remote, items[j])
  }

  /** The only action that makes a manifest visible is the one that follows all
      payloads. */
  lemma PutsManifest(f: Format, c: Candidate, remote: Remote, phase: Phase)
    requires Consistent(f, c) && Knows(f, c, remote, phase)
    requires MANIFEST !in remote && MANIFEST in Act(f, c, remote, phase).0
    ensures Act(f, c, remote, phase).0 == remote[MANIFEST := c.manifest]
    ensures HoldsBytes(c, remote[MANIFEST := c.manifest])
    ensures forall j :: 0 <= j < |c.items| ==> Matches(f, remote[MANIFEST := c.manifest], c.items[j])
  {
  }

  lemma ActComplete(f: Format, c: Candidate, remote: Remote, phase: Phase)
    requires Consistent(f, c) && Knows(f, c, remote, phase) && Complete(f, remote)
    ensures Complete(f, Act(f, c, remote, phase).0)
  {
    var now := Act(f, c, remote, phase).0;
    ActExtends(f, c, remote, phase);
    if MANIFEST in now {
      if MANIFEST in remote {
        var items := f.parse(remote[MANIFEST]);
        forall j | 0 <= j < |items| ensures AsListed(f, now, items[j]) {
          assert AsListed(f, remote, items[j]);
        }
      } else {
        PutsManifest(f, c, remote, phase);
      }
    }
  }

  /** Manifest-last is safe: in every state of every interleaving, a visible
      manifest names only payloads that are visible with the named bytes. */
  lemma {:induction false} VisibleManifestIsComplete(f: Format, cs: seq<Candidate>, s: System, events: seq<Event>)
    requires |cs| == |s.phases| && AllIdle(s) && Complete(f, s.remote)
    requires forall i :: 0 <= i < |cs| ==> Consistent(f, cs[i])
    ensures Complete(f, Run(f, cs, s, events).remote)
  {
    if events != [] {
      var shorter := events[..|events| - 1];
      var (before, e) := (Run(f, cs, s, shorter), events[|events| - 1]);
      VisibleManifestIsComplete(f, cs, s, shorter);
      RunKnows(f, cs, s, shorter);
      if e.publisher < |cs| {
        ActComplete(f, cs[e.publisher], before.remote, before.phases[e.publisher]);
      }
    }
  }

  /** A visible manifest that was not there before is some candidate's, and all the payloads
      of that candidate are visible byte for byte: in every state of every interleaving,
      and whatever the hash. */
  lemma {:induction false} NewManifestIsComplete(f: Format, cs: seq<Candidate>, s: System, events: seq<Event>)
    requires |cs| == |s.phases| && AllIdle(s) && MANIFEST !in s.remote
    requires forall i :: 0 <= i < |cs| ==> Consistent(f, cs[i])
    ensures MANIFEST in Run(f, cs, s, events).remote ==>
      exists i :: 0 <= i < |cs| && HoldsBytes(cs[i], Run(f, cs, s, events).remote)
  {
    if events != [] {
      var shorter := events[..|events| - 1];
      var (before, e) := (Run(f, cs, s, shorter), events[|events| - 1]);
      NewManifestIsComplete(f, cs, s, shorter);
      RunKnows(f, cs, s, shorter);
      if e.publisher < |cs| && !e.stops {
        var (c, p) := (cs[e.publisher], before.phases[e.publisher]);
        var now := Act(f, c, before.remote, p).0;
        ActExtends(f, c, before.remote, p);
        if MANIFEST in before.remote {
          var i :| 0 <= i < |cs| && HoldsBytes(cs[i], before.remote);
          assert HoldsBytes(cs[i], now);
        } else if MANIFEST in now {
          PutsManifest(f, c, before.remote, p);
          assert HoldsBytes(c, now);
        }
      }
    }
  }

  // ----- a partial prefix is refused for ever -----

  /** Objects, but no manifest: what an interrupted publication leaves behind. */
  ghost predicate Partial(remote: Remote) {
    remote.Keys != {} && MANIFEST !in remote
  }

  ghost predicate Quiet(phase: Phase) { phase.Idle? || phase.Failed? || phase.Stopped? }

  lemma {:induction false} PartialPrefixIsRefused(f: Format, cs: seq<Candidate>, s: System, events: seq<Event>)
    requires |cs| == |s.phases| && Partial(s.remote)
    requires forall i :: 0 <= i < |cs| ==> Quiet(s.phases[i])
    ensures Run(f, cs, s, events).remote == s.remote
    ensures forall i :: 0 <= i < |cs| ==> Quiet(Run(f, cs, s, events).phases[i])
  {
    if events != [] {
      var (before, e) := (Run(f, cs, s, events[..|events| - 1]), events[|events| - 1]);
      PartialPrefixIsRefused(f, cs, s, events[..|events| - 1]);
      if e.publisher < |cs| {
        assert MANIFEST in ExpectedKeys(cs[e.publisher]);
        assert before.remote.Keys != ExpectedKeys(cs[e.publisher]);
      }
    }
  }

  // ----- a lone publisher -----

  /** `n` actions of one publisher that nobody disturbs. */
  function Solo(f: Format, c: Candidate, remote: Remote, phase: Phase, n: nat): (Remote, Phase)
    decreases n
  {
    if n == 0 then (remote, phase)
    else
      var (now, next) := Act(f, c, remote, phase);
      Solo(f, c, now, next, n - 1)
  }

  /** The first `i` payloads. */
  ghost function Payloads(c: Candidate, i: nat): Remote
    requires Present(c) && i <= |c.items|
  {
    if i == 0 then map[] else Payloads(c, i - 1)[c.items[i - 1].path := c.files[c.items[i - 1].path]]
  }

  lemma {:induction false} PayloadsAre(c: Candidate, i: nat, k: string)
    requires Present(c) && i <= |c.items|
    ensures k in Payloads(c, i) <==> exists j :: 0 <= j < i && c.items[j].path == k
    ensures k in Payloads(c, i) ==> k in c.files && Payloads(c, i)[k] == c.files[k]
  {
    if i > 0 {
      PayloadsAre(c, i - 1, k);
    }
  }

  lemma PutPayload(f: Format, c: Candidate, i: nat)
    requires Present(c) && i < |c.items|
    ensures Act(f, c, Payloads(c, i), Uploading(i)) == (Payloads(c, i + 1), Uploading(i + 1))
  {
    var (path, remote) := (c.items[i].path, Payloads(c, i));
    PayloadsAre(c, i, path);
    assert path in remote ==> remote[path := c.files[path]] == remote;
  }

  /** The prefix of a finished publication. */
  ghost function Whole(c: Candidate): Remote
    requires Present(c)
  {
    Payloads(c, |c.items|)[MANIFEST := c.manifest]
  }

  lemma WholeMatches(f: Format, c: Candidate)
    requires Publishable(f, c)
    ensures Whole(c).Keys == ExpectedKeys(c) && MatchesManifest(f, Whole(c), c)
    ensures forall j :: 0 <= j < |c.items| ==> Matches(f, Whole(c), c.items[j])
  {
    forall k ensures k in Whole(c) <==> k in ExpectedKeys(c) {
      PayloadsAre(c, |c.items|, k);
    }
    forall j | 0 <= j < |c.items| ensures Matches(f, Whole(c), c.items[j]) {
      PayloadsAre(c, |c.items|, c.items[j].path);
    }
  }

  lemma PutManifest(f: Format, c: Candidate)
    requires Publishable(f, c)
    ensures Act(f, c, Payloads(c, |c.items|), Uploading(|c.items|)) == (Whole(c), Checking(0))
  {
    PayloadsAre(c, |c.items|, MANIFEST);
  }

  /** The uploading part of a lone publication. */
  lemma {:induction false} Uploads(f: Format, c: Candidate, i: nat, n: nat)
    requires Publishable(f, c) && i <= |c.items|
    ensures Solo(f, c, Payloads(c, i), Uploading(i), n) ==
      if i + n <= |c.items| then (Payloads(c, i + n), Uploading(i + n))
      else Solo(f, c, Whole(c), Checking(0), i + n - |c.items| - 1)
    decreases n
  {
    if n > 0 {
      if i < |c.items| {
        PutPayload(f, c, i);
        Uploads(f, c, i + 1, n - 1);
      } else {
        PutManifest(f, c);
      }
    }
  }

  ghost predicate WillWrite(phase: Phase) { phase.Idle? || phase.Uploading? }

  /** A publisher that is past uploading writes nothing more, and only learns. */
  lemma {:induction false} Reads(f: Format, c: Candidate, remote: Remote, phase: Phase, n: nat)
    requires !WillWrite(phase) && Knows(f, c, remote, phase)
    ensures var (now, next) := Solo(f, c, remote, phase, n);
      now == remote && !WillWrite(next) && Knows(f, c, remote, next) && (phase == Failed ==> next == Failed)
    decreases n
  {
    if n > 0 {
      ActKnows(f, c, remote, phase);
      Reads(f, c, remote, Act(f, c, remote, phase).1, n - 1);
    }
  }

  /** Where a lone publication on an empty prefix stands after `n` actions. */
  lemma SoloPrefix(f: Format, c: Candidate, n: nat)
    requires Publishable(f, c)
    ensures Solo(f, c, map[], Idle, n).0 ==
      if n <= 1 then map[] else if n <= |c.items| + 1 then Payloads(c, n - 1) else Whole(c)
  {
    if n > 0 {
      assert Act(f, c, map[], Idle) == (map[], Uploading(0)) && Payloads(c, 0) == map[];
      Uploads(f, c, 0, n - 1);
      if n > |c.items| + 1 {
        Reads(f, c, Whole(c), Checking(0), n - |c.items| - 2);
      }
    }
  }

  /** Stopping a publication leaves a partial prefix exactly when it happens after the
      first payload and before the manifest. */
  lemma StoppingLeavesPartial(f: Format, c: Candidate, n: nat)
    requires Publishable(f, c)
    ensures Partial(Solo(f, c, map[], Idle, n).0) <==> 2 <= n <= |c.items| + 1
  {
    SoloPrefix(f, c, n);
    if 2 <= n <= |c.items| + 1 {
      PayloadsAre(c, n - 1, MANIFEST);
      PayloadsAre(c, n - 1, c.items[0].path);
      assert c.items[0].path in Payloads(c, n - 1).Keys;
    }
  }

  // ----- which prefixes a lone run completes -----

  /** Left alone, the publisher comes to a successful return. */
  ghost predicate Succeeds(f: Format, c: Candidate, remote: Remote) {
    exists n :: Solo(f, c, remote, Idle, n).1 == Done
  }

  /** The prefix holds exactly the expected objects, and all of them match. */
  ghost predicate Published(f: Format, c: Candidate, remote: Remote) {
    && remote.Keys == (set i | 0 <= i < |c.items| :: c.items[i].path) + {MANIFEST}
    && |remote[MANIFEST]| == |c.manifest| && f.hash(remote[MANIFEST]) == c.manifestSha
    && forall j :: 0 <= j < |c.items| ==> AsListed(f, remote, c.items[j])
  }

  /** Checks that all hold end in success. */
  lemma {:induction false} ChecksPass(f: Format, c: Candidate, remote: Remote, i: nat)
    requires i <= |c.items| && MatchesManifest(f, remote, c)
    requires forall j :: 0 <= j < |c.items| ==> Matches(f, remote, c.items[j])
    ensures Solo(f, c, remote, Checking(i), |c.items| - i + 1) == (remote, Done)
    decreases |c.items| - i
  {
    if i < |c.items| {
      assert Act(f, c, remote, Checking(i)) == (remote, Checking(i + 1));
      ChecksPass(f, c, remote, i + 1);
    } else {
      assert Act(f, c, remote, Checking(i)) == (remote, Done);
    }
  }

  /** A publishable candidate on an empty prefix, left alone, ends in success. */
  lemma SoloSucceeds(f: Format, c: Candidate)
    requires Publishable(f, c)
    ensures Solo(f, c, map[], Idle, 2 * |c.items| + 3) == (Whole(c), Done)
  {
    var n := |c.items|;
    assert Act(f, c, map[], Idle) == (map[], Uploading(0)) && Payloads(c, 0) == map[];
    Uploads(f, c, 0, 2 * n + 2);
    WholeMatches(f, c);
    ChecksPass(f, c, Whole(c), 0);
  }

  /** A rerun over a published prefix verifies it and writes nothing. */
  lemma ReverifySucceeds(f: Format, c: Candidate, remote: Remote)
    requires Published(f, c, remote)
    ensures Solo(f, c, remote, Idle, |c.items| + 2) == (remote, Done)
  {
    assert MANIFEST in remote.Keys;
    assert Act(f, c, remote, Idle) == (remote, Checking(0));
    ChecksPass(f, c, remote, 0);
  }

  /** On a prefix that is not empty a lone run writes nothing; it fails at once unless
      the keys are the expected ones, and otherwise knows what it has checked. */
  lemma SoloReads(f: Format, c: Candidate, remote: Remote, n: nat)
    requires remote.Keys != {}
    ensures var (now, phase) := Solo(f, c, remote, Idle, n);
      && now == remote && Knows(f, c, remote, phase)
      && (n > 0 && remote.Keys != ExpectedKeys(c) ==> phase == Failed)
  {
    if n > 0 {
      Reads(f, c, remote, Act(f, c, remote, Idle).1, n - 1);
    }
  }

  /** A lone run of a publishable candidate succeeds if and only if the prefix is empty,
      or already holds exactly the expected objects with everything matching. */
  lemma RerunIff(f: Format, c: Candidate, remote: Remote)
    requires Publishable(f, c)
    ensures Succeeds(f, c, remote) <==> remote.Keys == {} || Published(f, c, remote)
  {
    if remote.Keys == {} {
      assert remote == map[];
      SoloSucceeds(f, c);
    } else if Published(f, c, remote) {
      ReverifySucceeds(f, c, remote);
    } else {
      forall n ensures Solo(f, c, remote, Idle, n).1 != Done {
        SoloReads(f, c, remote, n);
      }
    }
  }

  /** Under a collision-free hash: exactly when the prefix is empty, or is already the
      whole publication, byte for byte and with nothing else in it. */
  lemma RerunIffWhole(f: Format, c: Candidate, remote: Remote)
    requires Publishable(f, c) && CollisionFree(f.hash)
    ensures Succeeds(f, c, remote) <==> remote == map[] || remote == Whole(c)
  {
    RerunIff(f, c, remote);
    WholeMatches(f, c);
    MatchedBytes(f, c, remote);
    if Published(f, c, remote) {
      forall k | k in remote ensures remote[k] == Whole(c)[k] {
        PayloadsAre(c, |c.items|, k);
      }
    }
  }

  /** So a publication stopped after `n` actions can be completed by running it again if
      and only if it was stopped before its first payload or after its manifest. */
  lemma StoppedThenRerun(f: Format, c: Candidate, n: nat)
    requires Publishable(f, c)
    ensures Succeeds(f, c, Solo(f, c, map[], Idle, n).0) <==> n <= 1 || n >= |c.items| + 2
  {
    var remote := Solo(f, c, map[], Idle, n).0;
    SoloPrefix(f, c, n);
    RerunIff(f, c, remote);
    WholeMatches(f, c);
    StoppingLeavesPartial(f, c, n);
  }
}

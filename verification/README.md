# Verified core of the OVC research repository

This project models the parts of the repository whose correctness is hardest to see by
reading, and proves what they promise, for every input, every run or every reachable
state:

* the stage-A event-time and statistics kernel (directional-change detector, variation
  clock, lattice crossings, residual fraction with its stratified shuffle, ranks and
  correlation, side/month checkpoints): `EventTime`, `Lattice`, `Dispersion`, `Residual`,
  `Correlation`, `Resume`;
* the content-addressed artifact store, a deduplicating, chunked, manifest-last store
  with a cached size and a capacity limit: `ArtifactStore` (the operations),
  `ArtifactLaws`, `ArtifactCapacity`, and `ArtifactEngine` (the object that performs them);
* the append-only, hash-linked checkpoint store: `CheckpointChain`, with file names in
  `Numerals`;
* workspace inventories and the freezing of a release with rollback: `Inventory`,
  `ReleaseFreeze`;
* the C2 identity replay and the remote publication protocol: `IdentityReplay`,
  `IdentityLaws`, `Publication`;
* the restore of a closed episode partition from its event stream: `EpisodeRestore`,
  `EpisodeAudit`, `EpisodeRows`;
* two encodings that must be invertible, the assurance-harness identity and the census
  bundle with its sealed reader: `HarnessIdentity`, `CensusBundle`;
* the C1 bar replay: `BarReplay`.

`Common` holds shared datatypes and `Sorting` Python's stable sort with string order.

## Conventions

* `Decimal` is an exact `real`; division, floors and rounding to even are exact.
* SHA-256 (FIPS 180-4) is an uninterpreted function. That distinct inputs have distinct
  digests is a hypothesis of the statements that need it, never a fact of the model.
* gzip (RFC 1952, MTIME 0) is a pair with `decompress(compress(x)) == x`; canonical JSON and
  UTF-8 are injective encodings, and ASCII has one byte per character. These laws are the predicate `Lawful` of each component.
* Writing a temporary file and renaming it is one atomic step. A process may stop between
  any two steps. There is a single writer, except among publishers.
* Exceptions are `Result`, `Option` or outcome values; the text of a message is a label.
* Looping and mutating code is a method or a class, proved equal to a specification
  function; the laws are lemmas about that function.

## What the proofs brought to light

* The checkpoint store finds its latest record by file-name order. `100000000.json` sorts
  before `99999999.json`, so the store holds 1..n for n up to 99,999,999 and one record more,
  after which it refuses or repeats for ever (`CommitOnChain`, `ConsecutiveRun`).
* `load_bytes` trims the unit identifier to find the manifest but compares the untrimmed
  one with it, so an identifier with outer blanks commits and never loads (`CommitThenLoad`).
* `verify_receipt` never looks at the size on a receipt (`ReceiptReadsView`).
* A chunk occurring twice in one commit is written once and counted twice
  (`RepeatedChunkOvercounts`), so the cached size is exact if and only if that does not
  happen (`CachedSizeExact`).
* A publication that is stopped after its first payload and before its manifest leaves a
  prefix that no later run can complete: every rerun refuses it without writing. Stopped
  before or after that, it is completed by running it again (`StoppedThenRerun`).
* A release identifier is accepted with up to 123 characters, although 128 are valid,
  because its receipt name must be an identifier too (`AcceptedIdsAreShort`,
  `LongIdIsRefused`).
* A process killed between the renaming of a release and the writing of its receipt, or a
  failed receipt whose removal is incomplete, blocks the release identifier for ever
  (`AttemptOrphans`, `OrphanBlocks`).
* The prior-dependent C1 fields look at the last accepted bar only. Off the clock grid a bar
  one clock earlier can be hidden by one in between (`OffGridHides`); `PriorFieldsIff` is the
  exact condition.

## Model

| member | source | states |
|---|---|---|
| `EventTime.DirectionalChangeCounts` | scripts/research_operations/run_mcarbi_stage_a.py:369-391 | the high/low/mode loop marks exactly the bars that retrace by the threshold from some close since the previous event, against the current mode |
| `EventTime.TrackStep` | scripts/research_operations/run_mcarbi_stage_a.py:377-390 | one loop turn decides the specified event and keeps `high`/`low` the extreme closes since the last event |
| `EventTime.EventAtIs` | scripts/research_operations/run_mcarbi_stage_a.py:377-390 | whether and in which direction a bar fires depends only on the bars up to it |
| `EventTime.NextEventIsFirstRetrace` | scripts/research_operations/run_mcarbi_stage_a.py:369-391 | after an event, the next one is at the first bar that retraces by the threshold from a close since it: a bar fires if and only if it retraces, it reverses the direction, and no bar in between retraced |
| `EventTime.FirstEventIsFirstMove` | scripts/research_operations/run_mcarbi_stage_a.py:369-391 | the first event is at the first bar a threshold away from some earlier close, a fall being noticed before a rise |
| `EventTime.EventsAlternate` | scripts/research_operations/run_mcarbi_stage_a.py:369-391 | consecutive directional changes have opposite directions |
| `EventTime.DcCountBound` | scripts/research_operations/run_mcarbi_stage_a.py:369-391 | number of directional changes times threshold never exceeds the total absolute close variation |
| `EventTime.VariationCounts` | scripts/research_operations/run_mcarbi_stage_a.py:394-408 | the accumulator loop fires exactly when the variation since its last event reaches the target |
| `EventTime.VariationIsRiseAndFall` | scripts/research_operations/run_mcarbi_stage_a.py:394-408 | the variation between two bars is the sum of the rises plus the sum of the falls, whose difference is the net move |
| `EventTime.NextTickIff` | scripts/research_operations/run_mcarbi_stage_a.py:394-408 | after a tick, or from the first bar, the next tick comes at the first bar where rises plus falls since then reach the target |
| `EventTime.VarCountBound` | scripts/research_operations/run_mcarbi_stage_a.py:394-408 | events times target plus the unspent remainder never exceed the total variation |
| `EventTime.EventsAreCausal` | scripts/research_operations/run_mcarbi_stage_a.py:369-408 | the events of a prefix are the prefix of the events, for both clocks |
| `EventTime.GreedyDominance` | scripts/research_operations/run_mcarbi_stage_a.py:369-408 | on every prefix of every series the variation clock has fired at least as often as the directional-change detector of equal or larger threshold |
| `EventTime.TabulateLooksUp` | scripts/research_operations/run_mcarbi_stage_a.py:288-323 | with unique timestamps the returned dictionary says 1 at exactly the event bars |
| `Lattice.LatticeCrossingCount` | scripts/research_operations/run_mcarbi_stage_a.py:411-423 | the level loop counts the levels of the clamped range that the move reaches; no move counts zero, a zero step divides by zero |
| `Lattice.RoundsToNearestEven` | scripts/research_operations/run_mcarbi_stage_a.py:414-415 | the level index is the only integer within one half of the quotient that is even on ties |
| `Lattice.CrossingClosedForm` | scripts/research_operations/run_mcarbi_stage_a.py:411-423 | for every non-zero step, of either sign, the count is in units of the step a clamped difference of floors for a rise and of ceilings for a fall |
| `Lattice.CrossingAdditive` | scripts/research_operations/run_mcarbi_stage_a.py:411-423 | counts add when a monotone move is split at any point |
| `Lattice.PathTelescopes` | scripts/research_operations/run_mcarbi_stage_a.py:411-423 | along any monotone path the counts sum to that of the endpoints |
| `Lattice.CrossingReversal` | scripts/research_operations/run_mcarbi_stage_a.py:411-423 | an upward count and the reversed one differ by exactly the endpoint-on-level indicators |
| `Lattice.LevelsAtIsIndicator` | scripts/research_operations/run_mcarbi_stage_a.py:411-423 | such an indicator is 1 if the endpoint is a level of the range and 0 otherwise |
| `Dispersion.SseOrZero` | scripts/research_operations/run_mcarbi_stage_a.py:597-603 | a group without an SSE has zero spread about its mean |
| `Dispersion.SseClosedForm` | scripts/research_operations/run_mcarbi_stage_a.py:597-603 | n times the sum of squares about the mean is n times the raw sum of squares less the squared sum |
| `Dispersion.MeanIsBest` | scripts/research_operations/run_mcarbi_stage_a.py:597-603 | the sum of squares about the mean is minimal among all centres |
| `Dispersion.FinerSpreadIsSmaller` | scripts/research_operations/run_mcarbi_stage_a.py:597-632 | refining any grouping never raises the within-group sum of squares |
| `Residual.ResidualFraction` | scripts/research_operations/run_mcarbi_stage_a.py:606-632 | the loops compute within-cell over within-stratum spread; undefined if and only if the observed records of each stratum share one value, zero if and only if those of each cell do, and otherwise in [0, 1] |
| `Residual.DeterministicShuffle` | scripts/research_operations/run_mcarbi_stage_a.py:635-648 | the strata loops compute the stratified shuffle function |
| `Residual.ShufflePermutesMembers` | scripts/research_operations/run_mcarbi_stage_a.py:635-648 | within each stratum the dealt values are a permutation of the own values, for every digest |
| `Residual.ShuffleDealsByRank` | scripts/research_operations/run_mcarbi_stage_a.py:635-648 | the record with k smaller digest-and-identifier pairs in its stratum is dealt the value of the record with k smaller identifiers |
| `Residual.ShuffleCovers` | scripts/research_operations/run_mcarbi_stage_a.py:635-648 | a record is dealt a value if and only if it has one |
| `Residual.ShuffleKeepsDenominator` | scripts/research_operations/run_mcarbi_stage_a.py:606-648 | the shuffled control has the same n, the same values per stratum and the same denominator |
| `Residual.BuiltIdsDiffer` | scripts/research_operations/run_mcarbi_stage_a.py:526-549 | records built from cores that are unique by side and start have distinct identifiers under a collision-free hash |
| `Residual.ControlIsFair` | scripts/research_operations/run_mcarbi_stage_a.py:526-648 | for every record list the program can build and every field, the shuffled control permutes the values of each stratum and keeps n and the denominator |
| `Correlation.AverageRanks` | scripts/research_operations/run_mcarbi_stage_a.py:706-718 | the run loop gives every value its counting rank: number smaller plus half of number equal plus one |
| `Correlation.RanksSum` | scripts/research_operations/run_mcarbi_stage_a.py:706-718 | ranks sum to n(n+1)/2 |
| `Correlation.RanksPreserveOrder` | scripts/research_operations/run_mcarbi_stage_a.py:706-718 | ranks are ordered and tied exactly as the values are |
| `Correlation.CauchySchwarz` | scripts/research_operations/run_mcarbi_stage_a.py:687-703 | the squared product sum is at most the product of the sums of squares, for any pairs |
| `Correlation.PearsonPairs` | scripts/research_operations/run_mcarbi_stage_a.py:687-703 | defined exactly for three or more pairs with neither side constant; then covariance over root of spreads, within [-1, 1] |
| `Correlation.CentredSums` | scripts/research_operations/run_mcarbi_stage_a.py:687-703 | n times the numerator is n Σxy − Σx Σy, and n times each sum of squares is n Σx² − (Σx)² |
| `Correlation.RootSquares` | scripts/research_operations/run_mcarbi_stage_a.py:699-703 | the denominator squared is the product of the two centred sums of squares |
| `Correlation.FlatIffConstant` | scripts/research_operations/run_mcarbi_stage_a.py:687-703 | a centred sum of squares is zero exactly when that component is the same in all pairs |
| `Resume.CheckpointRecords` | scripts/research_operations/run_mcarbi_stage_a.py:559-571 | one file per declared side and month, holding its records in order |
| `Resume.LoadCheckpoints` | scripts/research_operations/run_mcarbi_stage_a.py:574-585 | reads all parts in order, re-sorts, and refuses a missing part or a wrong count |
| `Resume.ResumeEquivalence` | scripts/research_operations/run_mcarbi_stage_a.py:549-585 | a key-sorted list comes back unchanged if and only if it has the expected size and lies in the declared sides and months |
| `ArtifactEngine.ContentAddressedArtifactStore.TotalBytes` | src/ovc_evidence_store/content_addressed.py:102-110 | returns the cached size, or scans and caches the real one |
| `ArtifactEngine.ContentAddressedArtifactStore.CommitBytes` | src/ovc_evidence_store/content_addressed.py:124-199 | the whole commit, stopped before any write or not, has exactly the specified state and outcome |
| `ArtifactEngine.ContentAddressedArtifactStore.LoadBytes` | src/ovc_evidence_store/content_addressed.py:214-240 | reads and checks the chunks as specified, with the first error reported |
| `ArtifactEngine.ContentAddressedArtifactStore.VerifyReceipt` | src/ovc_evidence_store/content_addressed.py:242-257 | accepts exactly the receipts that match namespace, unit, manifest file, both hashes and the expected context, if one is given |
| `ArtifactStore.ChunksJoin` | src/ovc_evidence_store/content_addressed.py:137-160 | joining the chunks gives back the bytes, for every chunk size |
| `ArtifactStore.ChunksAt` | src/ovc_evidence_store/content_addressed.py:137-160 | chunk i is bytes i·n up to (i+1)·n or the end, and only the last chunk reaches the end |
| `ArtifactLaws.CommitRefines` | src/ovc_evidence_store/content_addressed.py:124-199 | every commit acts on the abstract write-once map as a put that only a success performs; a rejection leaves the disk alone |
| `ArtifactLaws.CommittedIsWritten` | src/ovc_evidence_store/content_addressed.py:124-199 | after a success the manifest on disk carries every field of the request, refers to every chunk by index, hash and sizes, the chunks are stored compressed, and the receipt carries the hashes and the raw size |
| `ArtifactLaws.FreshCommitSucceedsIff` | src/ovc_evidence_store/content_addressed.py:124-199 | a commit of a unit not held succeeds if and only if its identifier is not blank, no stored chunk disagrees, the new bytes fit under the limit, and the process survives all writes |
| `ArtifactLaws.LoadReadsView` | src/ovc_evidence_store/content_addressed.py:201-240 | a load returns exactly the committed bytes, or reports the unit missing, refuses an untrimmed identifier, or refuses an expected context other than the committed one |
| `ArtifactLaws.CommitThenLoad` | src/ovc_evidence_store/content_addressed.py:124-240 | after a successful commit, loading under the committed identifier returns the bytes if and only if the identifier was trimmed |
| `ArtifactLaws.ReceiptReadsView` | src/ovc_evidence_store/content_addressed.py:242-257 | a receipt verifies if and only if its unit is visible with the hashes on it, under the manifest it names and the expected context, whatever its size field says |
| `ArtifactLaws.LoadedIff` | src/ovc_evidence_store/content_addressed.py:201-240 | for every disk whatsoever: a load returns these bytes if and only if the manifest is there and bound to namespace, unit and context, every chunk file has its compressed hash and its raw size and hash, and the joined bytes have the recorded size and hash |
| `ArtifactLaws.ReceiptLoads` | src/ovc_evidence_store/content_addressed.py:242-257 | for every disk whatsoever: a receipt verifies if and only if its unit loads and manifest hash, raw hash and logical hash are those on it |
| `ArtifactLaws.TamperingIsSeen` | src/ovc_evidence_store/content_addressed.py:201-240 | however the chunk files are changed, a unit that loaded loads again if and only if each of its chunk files still has its bytes, and then with the same result |
| `ArtifactLaws.ReceiptPinsBytes` | src/ovc_evidence_store/content_addressed.py:124-257 | on whatever disk the receipt of a commit verifies, the unit loads with exactly the committed bytes and under no other context |
| `ArtifactLaws.DifferingCommitFails` | src/ovc_evidence_store/content_addressed.py:165-199 | differing bytes, logical hash or context for a held unit are rejected without any disk change |
| `ArtifactLaws.RunIsWriteOnce` | src/ovc_evidence_store/content_addressed.py:71-199 | in every state of every run, stops and reopenings included, all manifests are backed by intact chunks and visible entries never change |
| `ArtifactLaws.EmptyIsLive` | src/ovc_evidence_store/content_addressed.py:71-90 | the empty store satisfies the invariant and shows nothing |
| `ArtifactLaws.RepeatIsNoop` | src/ovc_evidence_store/content_addressed.py:124-199 | repeating a successful commit after any further run changes nothing and returns the same receipt |
| `ArtifactCapacity.CommitBounded` | src/ovc_evidence_store/content_addressed.py:102-122 | real bytes never exceed the cached size, which after any writing commit is within the limit |
| `ArtifactCapacity.RunBounded` | src/ovc_evidence_store/content_addressed.py:102-199 | over every run, reopenings included, real bytes never exceed the cached size |
| `ArtifactCapacity.RunWithinLimit` | src/ovc_evidence_store/content_addressed.py:102-189 | over every run of one instance that starts within its limit: real bytes, cached size and limit stay in this order |
| `ArtifactCapacity.WriteWithinLimit` | src/ovc_evidence_store/content_addressed.py:102-189 | after any run, reopenings under other limits included, a writing commit leaves real bytes, cached size and the limit in force in this order |
| `ArtifactCapacity.CommitAccounting` | src/ovc_evidence_store/content_addressed.py:137-189 | a completed commit raises cached over real size by exactly the bytes of the chunks queued again |
| `ArtifactCapacity.CachedSizeExact` | src/ovc_evidence_store/content_addressed.py:137-189 | from an exact size, the size stays exact if and only if no fresh chunk was queued twice |
| `ArtifactCapacity.RepeatedChunkOvercounts` | src/ovc_evidence_store/content_addressed.py:137-189 | one chunk committed twice over to an empty store leaves the cached size too large by exactly the compressed chunk |
| `ArtifactCapacity.RunExact` | src/ovc_evidence_store/content_addressed.py:102-189 | over a whole run, stops included, cached and real size agree if no single commit queues a fresh chunk twice |
| `ArtifactCapacity.RetryCompletes` | src/ovc_evidence_store/content_addressed.py:124-199 | retrying an interrupted commit on a reopened store succeeds with the same receipt and the disk of an uninterrupted one |
| `CheckpointChain.AppendOnlyCheckpointStore.FindLatest` | src/ovc_evidence_store/checkpoints.py:56-60 | returns the record whose file name is last in lexicographic order |
| `CheckpointChain.AppendOnlyCheckpointStore.CommitNext` | src/ovc_evidence_store/checkpoints.py:62-100 | has exactly the specified effect and result, including the history-rewrite refusal |
| `CheckpointChain.ChainLatest` | src/ovc_evidence_store/checkpoints.py:51-60 | in a store holding 1..n the latest record is n up to the width limit, and the limit beyond it |
| `CheckpointChain.CommitOnChain` | src/ovc_evidence_store/checkpoints.py:62-100 | below the limit exactly the next sequence is accepted: its record holds the payload and identifier of the request and the hash of its parent, and the receipt names it; past the limit nothing changes, and only an exact repeat of the last request is answered |
| `CheckpointChain.RunOnChain` | src/ovc_evidence_store/checkpoints.py:62-120 | no run of any requests changes an existing checkpoint or breaks a link |
| `CheckpointChain.ConsecutiveRun` | src/ovc_evidence_store/checkpoints.py:51-100 | submitting 1..n to an empty store leaves exactly 1..n, capped one past the width limit, record i holding the payload and identifier of request i |
| `CheckpointChain.EqualHeadsEqualStores` | src/ovc_evidence_store/checkpoints.py:102-120 | chains of equal length and equal head hash are equal throughout |
| `CheckpointChain.VerifyBinds` | src/ovc_evidence_store/checkpoints.py:102-120 | a record verifies under one sequence and one namespace only, and what verify returns is the stored body with its recorded hash |
| `Numerals.NamesInOrder` | src/ovc_evidence_store/checkpoints.py:51-54 | zero-padded names sort as their numbers do, within the width |
| `Numerals.PaddedInjective` | src/ovc_evidence_store/checkpoints.py:51-54 | different sequences never share a name, at any width |
| `Inventory.ValidateInventory` | src/ovc_evidence_store/lifecycle.py:115-153 | the loop accepts exactly the documents with strictly increasing, admissible, case-distinct paths and well-formed records |
| `Inventory.IdentifierIsPlain` | src/ovc_evidence_store/lifecycle.py:29-37 | a valid identifier is no path: non-empty, at most 128 characters, not a dot name, without separators, colons or blanks |
| `Inventory.ListingIsValid` | src/ovc_evidence_store/lifecycle.py:80-153 | the listing of a tree with admissible paths makes a valid inventory document |
| `Inventory.InventoryRecords` | src/ovc_evidence_store/lifecycle.py:80-102 | lists a tree in path order whatever the walking order, refused exactly for bad or case-colliding paths |
| `Inventory.VerifyInventory` | src/ovc_evidence_store/lifecycle.py:171-175 | accepts exactly the trees that a valid inventory describes |
| `Inventory.ListingIsUnique` | src/ovc_evidence_store/lifecycle.py:80-102 | a tree has one ordered listing |
| `Inventory.InventoryFixesTree` | src/ovc_evidence_store/lifecycle.py:171-175 | an inventory determines the tree byte for byte |
| `ReleaseFreeze.EvidenceRoot.FreezeRelease` | src/ovc_evidence_store/lifecycle.py:190-250 | the directories and the outcome are the specified ones for every failing copy, rename, receipt, removal or kill |
| `ReleaseFreeze.EvidenceRoot.CopyInventory` | src/ovc_evidence_store/lifecycle.py:178-187 | staging holds exactly the files copied before the first failure or kill |
| `ReleaseFreeze.FreezeEffect` | src/ovc_evidence_store/lifecycle.py:190-250 | only a success adds a receipt, with one matching release; everything stays as it was if and only if the attempt is refused, or raises and its removal completes |
| `ReleaseFreeze.FrozenIff` | src/ovc_evidence_store/lifecycle.py:190-250 | an attempt succeeds if and only if the request is accepted, no kill comes up to the receipt, every file is copied, the copy is what the inventory lists, and neither rename nor receipt fails; the receipt names the request |
| `ReleaseFreeze.UnchangedWorkspaceFreezes` | src/ovc_evidence_store/lifecycle.py:178-250 | copying an unchanged workspace while nothing goes wrong adds exactly that workspace as the release, and its receipt |
| `ReleaseFreeze.KilledWhileCopying` | src/ovc_evidence_store/lifecycle.py:178-224 | a process killed before action p, up to the rename, leaves exactly the first p files as copied in the staging directory, and nothing else changed |
| `ReleaseFreeze.ReceiptCounts` | src/ovc_evidence_store/lifecycle.py:178-250 | the receipt of a success counts the files and the bytes of the frozen tree, whose paths are admissible and case-distinct |
| `ReleaseFreeze.RunIsSound` | src/ovc_evidence_store/lifecycle.py:190-250 | over any run with any faults every receipt names a release equal to its inventory, and existing releases and receipts never change |
| `ReleaseFreeze.FrozenEqualsWorkspace` | src/ovc_evidence_store/lifecycle.py:171-250 | a success froze the verified workspace byte for byte, even if files changed while being copied |
| `ReleaseFreeze.StagingIsNoIdentifier` | src/ovc_evidence_store/lifecycle.py:211-224 | no staging directory name is a valid release identifier |
| `ReleaseFreeze.AcceptedIdsAreShort` | src/ovc_evidence_store/lifecycle.py:190-222 | a request is let through if and only if it meets all other demands and its release identifier has at most 123 characters |
| `ReleaseFreeze.ReceiptNameFits` | src/ovc_evidence_store/lifecycle.py:29-47 | the receipt name of a valid identifier is a valid identifier if and only if the identifier has at most 123 characters |
| `ReleaseFreeze.LongIdIsRefused` | src/ovc_evidence_store/lifecycle.py:190-222 | a valid identifier of 124 characters that every request is refused for |
| `ReleaseFreeze.AttemptOrphans` | src/ovc_evidence_store/lifecycle.py:222-250 | an accepted attempt leaves a release without a receipt if and only if every file was copied, the copy is what the inventory lists, the rename went through, and then the process was killed before the receipt, or the receipt failed and the removal left something |
| `ReleaseFreeze.OrphanBlocks` | src/ovc_evidence_store/lifecycle.py:190-250 | such a release survives every run, never gets a receipt, and every later request for its identifier is refused |
| `IdentityReplay.TransformStates` | scripts/opt_b/run_c1c_g5_c2_remediation.py:295-336 | accepts exactly files of checked, duplicate-free rows; then rewritten rows, the identity map and the unchanged count |
| `IdentityReplay.TransformTransitions` | scripts/opt_b/run_c1c_g5_c2_remediation.py:339-385 | accepts exactly checked rows with mapped endpoints; then rewritten rows and the unchanged count |
| `IdentityReplay.ReplayIdentityOnce` | scripts/opt_b/run_c1c_g5_c2_remediation.py:388-431 | succeeds exactly when the target is new, every role is admissible with its counts, the grand totals are the expected ones and no identity is unchanged; outputs are the rewritten inputs file by file |
| `IdentityLaws.StateMapIsBijection` | scripts/opt_b/run_c1c_g5_c2_remediation.py:295-336 | the old-to-new map is injective, onto the new ids, which are disjoint from the old ones |
| `IdentityLaws.TransitionsCorrespond` | scripts/opt_b/run_c1c_g5_c2_remediation.py:339-385 | two transitions get equal new ids exactly when their old ids are equal, and never an old id |
| `IdentityLaws.NoTransitionUnchanged` | scripts/opt_b/run_c1c_g5_c2_remediation.py:339-431 | the unchanged-transition count of a mapped role is zero |
| `IdentityLaws.DistinctReleasesChangeAll` | scripts/opt_b/run_c1c_g5_c2_remediation.py:241-253 | with different parent releases every state id changes |
| `IdentityLaws.AcceptedIff` | scripts/opt_b/run_c1c_g5_c2_remediation.py:295-431 | a role is accepted if and only if it has six files of each kind with the declared numbers of rows, every state is bound to its parents and every transition to two of its states under their content identities, no state occurs twice, and it has no states or the two parent releases differ |
| `IdentityLaws.ReplayIsInvertible` | scripts/opt_b/run_c1c_g5_c2_remediation.py:241-431 | replaying the result with the parent releases exchanged is admissible and gives back the original rows |
| `IdentityLaws.RoleReplayIsInvertible` | scripts/opt_b/run_c1c_g5_c2_remediation.py:388-431 | replaying the output files of a role with the parent releases exchanged is accepted and writes the original files, with no identity unchanged |
| `IdentityLaws.RoleIsIsomorphic` | scripts/opt_b/run_c1c_g5_c2_remediation.py:256-431 | one bijection onto new identities takes every state of a role to the state in the same place, equal but for identity and parent release, and every transition to one between the images of its endpoints, with axes, times and all else unchanged |
| `IdentityLaws.ReplayedRowsAreBound` | scripts/opt_b/run_c1c_g5_c2_remediation.py:256-385 | every replayed state was bound to its declared parents and role, every written row carries the identity of its own content, and every written transition ends in written states |
| `IdentityLaws.IdentityFixesState` | scripts/opt_b/run_c1c_g5_c2_remediation.py:241-253 | two checked states have one identity if and only if they agree on parent, bar, time, clock, side, scope, pack and axes |
| `IdentityLaws.IdentityFixesTransition` | scripts/opt_b/run_c1c_g5_c2_remediation.py:339-385 | two checked transitions have one identity if and only if they agree on endpoints and time, and on changed axes up to order |
| `Publication.SuccessIsVisible` | scripts/opt_b/run_c1c_g5_c2_remediation.py:639-674 | in every interleaving of any publishers and stops, a successful return means all payloads and the manifest are visible with declared size and hash |
| `Publication.SuccessHoldsTheBytes` | scripts/opt_b/run_c1c_g5_c2_remediation.py:639-674 | under a collision-free hash a successful return means that every payload and the manifest are visible byte for byte |
| `Publication.VisibleManifestIsComplete` | scripts/opt_b/run_c1c_g5_c2_remediation.py:639-674 | in every reachable state a visible manifest implies that every payload it lists is visible and matches |
| `Publication.NewManifestIsComplete` | scripts/opt_b/run_c1c_g5_c2_remediation.py:639-674 | in every reachable state a manifest that was not there before is some candidate's, with all payloads of that candidate visible byte for byte, whatever the hash |
| `Publication.PartialPrefixIsRefused` | scripts/opt_b/run_c1c_g5_c2_remediation.py:639-674 | over a prefix without a manifest no rerun writes or succeeds |
| `Publication.StoppingLeavesPartial` | scripts/opt_b/run_c1c_g5_c2_remediation.py:639-674 | a lone publication stopped after n actions leaves objects without a manifest if and only if it was stopped after the first payload and before the manifest |
| `Publication.RunExtends` | scripts/opt_b/run_c1c_g5_c2_remediation.py:639-674 | no remote object is ever changed or removed |
| `Publication.SoloSucceeds` | scripts/opt_b/run_c1c_g5_c2_remediation.py:639-674 | a consistent candidate on an empty prefix, left alone, ends in success |
| `Publication.ReverifySucceeds` | scripts/opt_b/run_c1c_g5_c2_remediation.py:639-674 | a rerun over a complete prefix verifies it and writes nothing |
| `Publication.RerunIff` | scripts/opt_b/run_c1c_g5_c2_remediation.py:639-674 | a lone run succeeds if and only if the prefix is empty, or holds exactly the expected objects and all of them match |
| `Publication.RerunIffWhole` | scripts/opt_b/run_c1c_g5_c2_remediation.py:639-674 | under a collision-free hash a lone run succeeds if and only if the prefix is empty or is exactly the candidate, byte for byte |
| `Publication.StoppedThenRerun` | scripts/opt_b/run_c1c_g5_c2_remediation.py:639-674 | a publication stopped after n actions is completed by a rerun if and only if it was stopped before its first payload or after its manifest |
| `EpisodeAudit.RestoreClosedPartition` | scripts/c2e_v2/run_c2e_ag1_restart_equivalence.py:119-162 | the restore loop computes the fold, then refuses non-ASK partitions, an engine with active sides, and uncensored episodes, in this order |
| `EpisodeRestore.FoldProjects` | scripts/c2e_v2/run_c2e_ag1_restart_equivalence.py:119-162 | the fold succeeds exactly on orderly streams and equals the per-episode projection since the last genesis, with the status read off the last status-changing boundary |
| `EpisodeRestore.StatusMeans` | scripts/c2e_v2/run_c2e_ag1_restart_equivalence.py:132-148 | an episode is CENSORED, TERMINATED or CONFLICTED if and only if the last of its boundaries with one of the four status-changing actions says so, and OPEN if and only if there is none |
| `EpisodeRestore.ProjectionOnRows` | scripts/c2e_v2/run_c2e_ag1_restart_equivalence.py:119-162 | frames, segments and boundaries of the projection are the rows of that kind that name the episode after its last genesis, in stream order |
| `EpisodeRestore.FoldComposes` | scripts/c2e_v2/run_c2e_ag1_restart_equivalence.py:119-162 | restoring a stream in two goes is restoring it in one |
| `EpisodeRestore.ReorderingIsHarmless` | scripts/c2e_v2/run_c2e_ag1_restart_equivalence.py:119-162 | any reordering that keeps each episode's own subsequence restores the same engine |
| `EpisodeAudit.RestoredIffClosed` | scripts/c2e_v2/run_c2e_ag1_restart_equivalence.py:88-162 | acceptance if and only if the engine starts without active sides, the stream is orderly and non-empty, and every episode was last born ASK and ends censored |
| `EpisodeRows.RestoredOnRows` | scripts/c2e_v2/run_c2e_ag1_restart_equivalence.py:119-162 | on the rows alone: acceptance if and only if the engine has no active side, no row is a snapshot, every episode a row adds to has a genesis before it, and there are episodes, each last born ASK and censored by the last boundary that changed its status |
| `EpisodeRows.StatusOnRows` | scripts/c2e_v2/run_c2e_ag1_restart_equivalence.py:132-148 | the status given to an episode is that of the last status-changing boundary that names it after its last genesis |
| `EpisodeAudit.RestoredEpisode` | scripts/c2e_v2/run_c2e_ag1_restart_equivalence.py:119-162 | an accepted partition holds exactly the episodes with a genesis, each CENSORED with its frames, segments and boundaries read off the rows |
| `EpisodeAudit.PartitionBoundary` | scripts/c2e_v2/run_c2e_ag1_restart_equivalence.py:96-116 | finds the cut if there is one and fails exactly when there is none |
| `EpisodeAudit.CutIsUnique` | scripts/c2e_v2/run_c2e_ag1_restart_equivalence.py:96-116 | a stream has at most one cut |
| `EpisodeAudit.ValidateRestored` | scripts/c2e_v2/run_c2e_ag1_restart_equivalence.py:165-202 | accepts exactly when the engine starts without active sides and the declarative projection of the prefix agrees with the persisted snapshots |
| `HarnessIdentity.TrackedHarnessFiles` | tools/ci/aa0_harness_identity.py:54-71 | succeeds exactly for a git root with safe, matching pathspecs on regular files, and returns the increasing list of all matches |
| `HarnessIdentity.FilesIgnoreSpecOrder` | tools/ci/aa0_harness_identity.py:54-71 | pathspecs matching the same files give the same list, whatever their order, repetition or overlap |
| `HarnessIdentity.ComputeHarnessIdentity` | tools/ci/aa0_harness_identity.py:74-95 | the loop hashes exactly the header followed by the encoded entries of the listed files, and fails exactly when a path overflows its length field |
| `HarnessIdentity.StreamRoundTrip` | tools/ci/aa0_harness_identity.py:84-94 | the length-prefixed stream decodes to the entries it was made of |
| `HarnessIdentity.BigEndianIs` | tools/ci/aa0_harness_identity.py:84-94 | the four length bytes have the value of the length, most significant first |
| `HarnessIdentity.SameIdentitySameHarness` | tools/ci/aa0_harness_identity.py:74-95 | equal identities mean equal path lists and equal contents, unless the hash collides on the values compared |
| `CensusBundle.BuildBundle` | scripts/governance/materialize_pgn_wp2e_bundle.py:64-155 | writes the complete bundle of the census over any earlier files and touches no other name |
| `CensusBundle.ChunkNamesDiffer` | scripts/governance/materialize_pgn_wp2e_bundle.py:79-82 | ledger names never collide, beyond the two padded digits too |
| `CensusBundle.BuildSnapshot` | scripts/governance/build_pgn_wp2e_frozen_snapshot.py:42-127 | accepts exactly the bundles passing every check and returns the manifest, its git blob hash, the objects in manifest order and the ledgers |
| `CensusBundle.BuiltIsAccepted` | scripts/governance/build_pgn_wp2e_frozen_snapshot.py:66-127 | what the writer wrote is accepted if and only if the census counted its own objects correctly |
| `CensusBundle.RoundTrip` | scripts/governance/build_pgn_wp2e_frozen_snapshot.py:66-127 | the reader gives back the same objects in the same order, and the same ledgers |
| `CensusBundle.SnapshotIsTheCensus` | scripts/governance/build_pgn_wp2e_frozen_snapshot.py:66-127 | the snapshot of a written bundle has the objects of the census field by field and in order, and its ledgers, head, packet, gate and count |
| `CensusBundle.LedgerHolds` | scripts/governance/materialize_pgn_wp2e_bundle.py:50-82 | ledger k holds objects 18k up to 18k+17 or the last one, field by field, with its index, start and count |
| `CensusBundle.AcceptedMeans` | scripts/governance/build_pgn_wp2e_frozen_snapshot.py:54-127 | acceptance means that the bundle hash, the child identity, and size and hash of every ledger file are right, and that all counts agree with what the ledgers hold |
| `CensusBundle.AcceptedIff` | scripts/governance/build_pgn_wp2e_frozen_snapshot.py:54-127 | a bundle is accepted if and only if its manifest carries its own hash and that of its references, every file it refers to has size, hash, start and count as named, and the ledgers hold the number of objects it gives |
| `CensusBundle.GitBlobBinds` | scripts/governance/build_pgn_wp2e_frozen_snapshot.py:42-44 | files with the same git blob hash have the same bytes, under a collision-free SHA-1 |
| `CensusBundle.SealFixesSnapshot` | scripts/governance/build_pgn_wp2e_frozen_snapshot.py:54-127 | two accepted file systems with the same bundle hash give the same snapshot, but for the blob hash of the manifest file |
| `CensusBundle.AcceptedIsTheCensus` | scripts/governance/build_pgn_wp2e_frozen_snapshot.py:54-127 | whatever is accepted under the hash of a written bundle is the census that was written |
| `BarReplay.Replay` | scripts/opt_b/run_c1_wp4_replay.py:153-193 | each output file receives exactly the records of its admissible rows in order, given all rows before it, and the input, output, rejection and null-reason counters are exact |
| `BarReplay.NullReasonsExact` | scripts/opt_b/run_c1_wp4_replay.py:62-140 | null_reasons has exactly the null fields as keys |
| `BarReplay.RecordNamesItsBar` | scripts/opt_b/run_c1_wp4_replay.py:62-140 | a record exists if and only if open and close lie between low and high; it names the releases, clock, side, time and path of its bar, has its direction, and measures it in every field that needs no prior bar |
| `BarReplay.PriorFieldsIff` | scripts/opt_b/run_c1_wp4_replay.py:92-116 | for increasing streams the prior-dependent fields are all present if and only if an accepted bar lies exactly one clock earlier and none in between, and all null otherwise |
| `BarReplay.GapsAreNeverBridged` | scripts/opt_b/run_c1_wp4_replay.py:92-193 | on the clock grid: present if and only if an accepted bar of the key lies exactly one clock earlier, for every interleaving of keys |
| `BarReplay.OffGridHides` | scripts/opt_b/run_c1_wp4_replay.py:92-116 | off the grid the shorter condition fails |
| `BarReplay.PriorFieldsMean` | scripts/opt_b/run_c1_wp4_replay.py:105-113 | the present fields are measured against that bar, the true range being the span of bar and prior close |
| `BarReplay.RecordIdsDiffer` | scripts/opt_b/run_c1_wp4_replay.py:118-140 | in an increasing stream no two records share an identifier, under a collision-free hash |
| `BarReplay.PartsAddUp` | scripts/opt_b/run_c1_wp4_replay.py:69-133 | body and wicks of an admissible bar add up to its range; the upper wick on top of the higher of open and close gives the high, the lower one below the other gives the low; ticks of 0.00001 scale back to the range and the direction is the sign of the body |
| `BarReplay.SharesAddUp` | scripts/opt_b/run_c1_wp4_replay.py:69-91 | body and wick shares add to one, balance and efficiency are the differences they should be, locations lie in [0, 1] |
| `BarReplay.SharesScaleBack` | scripts/opt_b/run_c1_wp4_replay.py:69-91 | a wick share times the range is that wick, and a location times the range leads from the low to open and close |
| `BarReplay.InputsAccountedFor` | scripts/opt_b/run_c1_wp4_replay.py:170-183 | inputs equal outputs plus rejections, and the per-key counters add up |
| `BarReplay.PriorLackedOncePerKey` | scripts/opt_b/run_c1_wp4_replay.py:92-193 | over a run NO_PRIOR_BAR is counted four times per key with an accepted bar |
| `BarReplay.NoIdentityMismatch` | scripts/opt_b/run_c1_wp4_replay.py:92-193 | over a run PRIOR_IDENTITY_MISMATCH never occurs |
| `BarReplay.ZeroRangeTotal` | scripts/opt_b/run_c1_wp4_replay.py:88-91 | over a run ZERO_RANGE is counted seven times per accepted zero-range bar |

## Left out

- `Decimal` context precision and rounding, and the square root of `pearson_pairs`, which is a parameter with `sqrt(x) * sqrt(x) == x`.
- Real file systems, symbolic links, permissions, git, rclone, subprocesses, clocks and memory measurement.
- The internals of SHA-256, gzip, JSON and UTF-8, and the JSON layout of each record beyond the fields used.
- `validate_relative_path` and `casefold`, which are parameters of the inventory model.
- Residual.ShuffleKeepsDenominator: assumes distinct record identifiers; Residual.ControlIsFair derives that for every list the program can build.
- ArtifactCapacity.RunExact: one direction only, because reopening a store forgets an overcount made before it.
- ReleaseFreeze.RunIsSound: assumes that `mkdtemp` picks a name not in use, as it promises.
- Publication.VisibleManifestIsComplete: assumes candidates as `build_candidate` leaves them, with listed sizes and hashes true of the local files.
- BarReplay.Replay: takes the files as one list in the order of the clock and side loops; the compressed bytes and hashes of the output files and the quarantine count are not modelled.
- CensusBundle.BuildBundle: reading the census itself from the repository is not modelled, and neither is the dictionary of documents returned beside the manifest.
- EpisodeAudit.RestoreClosedPartition: the class of the engine, and the engine that continues from the restored one in `process_side`, are not part of this model; its initial active sides are a parameter.
- The other stage-A statistics (noise control, field statistics, gates against fixed constants).
- Supersession and approval documents of releases, and the verification of parent releases before a replay: short comparisons with given values.
- The second copy of the publication protocol in `run_c1c_g3_publication.py`, which has the same steps.
- `validate_*` and `review_*` scripts, command-line wrappers, and all user-interface code under `apps/`.

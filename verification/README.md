# Cortex verification models

Dafny models of the parts of Cortex whose correctness is not local to one function, with proofs of
what those parts promise. The models follow the code branch by branch; where the code and its
documentation differ, the model follows the code. Check everything with
`dafny verify dfyconfig.toml`.

- **Verifier lease** (`VerifierLease`, `VerifierLeaseSolo`, `LeaseRules`, `LeaseManager`). Processes share a lease
  file, a takeover marker and a kernel guard. The protocol is a transition system over the atomic
  actions of any number of processes, with crashes, exceptions, pid reuse and clock steps at any
  point. `LeaseManager` is the object of the script, each of whose writes is one event of that system.
- **Duplicate audit** (`MatchingBlocks`, `RuleB`, `Graphs`, `UnionFind`, `DuplicateRules`,
  `TrigramRule`, `OffsetRule`, `DuplicateGroups`, `DuplicatePolicy`, `ComponentClassifier`). Rows are united by three
  rules through an inverted index, offset clusters and a numeric prefilter; the result is compared
  with the rules stated over all pairs.
- **Dedup manifest** (`DedupManifest`, `ManifestAudit`, `ManifestRebuild`). Immutable exclusion rows over
  any number of supersessions, the way from candidate groups through the audio verdicts to a manifest,
  and what a manifest leaves for the next one.
- **Activations** (`ReviewEvents`, `ReviewCampaign`, `ReviewerNames`, `SequentialActivation`,
  `NamedVoiceActivation`, `PilotHiddenKeys`, `PilotActivation`, `PilotConditions`). Each script is a sequence of atomic
  mutations that may stop after any of them and be rerun with any arguments. Review events arrive
  only while no marker denies the runtime.
- **Payment ledger** (`ReviewLedger`, `Settlements`). The flexible-pool ledger loop and the settlement
  loop as folds over rows, with balances compared with the unreversed entries.
- **Smaller algorithms** (`EditDistance`, `BinaryMarker`, `Halwest`, `Kappa`); `Sequences`, `Numbers`
  and `Wrappers` hold what several models share.

Some promises turn out not to hold as stated. Each has an input and the exact condition.

- A heartbeat between the two audits of a takeover does not always make it refuse
  (`LateTakeoverKills`): it does if and only if it is at most 30 s old when the final audit computes
  its age (`FinalAuditVerdict`).
- Recovery from a crash is not always possible: a process that stops between creating the lease file
  and writing its document (`StopTearsLease`) leaves a lease that nobody ever holds again
  (`TornForever`); from readable files one process alone always recovers (`RecoveryAlwaysWins`).
- The ledger audit accepts an undo of an entry that is not the newest of its work id, after which the
  balance is not the remaining credit's worth (`OlderUndoAccepted`); balances are exact if and only if
  every undo is harmless (`BalancedIffHarmless`).
- Accepting a bundle's build SHA does not mean that the whole-file search yields that SHA: the scan
  folds case and the search does not (`UpperCaseAccepted`). It does if and only if the marker has no
  upper-case digit (`AcceptedMeans`), which is also when the freshness check agrees
  (`FreshIffLowerCase`).
- A file that carries the expected build SHA can be refused (`CutShaRefused`), exactly when the read
  that completes the first seven digits ends inside the SHA (`AcceptedIffShown`); for reads of one
  mebibyte the position of the marker decides (`AcceptedByPosition`).
- A stopped pilot activation is not always accepted again with its own arguments
  (`FirstArgumentsRefused`); `OwnArgumentsIff` says exactly when. With arguments that expect the files
  as they are it completes, except a roster replacement torn between its two files
  (`RecoveryCompletes`, `TornReplacementRefused`), which only an ordinary run may take up, exactly when
  the old session already pairs the new reviewers and the focus file was complete (`TornAcceptedIff`).
- A named-voice activation finished under another speaker name can raise a revision twice
  (`TwoNamesRaiseTwice`): it does if and only if it was stopped after its commit, the second name is
  valid and different, and the segment did not already bear the first (`OtherSpeakerRaisesAgain`). Over
  any runs under one name revisions rise at most once (`RevisionRisesOnce`).
- A manifest cannot always be superseded again (`MergedThenRefused`): over the same components the next
  one is refused if and only if a canonical retired by a merge has overtaken the canonical of its family
  (`RebuildIff`), which never happens with unchanged evidence (`RebuildUnchanged`).

Assumptions. A (pid, creation time) identity is issued once, a dead process's guard is released, and
the identity check before a kill is one action with the kill. A file replacement and a database commit
are atomic, and one data directory has one activation at a time (the process lock). The runtime records
review events only while no marker stands, and serves hidden checks only for granted keys. SHA-256 and
UUIDv5 are injective. Numbers are exact.

## Model

| member | source | states |
|---|---|---|
| `VerifierLease.MutualExclusion` | scripts/verify10_supervisor.py:634-697 | in every reachable state, at most one live process has returned from acquire without releasing, and the lease file names exactly that process with its token |
| `VerifierLease.InvKept` | scripts/verify10_supervisor.py:536-721 | one invariant is kept by every event: any action of any process at any interleaving, an exception at any point, before or after the bytes of a write are in place, a crash, a new process, a clock step |
| `VerifierLease.ExecInv` | scripts/verify10_supervisor.py:497-721 | the invariant holds along every legal run of any length |
| `VerifierLease.HolderNeverLoses` | scripts/verify10_supervisor.py:536-547 | the "lease was lost" error of a write is unreachable: a live holder's heartbeat always finds its own triple |
| `VerifierLease.KillJustified` | scripts/verify10_supervisor.py:665-692 | a process disappears only by its own crash or by a kill whose killer owns guard and marker, while the lease names the victim with a heartbeat more than 30 s old |
| `VerifierLease.LiveMarkerProtected` | scripts/verify10_supervisor.py:608-632 | while the marker's owner lives, only that owner's own action changes or removes the marker |
| `VerifierLease.OneContender` | scripts/verify10_supervisor.py:623-632 | at most one live process is inside a takeover, and the marker names it |
| `VerifierLease.HeartbeatProtects` | scripts/verify10_supervisor.py:699-701 | after a heartbeat write, the holder can be killed by others only once more than 30 s have passed, whatever happened in between |
| `VerifierLeaseSolo.FinalAuditVerdict` | scripts/verify10_supervisor.py:665-692 | exact outcome of the guarded recheck of a live holder: the takeover refuses if and only if the heartbeat in the file is at most 30 s old when its age is computed, and otherwise kills |
| `VerifierLeaseSolo.LateTakeoverKills` | scripts/verify10_supervisor.py:648-692 | a concrete run in which a heartbeat lands between the two audits and the holder is still killed, because the final audit came more than 30 s later |
| `VerifierLeaseSolo.RecoveryAlwaysWins` | scripts/verify10_supervisor.py:608-697 | from any crash state with no recorded pid in use, one process acting alone obtains the lease in exactly 5 or 18 actions, returns the abandoned token if there was one, and leaves no marker |
| `VerifierLeaseSolo.StopTearsLease` | scripts/verify10_supervisor.py:549-558 | a process stopped between the exclusive creation of the lease and its document leaves an unreadable lease that nobody is about to write |
| `VerifierLeaseSolo.TornForever` | scripts/verify10_supervisor.py:549-692 | from such a state no event of any process ever changes the lease, and no process ever holds it again |
| `LeaseRules.ReusedPidRefused` | scripts/verify10_supervisor.py:658-659 | a lease whose holder is gone while another live process has its pid is refused |
| `LeaseRules.RefusableIff` | scripts/verify10_supervisor.py:648-663 | the audit's test on the observed identity and the computed age is exactly: the holder lives and its heartbeat is at most 30 s old by the clock the lease carries, or its pid belongs to another live process |
| `LeaseRules.FirstAuditDecides` | scripts/verify10_supervisor.py:647-663 | each step of the unguarded audit: it goes on exactly with a readable lease whose holder is gone with its pid free, or stale; it changes no file |
| `LeaseRules.FinalAuditDecides` | scripts/verify10_supervisor.py:665-687 | each step of the guarded audit: own marker, the audited holder still in the lease, then kill exactly a stale live holder, replace exactly a gone one, and end the takeover with the lease unchanged for a reused pid |
| `LeaseRules.WritesNow` | scripts/verify10_supervisor.py:515-532 | what is written names this process and its token with both clocks as they are |
| `LeaseRules.HoldingBegins` | scripts/verify10_supervisor.py:634-697 | holding begins only with the written document of a free lease or at the end of a won takeover |
| `LeaseRules.HoldingEnds` | scripts/verify10_supervisor.py:536-721 | while its process lives, holding ends only with a release that the process began, or where a heartbeat finds the lease lost |
| `LeaseRules.RaiseGoes` | scripts/verify10_supervisor.py:536-721 | an exception at any point changes no file and no other process, gives the guard back, and leads out of acquire, into its finally block, back to holding or to released, by where it happens |
| `LeaseManagers.LeaseManager.Acquire` | scripts/verify10_supervisor.py:634-697 | undisturbed acquire: exactly when it succeeds, which token it returns, which process it ended, and the lease and marker it leaves in either case |
| `LeaseManagers.LeaseManager.Act` | scripts/verify10_supervisor.py:536-721 | an action of the manager other than the kill is one Run event of the transition system, and changes exactly the program point, the guard and the two files |
| `LeaseManagers.LeaseManager.EndProcess` | scripts/verify10_supervisor.py:462-494 | the kill is one Run event: the named process is gone, and nothing else changes but the program point |
| `LeaseManagers.LeaseManager.Heartbeat` | scripts/verify10_supervisor.py:536-547 | renews the document if and only if the lease still names this process and token |
| `LeaseManagers.LeaseManager.Release` | scripts/verify10_supervisor.py:708-721 | removes the lease only if it names this process and token; ends released either way |
| `LeaseManagers.LeaseManager.TakeOver` | scripts/verify10_supervisor.py:663-692 | recheck, kill, unlink and reinstall: the old holder is gone, the lease is this process's, the marker is removed |
| `LeaseManagers.LeaseManager.ClaimAndAudit` | scripts/verify10_supervisor.py:623-663 | claims the marker and returns the lease record only when the audit does not refuse it |
| `MatchingBlocks.LengthNecessary` | cortex-speech-app/scripts/check_dataset_duplicates.py:244-251 | a pair with 20M >= 9T passes the length filter |
| `MatchingBlocks.CommonCharacters` | cortex-speech-app/scripts/check_dataset_duplicates.py:244-256 | matched characters are at most the multiset intersection of the two texts |
| `MatchingBlocks.BlockCount` | cortex-speech-app/scripts/check_dataset_duplicates.py:342-346 | ordered merged blocks with M matched of T characters number at most T - 2M + 1 |
| `MatchingBlocks.FourGramNecessary` | cortex-speech-app/scripts/check_dataset_duplicates.py:340-360 | a similar pair shares at least 7*ceil(9T/20) - 3T - 3 four-gram occurrences, for any keying of four-grams |
| `RuleB.HistogramNecessary` | cortex-speech-app/scripts/check_dataset_duplicates.py:329-334 | a similar pair has full-histogram L1 distance at most T/10 |
| `RuleB.CoarseBelowFull` | cortex-speech-app/scripts/check_dataset_duplicates.py:280-287 | binning by rank never raises the L1 distance |
| `RuleB.CoarseNecessary` | cortex-speech-app/scripts/check_dataset_duplicates.py:313-324 | a similar pair passes the coarse-bin filter |
| `RuleB.GramKeyInjective` | cortex-speech-app/scripts/check_dataset_duplicates.py:296-314 | packed four-grams of at most 256 character codes, and tuples of codes beyond, identify the four characters |
| `RuleB.DisjunctionIsSum` | cortex-speech-app/scripts/check_dataset_duplicates.py:304-309 | the bitwise or of a multiple of 2^k and a number below 2^k is their sum |
| `RuleB.PackIsSum` | cortex-speech-app/scripts/check_dataset_duplicates.py:304-309 | packing four codes below 256 by shifts and disjunctions reads them as the four digits of one number |
| `RuleB.ExactMeetsConditions` | cortex-speech-app/scripts/check_dataset_duplicates.py:244-256 | no false negative: every pair the exact matcher accepts passes all four filters |
| `RuleB.Overlap` | cortex-speech-app/scripts/check_dataset_duplicates.py:354-356 | the counted overlap is the size of the multiset intersection |
| `RuleB.LengthTest` | cortex-speech-app/scripts/check_dataset_duplicates.py:313-320 | the length filter evaluated in int32 decides 20 times the shorter length against 9 times the total |
| `RuleB.Passes` | cortex-speech-app/scripts/check_dataset_duplicates.py:313-360 | the evaluated filters decide exactly the stated conditions; histogram entries, their signed differences and absolute values are int16, lengths, totals, sums and the products compared are int32, and none overflows below 32768 characters |
| `RuleB.VectorizedRuleB` | cortex-speech-app/scripts/check_dataset_duplicates.py:239-363 | refuses exactly when a text has 32768 characters or more; otherwise calls the matcher on each pair at most once and on every pair the matcher accepts |
| `UnionFinds.HalvingKeeps` | cortex-speech-app/scripts/check_dataset_duplicates.py:135-139 | path halving keeps roots and strictly descends, so find terminates and preserves the partition |
| `UnionFinds.MergedRepresents` | cortex-speech-app/scripts/check_dataset_duplicates.py:141-144 | hanging one root under the other merges exactly the two classes |
| `UnionFinds.UnionFind.Find` | cortex-speech-app/scripts/check_dataset_duplicates.py:135-139 | returns the root of the class and keeps every class |
| `UnionFinds.UnionFind.Union` | cortex-speech-app/scripts/check_dataset_duplicates.py:141-144 | adds exactly the pair to the united relation |
| `DuplicateRules.UniteA` | cortex-speech-app/scripts/check_dataset_duplicates.py:146-154 | the by-text loop unites exactly the closure of rule A over all pairs |
| `TrigramRule.CountShared` | cortex-speech-app/scripts/check_dataset_duplicates.py:178-188 | the counts through the inverted index are the numbers of shared rare trigrams of each higher row |
| `TrigramRule.UniteNear` | cortex-speech-app/scripts/check_dataset_duplicates.py:160-203 | the indexed loop unites exactly the pairs of rule A' stated over all pairs of rows |
| `OffsetRule.WithOffset` | cortex-speech-app/scripts/check_dataset_duplicates.py:201-203 | the sorted list holds exactly the entries with a known offset |
| `OffsetRule.ClustersAreIndependent` | cortex-speech-app/scripts/check_dataset_duplicates.py:226-231 | cutting the sorted offsets at gaps over 500 ms loses no accepted pair |
| `OffsetRule.BreakLosesNothing` | cortex-speech-app/scripts/check_dataset_duplicates.py:219-223 | the early break of the inner loop loses no accepted pair |
| `OffsetRule.FlushLarge` | cortex-speech-app/scripts/check_dataset_duplicates.py:215-218 | a large cluster through the prefilter unites exactly what the all-pairs loop would |
| `OffsetRule.UniteB` | cortex-speech-app/scripts/check_dataset_duplicates.py:204-231 | clusters, small or large, unite exactly the accepted pairs of the whole sorted list, and the loop stops exactly at a cluster the prefilter refuses |
| `DuplicateGroups.UnitedClosure` | cortex-speech-app/scripts/check_dataset_duplicates.py:146-231 | the unions of the three rules have the closure of the rules over all pairs; skipping equal texts in rule B changes nothing |
| `DuplicateGroups.ClassSpansFiles` | cortex-speech-app/scripts/check_dataset_duplicates.py:233-236 | every class of more than one row spans several files, so the final two-file filter removes nothing |
| `DuplicateGroups.FindDuplicateGroups` | cortex-speech-app/scripts/check_dataset_duplicates.py:101-236 | the groups are exactly the classes of more than one row of the closure of rules A, A' and B, each once and disjoint; it refuses exactly when an offset cluster of at least 1024 entries holds a text of 32768 characters or more |
| `DuplicatePolicy.MatchedIsPositions` | cortex-speech-app/scripts/check_dataset_duplicates.py:244-256 | matched characters are the positions that the blocks cover, each counted once |
| `DuplicatePolicy.SimilarIsRatio` | cortex-speech-app/scripts/check_dataset_duplicates.py:211-213 | the whole-number test is a ratio of at least 0.90, the ratio being twice the matched positions over the total length and 1 for two empty texts |
| `DuplicatePolicy.QuickRatioBounds` | cortex-speech-app/scripts/check_dataset_duplicates.py:193-196 | the quick ratio is never below the ratio, so asking for it first loses no pair |
| `DuplicatePolicy.RuleNearIff` | cortex-speech-app/scripts/check_dataset_duplicates.py:178-197 | rule A' on the rows' fields: different files, a quarter of the smaller trigram set shared by trigrams that at most 200 rows hold, durations unknown or at most 1500 ms apart, near texts |
| `DuplicatePolicy.RuleOffsetIff` | cortex-speech-app/scripts/check_dataset_duplicates.py:204-213 | rule B on the rows' fields: both offsets known and at most 500 ms apart, different files, ratio at least 0.90 |
| `DuplicatePolicy.RelatedIff` | cortex-speech-app/scripts/check_dataset_duplicates.py:101-213 | the whole candidate relation on the rows' fields, with the texts of rule A' near exactly from a ratio of 0.70 |
| `DuplicatePolicy.RefusalIff` | cortex-speech-app/scripts/check_dataset_duplicates.py:215-231 | the refusal in numbers: a longest stretch of at least 1024 offsets with steps of at most 500 ms that holds a text of at least 32768 characters |
| `DuplicatePolicy.ConditionsIff` | cortex-speech-app/scripts/check_dataset_duplicates.py:313-360 | the prefilter's conditions in numbers |
| `ComponentClassifier.Classify` | cortex-speech-app/scripts/check_dataset_duplicates.py:513-619 | confirmed components are exactly the disjoint components of the true edges; every unknown edge lies in exactly one unconfirmed component of true and unknown edges; each confirmed component carries its proof edges; the group is a repeat exactly when something was compared and every comparison said different; the probable pairs are listed |
| `ComponentClassifier.ConfirmedNotSplit` | cortex-speech-app/scripts/check_dataset_duplicates.py:570-619 | no unconfirmed component holds only part of a confirmed one |
| `ComponentClassifier.ProofConnects` | cortex-speech-app/scripts/check_dataset_duplicates.py:553-569 | the true edges inside a component connect any two of its members |
| `ComponentClassifier.AllConnected` | cortex-speech-app/scripts/build_review_pool_dedup_manifest.py:139-153 | `_connected` answers true if and only if the edges connect all ids |
| `ManifestAudit.AuditGivesCandidates` | cortex-speech-app/scripts/check_dataset_duplicates.py:233-236 | the groups the duplicate audit returns are candidate groups: no segment is in two of them or twice in one |
| `ManifestAudit.Confirm` | cortex-speech-app/scripts/check_dataset_duplicates.py:503-645 | over all groups: the families are exactly the components of the true edges, pairwise disjoint, each with a proof that connects it, and risks are reported exactly when some pair is unresolved |
| `ManifestAudit.ProofByMembers` | cortex-speech-app/scripts/build_review_pool_dedup_manifest.py:235-237 | looking a component up by its set of members finds that component's own proof, for every component |
| `ManifestAudit.AllWaveformConnected` | cortex-speech-app/scripts/build_review_pool_dedup_manifest.py:235-256 | no lookup fails and no component is refused as not waveform-connected |
| `ManifestAudit.BuildFromAudit` | cortex-speech-app/scripts/build_review_pool_dedup_manifest.py:224-315 | from candidate groups to manifest: refused exactly for an unresolved pair or for an applied row that would be cut off, dropped or moved; otherwise the families are the confirmed components and the manifest supersedes the applied rows |
| `ManifestAudit.FamilyCarries` | cortex-speech-app/scripts/build_review_pool_dedup_manifest.py:244-252 | a component under two voice names never becomes a family: every family carries, record by record, a component of a single voice |
| `ManifestAudit.CarriedByFamily` | cortex-speech-app/scripts/build_review_pool_dedup_manifest.py:244-252 | every component of a single voice becomes a family |
| `DedupManifest.CanonicalIsLeast` | cortex-speech-app/scripts/build_review_pool_dedup_manifest.py:88-108 | the canonical member is least in one lexicographic preference: applied canonicals first, then evidence, then the quality key |
| `DedupManifest.CanonicalIsBest` | cortex-speech-app/scripts/build_review_pool_dedup_manifest.py:69-108 | on the members' fields: an applied canonical before others, then more evidence, then higher SNR, less clipping, less anomaly, higher confidence, measured before unmeasured, then file and id; and the reason reported for each rule |
| `DedupManifest.QualityOrder` | cortex-speech-app/scripts/build_review_pool_dedup_manifest.py:69-85 | the tuple order of the quality keys is the order of the fields |
| `DedupManifest.CanonicalOrderFree` | cortex-speech-app/scripts/build_review_pool_dedup_manifest.py:69-108 | the canonical member does not depend on the order of the members |
| `DedupManifest.BuildManifest` | cortex-speech-app/scripts/build_review_pool_dedup_manifest.py:257-315 | for given components, succeeds exactly when no applied row points out of its family and every applied row is still retired; what it builds supersedes the applied rows |
| `DedupManifest.BuiltCanonicalIsBest` | cortex-speech-app/scripts/build_review_pool_dedup_manifest.py:270-301 | in every built family the canonical is best among its members by those fields, where an applied canonical is a segment that some applied row points at |
| `DedupManifest.CanonicalFree` | cortex-speech-app/scripts/build_review_pool_dedup_manifest.py:244-315 | the canonical of a built family is not excluded by any row, old or new |
| `DedupManifest.AppendRanked` | cortex-speech-app/scripts/build_review_pool_dedup_manifest.py:244-315 | appending the new rows keeps the pointers acyclic |
| `DedupManifest.ChainsEndAtCanonical` | cortex-speech-app/scripts/build_review_pool_dedup_manifest.py:244-315 | within a family, following pointers from any member ends at that family's one unexcluded canonical |
| `DedupManifest.RunStaysForest` | cortex-speech-app/scripts/build_review_pool_dedup_manifest.py:244-315 | over any sequence of supersessions the exclusion rows stay an acyclic forest and no applied row is dropped or changed |
| `DedupManifest.RunEndsInFamilies` | cortex-speech-app/scripts/build_review_pool_dedup_manifest.py:244-315 | after any sequence of supersessions the rows are acyclic, every excluded id points into its family and its chain ends at that family's canonical |
| `ManifestRebuild.BuildableIff` | cortex-speech-app/scripts/build_review_pool_dedup_manifest.py:244-315 | a manifest is built if and only if every applied row lies with its canonical in a component of one voice and no component chooses a canonical that is itself excluded |
| `ManifestRebuild.RebuildIff` | cortex-speech-app/scripts/build_review_pool_dedup_manifest.py:88-108 | the next manifest over the same components, whatever evidence and measurements have become, is built if and only if no canonical retired by a merge is now preferred to the canonical of its family |
| `ManifestRebuild.RebuildUnchanged` | cortex-speech-app/scripts/build_review_pool_dedup_manifest.py:244-315 | with unchanged evidence a rebuild is never refused, gives the same manifest and adds no row |
| `ManifestRebuild.MergedThenRefused` | cortex-speech-app/scripts/build_review_pool_dedup_manifest.py:97-103 | two concrete applied families that merge; once the retired canonical has more evidence every further manifest is refused |
| `SequentialActivation.NarrowIdempotent` | cortex-speech-app/scripts/activate_sequential_review.py:115-130 | narrowing a narrowed session changes nothing |
| `SequentialActivation.NarrowKeepsRubar` | cortex-speech-app/scripts/activate_sequential_review.py:115-130 | narrowing succeeds exactly for a session of this database with one token of Rubar's; it keeps that token under its name and no other, empties the four pilot fields and keeps the rest |
| `SequentialActivation.HistoryWithoutGap` | cortex-speech-app/scripts/activate_sequential_review.py:133-151 | the history is accepted exactly when every event after the baseline is one of Rubar's four paid actions from a review source and every id up to the maximum occurs |
| `SequentialActivation.ProceedIff` | cortex-speech-app/scripts/activate_sequential_review.py:191-262 | a run goes ahead exactly when the named conditions hold of digest, health, last event, session, baseline, focus, history, stored campaign and marker and the directory is not finished; it then stores that one campaign |
| `SequentialActivation.NewPairsRubar` | cortex-speech-app/scripts/activate_sequential_review.py:115-130 | in the new state the one paired reviewer is Rubar under the old token, and nothing of the pilot is left |
| `SequentialActivation.MarkerDenies` | cortex-speech-app/scripts/activate_sequential_review.py:191-322 | reviews between runs are all recorded without a marker and none with one |
| `SequentialActivation.ExecKeeps` | cortex-speech-app/scripts/activate_sequential_review.py:191-322 | over any runs with any arguments, stopped anywhere and interleaved with review events, the state is old, new, or one of four marked stages of one campaign |
| `SequentialActivation.WholeWithoutMarker` | cortex-speech-app/scripts/activate_sequential_review.py:191-322 | without the marker the state is wholly old or wholly new; a marker always names a complete backup |
| `SequentialActivation.RerunCompletes` | cortex-speech-app/scripts/activate_sequential_review.py:222-322 | once a run accepted its inputs, however often it is stopped and rerun with the same arguments, one rerun to the end reaches the new state |
| `SequentialActivation.DataDirectory.Activate` | cortex-speech-app/scripts/activate_sequential_review.py:191-322 | the script's order of mutations, stopped after any number of them, is the modelled run |
| `NamedVoiceActivation.MatchesWithoutMarker` | cortex-speech-app/scripts/activate_named_voice_focus.py:213-349 | over any runs stopped anywhere, absence of the marker implies that the stored campaign's focus count and digest are those of the focus file |
| `NamedVoiceActivation.ProceedIff` | cortex-speech-app/scripts/activate_named_voice_focus.py:180-250 | a run goes ahead exactly when the speaker name, session, health, last event, stored campaign and marker pass and the import is ready, without repetition, stored, in the focus and unreviewed; a reviewed segment refuses it |
| `NamedVoiceActivation.MarkerDenies` | cortex-speech-app/scripts/activate_named_voice_focus.py:213-349 | reviews between runs are all recorded without a marker and none with one |
| `NamedVoiceActivation.IntendedAgain` | cortex-speech-app/scripts/activate_named_voice_focus.py:231-238 | recomputing the intended campaign after any step, the commit included, gives the same campaign |
| `NamedVoiceActivation.RerunCompletes` | cortex-speech-app/scripts/activate_named_voice_focus.py:231-349 | an accepted run, stopped and rerun any number of times with its arguments, ends with its first intended campaign, the exact focus and every segment named |
| `NamedVoiceActivation.RevisionRisesOnce` | cortex-speech-app/scripts/activate_named_voice_focus.py:303-316 | over all runs with one speaker name each segment's revision rises at most once, and only on a change of name |
| `NamedVoiceActivation.OtherSpeakerRaisesAgain` | cortex-speech-app/scripts/activate_named_voice_focus.py:231-308 | exact effect of finishing a run, stopped anywhere, under any second name: a segment's revision rises at most once if and only if the stop came before the commit, the second name is refused or the same, or the segment already bore the first name; it never rises more than twice |
| `NamedVoiceActivation.TwoNamesRaiseTwice` | cortex-speech-app/scripts/activate_named_voice_focus.py:231-308 | a concrete directory with one unnamed segment: stopped after the commit as x and finished as y, its revision is two |
| `NamedVoiceActivation.DataDirectory.NameSpeaker` | cortex-speech-app/scripts/activate_named_voice_focus.py:303-316 | the update in chunks of 800 renames exactly the import's segments, each once |
| `NamedVoiceActivation.DataDirectory.Activate` | cortex-speech-app/scripts/activate_named_voice_focus.py:193-349 | the script's order of mutations, stopped after any number of them, is the modelled run |
| `PilotHiddenKeys.ImportIsUnion` | cortex-speech-app/scripts/activate_review_pilot.py:467-578 | the table becomes the union of granted, retained and completed keys, within 2 per reviewer and 4 in all, by adding rows of this policy only |
| `PilotHiddenKeys.ImportTwice` | cortex-speech-app/scripts/activate_review_pilot.py:552-578 | a repeated import inserts nothing |
| `PilotHiddenKeys.CollectList` | cortex-speech-app/scripts/activate_review_pilot.py:511-538 | refuses exactly on an invalid or repeated key, and otherwise returns the keys |
| `PilotHiddenKeys.ImportHiddenAuthority` | cortex-speech-app/scripts/activate_review_pilot.py:467-578 | computes the import or refuses, exactly as specified, and reports how many keys it added; its own read-back never fails |
| `PilotConditions.KeyOfIff` | cortex-speech-app/scripts/activate_review_pilot.py:446-464 | a key is valid exactly for a pilot reviewer's name in any case without blanks around it and an identifier of 1 to 256 letters, digits, hyphens, full stops and underscores |
| `PilotConditions.ImportIff` | cortex-speech-app/scripts/activate_review_pilot.py:483-551 | the import is allowed exactly when no row agrees with the policy in only one of digest and baseline, every source names valid keys without repetition by the four actions, and no reviewer has more than two keys; the quota of four decides nothing |
| `PilotConditions.ImportAdds` | cortex-speech-app/scripts/activate_review_pilot.py:552-562 | it adds exactly one canonically spelt row for each key not yet granted |
| `PilotConditions.NarrowIff` | cortex-speech-app/scripts/activate_review_pilot.py:337-397 | narrowing succeeds exactly for a session of this database with one token each of Rubar's and Alle's whose hidden checks stand under this policy, and keeps exactly what is theirs |
| `PilotConditions.KeepNamesAt` | cortex-speech-app/scripts/activate_review_pilot.py:354-360 | the kept cookies are the pilot reviewers' ones in their order |
| `PilotConditions.KeepChecksAt` | cortex-speech-app/scripts/activate_review_pilot.py:361-371 | the kept checks are the pilot reviewers' ones in their order |
| `PilotConditions.ProceedIff` | cortex-speech-app/scripts/activate_review_pilot.py:644-750 | a run goes ahead exactly when focus, health, last event, policy file, replacement, session and import pass, stated on the documents' fields; what it then writes is fixed |
| `PilotConditions.RecordedIff` | cortex-speech-app/scripts/activate_review_pilot.py:740-818 | between runs a review is recorded exactly without a marker and, when hidden, for a granted key |
| `PilotActivation.NarrowTwice` | cortex-speech-app/scripts/activate_review_pilot.py:337-397 | narrowing a narrowed session to the same policy changes nothing |
| `PilotActivation.CompletedRunAgrees` | cortex-speech-app/scripts/activate_review_pilot.py:740-818 | a run that reaches its end leaves policy file, session and table on one policy, the tracked focus, and a table that is exactly the union |
| `PilotActivation.AgreesWithoutMarker` | cortex-speech-app/scripts/activate_review_pilot.py:708-818 | over any runs stopped anywhere, absence of the marker implies that nothing changed since a start without it or that policy file, session, table and focus agree |
| `PilotActivation.TableGrows` | cortex-speech-app/scripts/activate_review_pilot.py:552-562 | over any runs the table of grants only grows |
| `PilotActivation.RecoveryCompletes` | cortex-speech-app/scripts/activate_review_pilot.py:656-818 | however any run is stopped, a run that expects the files as they now are ends in the very state of the uninterrupted run; the one exception is a roster replacement that changes the policy, stopped between its policy and its session file, which every later replacement run refuses |
| `PilotActivation.OwnArgumentsIff` | cortex-speech-app/scripts/activate_review_pilot.py:624-686 | a stopped run is accepted again with its own arguments if and only if it stopped before its policy file, or that file was rewritten byte for byte as it was and no focus additions had been made |
| `PilotActivation.FirstArgumentsRefused` | cortex-speech-app/scripts/activate_review_pilot.py:668-686 | a concrete first activation, stopped after writing its policy file and refused with its own arguments |
| `PilotActivation.TornAcceptedIff` | cortex-speech-app/scripts/activate_review_pilot.py:644-740 | a torn roster replacement is taken up by some run if and only if the focus file was complete and the old session narrows to the new policy; that run is not a replacement and leaves agreement |
| `PilotActivation.TornReplacementRefused` | cortex-speech-app/scripts/activate_review_pilot.py:716-740 | a concrete roster replacement, stopped between its policy and its session file, after which every run is refused whatever its arguments |
| `PilotActivation.Prepare` | cortex-speech-app/scripts/activate_review_pilot.py:644-738 | the guards in the script's order and the import inside the transaction give the modelled decision |
| `PilotActivation.DataDirectory.Promote` | cortex-speech-app/scripts/activate_review_pilot.py:740-818 | the order of the file replacements, the commit and the marker, stopped after any number of them |
| `ReviewLedger.EntitlementIsWorth` | cortex-speech-app/scripts/check_review_compensation_readiness.py:620-625 | the exact entitlement always divides: 5000 micro-IQD per ms for an edit, 500 for an acceptance or rejection, refused only for a duration that is not positive |
| `ReviewLedger.BalancesAreSums` | cortex-speech-app/scripts/check_review_compensation_readiness.py:512-575 | in every accepted ledger each running balance, of money and of corrected time, is the sum of the unreversed entries of its work id |
| `ReviewLedger.AcceptedIffFits` | cortex-speech-app/scripts/check_review_compensation_readiness.py:177-204 | the audit accepts a ledger if and only if every row fits the unreversed credits before it: the tariff of its action, the exact money and corrected-audio differences, or the exact undo of one of them, and no negative balance |
| `ReviewLedger.CorrectedOnlyByEdit` | cortex-speech-app/scripts/check_review_compensation_readiness.py:195-204 | with newest-first undos the corrected audio of a work id is the duration of its topmost credit if that is an edit, and nothing for an acceptance, a rejection or skips alone |
| `ReviewLedger.BalancedIffHarmless` | cortex-speech-app/scripts/check_review_compensation_readiness.py:512-575 | exact condition: every prefix of every unreversed stack sums to the entitlement of its topmost credit that is not a skip if and only if every undo is harmless |
| `ReviewLedger.NewestFirstBalances` | cortex-speech-app/scripts/check_review_compensation_readiness.py:368-575 | when each undo names the newest unreversed entry of its work id, every stack is balanced and every balance is the entitlement of its topmost credit |
| `ReviewLedger.UndoRestores` | cortex-speech-app/scripts/check_review_compensation_readiness.py:519-552 | undoing the newest entry restores the balances from before it |
| `ReviewLedger.BalanceBounded` | cortex-speech-app/scripts/check_review_compensation_readiness.py:177-204 | a work id never holds more than 5000 micro-IQD per ms of its topmost credit's duration |
| `ReviewLedger.OlderUndoAccepted` | cortex-speech-app/scripts/check_review_compensation_readiness.py:523-533 | a concrete accepted ledger in which undoing an older entry leaves a balance that is not the remaining credit's worth |
| `Settlements.CoveredIffSettled` | cortex-speech-app/scripts/check_review_compensation_readiness.py:134-174 | in accepted settlements a row is covered by some payout exactly when it is at or below its reviewer's last boundary |
| `Settlements.CoveredOnce` | cortex-speech-app/scripts/check_review_compensation_readiness.py:134-174 | no ledger row is covered by two accepted settlements |
| `Settlements.ReferencesDistinct` | cortex-speech-app/scripts/check_review_compensation_readiness.py:134-174 | accepted settlements have distinct references |
| `Settlements.AcceptedIffExact` | cortex-speech-app/scripts/check_review_compensation_readiness.py:146-170 | the audit accepts a list if and only if every settlement begins where the reviewer's last one ended, is not empty, pays exactly its rows and has a reference of its own |
| `Settlements.PayoutsTelescope` | cortex-speech-app/scripts/check_review_compensation_readiness.py:146-174 | a reviewer's payouts add up to all of that reviewer's deltas up to the last boundary |
| `Settlements.Conservation` | cortex-speech-app/scripts/check_review_compensation_readiness.py:570-610 | settled plus unsettled equals everything earned |
| `EditDistance.ComputeDistance` | cortex-speech-app/scripts/asr_metrics.py:15-23 | the two-row loop computes the distance |
| `EditDistance.ChainsAreLong` | cortex-speech-app/scripts/asr_metrics.py:15-23 | no chain of single insertions, deletions and substitutions is shorter than the distance |
| `EditDistance.ShortestChain` | cortex-speech-app/scripts/asr_metrics.py:15-23 | some chain of edits is exactly as long as the distance |
| `EditDistance.DistanceZeroIffEqual` | cortex-speech-app/scripts/asr_metrics.py:15-23 | the distance is zero exactly on equal sequences |
| `EditDistance.DistanceSymmetric` | cortex-speech-app/scripts/asr_metrics.py:15-23 | the distance is symmetric |
| `EditDistance.Triangle` | cortex-speech-app/scripts/asr_metrics.py:15-23 | the distance obeys the triangle inequality |
| `BinaryMarker.Scan` | scripts/windows_release_bundle.py:258-267 | the loop with the 96-byte tail stops at the first read that completes a match, at the leftmost position of the file, or finds that there is none |
| `BinaryMarker.BinaryMarker` | scripts/windows_release_bundle.py:258-267 | for every file and chunking: None exactly when the whole-file search finds none, otherwise that search's result cut at the end of the deciding read and case-folded |
| `BinaryMarker.AcceptsSha` | scripts/windows_release_bundle.py:548-550 | accepts exactly when the deciding read shows the expected SHA up to case |
| `BinaryMarker.AcceptedMeans` | scripts/windows_release_bundle.py:258-267 | on accepting a 40-character SHA the whole-file search yields it up to case, and yields that very SHA if and only if the marker has no upper-case digit |
| `BinaryMarker.AcceptedIffShown` | scripts/windows_release_bundle.py:258-267 | a file whose marker is the expected SHA up to case is accepted exactly when the deciding read shows all forty digits |
| `BinaryMarker.FreshIffLowerCase` | cortex-speech-app/scripts/check_exe_freshness.py:184-190 | the freshness check agrees with an accepted bundle if and only if its marker has no upper-case digit |
| `BinaryMarker.UpperCaseAccepted` | scripts/windows_release_bundle.py:258-267 | forty digits A in one read: the lower-case SHA is accepted, the whole-file search yields the upper-case one and the freshness check rejects it |
| `BinaryMarker.AcceptedByPosition` | scripts/windows_release_bundle.py:258-267 | for the script's reads of one mebibyte: a file that carries the expected SHA up to case is accepted if and only if no read but the last ends after the seventh digit and before the last one of the SHA |
| `BinaryMarker.CutShaRefused` | scripts/windows_release_bundle.py:258-267 | a file read in full mebibytes whose marker starts 24 bytes before the end of the first: it carries the SHA and is refused |
| `BinaryMarker.WholeFile` | cortex-speech-app/scripts/check_exe_freshness.py:93-101 | the whole-file search: None exactly without a match, otherwise the group of the leftmost match as it stands in the file |
| `BinaryMarker.MatchIff` | scripts/windows_release_bundle.py:263-263 | a match is the ASCII label followed by seven hexadecimal digits or the word unknown |
| `BinaryMarker.GroupIs` | scripts/windows_release_bundle.py:263-266 | the captured group is the word unknown or the longest run of up to forty digits |
| `BinaryMarker.FoundUnique` | scripts/windows_release_bundle.py:258-267 | the deciding read and the position are unique |
| `Halwest.RunsCover` | cortex-speech-app/scripts/build_halwest_dataset.py:237-257 | the greedy runs are consecutive and hold every input once and in order |
| `Halwest.RunsMaximal` | cortex-speech-app/scripts/build_halwest_dataset.py:249-255 | a run ends only where the next input may not join it |
| `Halwest.JoinsIff` | cortex-speech-app/scripts/build_halwest_dataset.py:247-250 | an input joins when the whole stays within 12 s and the run is still under 3 s or the whole stays within 7 s |
| `Halwest.MergeIntervals` | cortex-speech-app/scripts/build_halwest_dataset.py:237-268 | returns the greedy runs of at least 3 s; no returned chunk is shorter |
| `Halwest.SecondPass` | cortex-speech-app/scripts/build_halwest_dataset.py:259-268 | without short chunks the second pass is the identity |
| `Halwest.OverlongIsInput` | cortex-speech-app/scripts/build_halwest_dataset.py:249-255 | a chunk longer than 12 s is a single input |
| `Halwest.DroppedIsShort` | cortex-speech-app/scripts/build_halwest_dataset.py:253-257 | every input lies in a maximal greedy run that is either returned or shorter than 3 s |
| `Halwest.MergedInOrder` | cortex-speech-app/scripts/build_halwest_dataset.py:237-268 | chunks of ordered disjoint inputs are ordered and disjoint |
| `Halwest.CutsAllocate` | cortex-speech-app/scripts/build_halwest_dataset.py:271-310 | for any targets every unit is allocated once and in order; every chunk gets text when there are as many units as chunks, otherwise the first chunks get one each |
| `Halwest.SharesAddUp` | cortex-speech-app/scripts/build_halwest_dataset.py:275-291 | the shares of the chunks add up to all characters |
| `Halwest.ShareIs` | cortex-speech-app/scripts/build_halwest_dataset.py:291-291 | the share of a chunk is to all characters as its duration is to the total |
| `Halwest.JoinMeans` | cortex-speech-app/scripts/build_halwest_dataset.py:286-308 | joined units are separated by one blank each |
| `Halwest.TakeUnits` | cortex-speech-app/scripts/build_halwest_dataset.py:293-308 | the inner loop stops at the first unit that reaches 85 percent of the share, or when only as many units are left as chunks |
| `Halwest.AllocateText` | cortex-speech-app/scripts/build_halwest_dataset.py:271-310 | one text per chunk, each the normalised join of its allocated units or empty, and the zero-division exactly when the total duration is zero and a second chunk exists |
| `Halwest.QualityStatus` | cortex-speech-app/scripts/build_halwest_dataset.py:313-325 | each issue is listed exactly when its condition holds, once, and a segment is for training exactly when there is none |
| `Halwest.MergedNeverShort` | cortex-speech-app/scripts/build_halwest_dataset.py:313-325 | a merged chunk is never reported short, and reported long only when it is one input |
| `Kappa.ChanceBound` | cortex-speech-app/scripts/agreement_kappa.py:48-50 | chance agreement is at most (1 + po) / 2 |
| `Kappa.KappaBounds` | cortex-speech-app/scripts/agreement_kappa.py:26-60 | kappa lies in [-1, 1] and is 1 exactly on full agreement; the degenerate 0.0 and the fall-through of interpret are unreachable |
| `Kappa.KappaMeans` | cortex-speech-app/scripts/agreement_kappa.py:36-53 | with O agreeing items of n and C pairs of items that carry one label, kappa is (nO - C)/(nn - C), and 1 when every pair does; refused exactly for no items or unequal numbers |
| `Kappa.InterpretBands` | cortex-speech-app/scripts/agreement_kappa.py:26-60 | the bands of Landis and Koch as half-open intervals |
| `Kappa.KappaSymmetric` | cortex-speech-app/scripts/agreement_kappa.py:36-53 | kappa is symmetric in the raters and independent of the order in which the labels are walked |

## Left out

- Windows Job Objects, the mutex and process calls, procfs parsing and process spawning of the supervisor: only "this identity is alive", the guard as a mutex and the kill as one action are modelled.
- The evidence journal, gate execution and reporting of the supervisor.
- Audio decoding, resampling and correlation: the verdict of a pair is an arbitrary true, false or unknown, and whether its correlation is probable an arbitrary predicate; the thread pool over groups.
- `difflib.SequenceMatcher` itself: rule B takes any function that returns ordered, disjoint, merged common blocks, with the ratio 2M/T in exact arithmetic; the loops of rule A' take any text predicate, and `RelatedIff` the script's own.
- The parsing of alignment metadata, paths and word trigrams into rows: a row carries its offset, duration, file and trigrams. Segment ids are integers in the duplicate audit and the manifest.
- RuleB.VectorizedRuleB: takes the sorted and the ranked alphabet as arguments; the frequency order of the ranking affects only speed, so any order is allowed.
- DuplicateGroups.FindDuplicateGroups: the order of groups and of members within a group is not modelled.
- DedupManifest.BuildManifest: the database reads, evidence counts and digests of the manifest are not modelled; a component says whether its members carry one voice name, and applying a manifest appends its new rows.
- ReviewLedger.Audit: the agreement of a row with the event, decision, playback receipt or reversal it names is one flag of the row; the legacy audit and the focus checks are left out.
- Settlements.AuditSettlements: reviewer keys are already stripped and case-folded, and the ledger rows are those of the audited database.
- SequentialActivation.DataDirectory.Activate: the read-back of files just written and the second reading of the review history are not separate steps, since the process lock excludes other writers; the contents of a backup are reduced to its being complete.
- NamedVoiceActivation.DataDirectory.Activate: the checks of an import's journal, audio files and drafts are one flag of the job, the checks of the session one flag of the directory, and the speaker name is given already stripped.
- PilotActivation.Prepare: segment identifiers are ASCII, schema versions and caps of a policy are fixed, and the protected tables of a roster replacement other than the hidden keys are one flag.
- Interplay of different activation scripts through their shared marker file: each property is about runs of one script.
- The maintenance revocation of the pilot script, which only writes the marker.
- Halwest.AllocateText: takes the normalisation of a text as an argument; `QualityStatus` takes the length of the text.
- Speech interval detection, source trust and the rest of the dataset builders: driven by external tools.
- `word_pair`, `micro` and the bootstrap interval of the metrics: easy or random.
- The rest of the release bundle (signatures, provenance, inventory, SBOM) and of the freshness check.
- Floating-point rounding: `Kappa` and `Halwest` use exact numbers.

# Verified models of the repository's persistent state machines

This project models the parts of the repository that keep state between runs, or that build
content-addressed data, and proves what they promise over whole runs. Code that changes state in
place is modelled by classes with loops, proved against specification functions; the promises are
lemmas about those functions and about runs of them. Run `dafny verify dfyconfig.toml`.

| files | models |
|---|---|
| `Federation`, `FederationKeys`, `FederationLaws`, `FederationMoves`, `FederationReports` | the ledger of paired records and its audit (`scripts/n1_federation_audit.py`) |
| `ReviewProtocol`, `ReviewLaws`, `ReviewRaces`, `ReviewAcks`, `ExemptReview`, `ReviewRefinement`, `ReviewGate`, `GateLaws` | review of exempt commits: watchers, sweeps, markers, results, and the push gate (`scripts/exempt_review.py`, `scripts/exempt_review_gate.py`) |
| `GitObjects`, `TreeBuilder`, `TreeLaws`, `TreeOrder` | from a flat path listing to git tree objects, byte by byte (`scripts/manual_commit.py`) |
| `ArchLedger`, `ArchLaws`, `ArchRecords` | the hash-chained journal and the records it is about (`scripts/arch_ledger.py`) |
| `RecordStore`, `RecordLaws`, `RecordRequests` | records, transitions, the event log and pagination (`lingmemory/core.py`, `lingmemory/events.py`) |
| `RuleStore`, `RuleLaws`, `RuleLessons`, `RuleTables` | the two writers of coding rules (`lingmemory/data_flywheel.py`, `lingmemory/distiller.py`) |
| `Maintenance`, `MaintenanceLaws` | the ageing of infos (`lingmemory/maintenance.py`) |
| `RestartLimiter` | the restart limiter (`scripts/lingos_tier3.py`) |
| `EvalsLabeler`, `EvalsLaws` | the incremental labeller (`scripts/evals_labeler.py`) |
| `LlmReview`, `LlmAnswers`, `LlmLaws` | the cached second opinion on findings (`linggit/llm_review.py`) |
| `SafePatch` | sequential patches (`scripts/safe_patch.py`) |
| `Base`, `Splitting` | shared result types; cutting a sequence at separators |

What the model takes as given: times are integers from clocks that do not run backwards within one
machine; SHA-1 and SHA-256 are functions without collisions among the finitely many texts at hand;
JSON rendering and parsing, regular expressions, providers, the type registry, the answers of SQL
selections and of `git rev-list` are parameters.

## Where the code and its documentation disagree

The model follows the code; each point is a lemma below.

- A dissolved record's partner is dissolved with it, but its log entry reads `dissolved -> dissolved`
  (`scripts/n1_federation_audit.py:127-135`): `TransitionLogsTrulyUnlessLinked`.
- Key reversal is not always its own inverse when member names contain hyphens: `OppositeCanDriftAway`.
  It is for one key exactly as `OppositeReturnsExactly` says, and for all keys exactly over the member
  lists of `AllKeysReturnExactly`. Without it two audits need not settle a ledger (`ChainsNeedThreeRounds`);
  any number of them does exactly as `SettlesExactly` says.
- The gate reads results first and markers later, so a review that ends in between, and a result file
  that is opened but not filled, are both taken for "no evidence" and let the commit pass:
  `GateDecidesPlanted`, `TwoLooksLoseExactly`, `GateCanMissAFailure`.
- Finalising is documented never to raise; over a run it does exactly when another process unlinks the
  marker between the check and the unlink (`RaisesExactlyWhenBeaten`), so never while no two processes
  share a marker (`UnsharedNeverRaises`) and never without sweeps (`WatchersNeverRaise`); two sweeps are
  enough (`TwoSweepsCollide`).
- An acknowledgement reads the file, empties it and fills it: two at once lose one
  (`FillLeavesWhatItRead`, `TwoAtOnceForgetTheFirst`), one killed in the middle loses all (`CutShortLosesAll`);
  one by one nothing is lost (`OneByOneNothingIsLost`).
- The cap on a pushed range keeps the oldest 500 commits, not the newest: `CapKeepsTheOldest`.
- A journal line whose text holds U+0085, U+2028 or U+2029 is written as one line and read back as
  several; from then on the journal never verifies: `VerifiesExactlyWhenWhole`, `SeparatorInReasonBreaks`.
- A due date without hyphens, which Python accepts from 3.11 on, is compared as a text and so overdue only from
  the next year on: `CompactIsLate`.
- The purge is documented to delete expired infos; it selects state `purged`, which ageing never
  reaches: `NothingIsEverDeleted`.
- `confident_allow` is documented for `p >= 0.65` and also given below 0.35: `LabelsMeanWhatTheySay`.
- With a look-back limit, runs that die before the first one completes can leave decisions out for good,
  exactly as `NoHoleExactlyWhenInTime` says.
- A provider's answers about places it was not asked about are used once and forgotten, so two reviews can
  differ, exactly as `RepeatsExactly` says.
- When every provider is silent the silence is cached as a verdict for a day: `OutageCountsAsAnswer`.
- A journal line lost to an I/O error leaves the journal verifying while it no longer replays to the store:
  `VerifiesExactlyWhenWhole`.
- The patcher checks its anchors in the original text only, which does not fix the order of the patches
  and lets overlapping patches drop out: `AllInPlaceExactly`, `SecondPatchExactly`, with
  `GuardDoesNotFixTheOrder` and `OverlappingPatchIsDropped` as instances.
- A page size of zero walks through all pages and gives nothing out: `PagesGiveEveryRowOnce`.

## Model

| member | source | states |
|---|---|---|
| Federation.FederationLedger.OppositeKey | scripts/n1_federation_audit.py:54-70 | the key reversal search, longest member name first, then the two halves |
| FederationKeys.OppositeExactly | scripts/n1_federation_audit.py:54-70 | what the opposite key is: the two members a key reads as, the first as long as possible, the other way round; only without such a reading the halves around its one hyphen |
| FederationKeys.OppositeIgnoresTies | scripts/n1_federation_audit.py:61-66 | the opposite key depends on the set of members only, not on the order of equally long names |
| FederationKeys.OppositeReturnsExactly | scripts/n1_federation_audit.py:54-70 | with `n` the longest member splitting the key into `n` and `r`, and `m` the longest splitting `r-n` into `m` and `q`: reversed twice the key comes back exactly when `q-m` is the key; keys no member splits always do |
| FederationKeys.AllKeysReturnExactly | scripts/n1_federation_audit.py:54-70 | all keys come back over a member list exactly when, for all members `a`, `b` with `a` the longest member splitting `a-b`, the longest split of `b-a` leads back |
| FederationKeys.UnambiguousIsReversible | scripts/n1_federation_audit.py:57-66 | a list in which no text reads in two ways is such a list |
| FederationKeys.OppositeCanDriftAway | scripts/n1_federation_audit.py:54-70 | a member list and a key for which reversing does not return |
| Federation.FederationLedger.Transition | scripts/n1_federation_audit.py:100-136 | which moves are refused, and the whole ledger after an accepted one, a standing partner dissolved with its record |
| FederationMoves.OneMoveExactly | scripts/n1_federation_audit.py:109-121 | which changes of state are accepted: any of the six states but `dissolved` to `dissolved`, only live pairs to `drift` or `broken`, only those two to `restored`, only new and restored ones to `paired`, none to `proposing`; and what an accepted one leaves in the record |
| FederationMoves.MovesNeededExactly | scripts/n1_federation_audit.py:94-118 | a record comes from one state to another by `n` moves exactly when `n` is at least the least number: two from `drift` or `broken` back to `paired`, three from `proposing` to `restored`, and so on for all pairs of states |
| FederationMoves.BackOnlyThroughRestored | scripts/n1_federation_audit.py:109-118 | over every run of moves and audits: what drifted or broke is paired again only after it was restored in between |
| FederationMoves.NeverProposingAgain | scripts/n1_federation_audit.py:109-118 | over every run nothing comes back to `proposing` |
| FederationReports.MoveExactly | scripts/n1_federation_audit.py:119-136 | an accepted move changes its record, logs where it came from, and touches no other record but a partner it dissolves |
| FederationMoves.RefusedExactly | scripts/n1_federation_audit.py:100-118 | what a refusal says: the state asked for, then the record, then the move |
| Federation.FederationLedger.Inspect | scripts/n1_federation_audit.py:175-222 | one record's alerts, report line and, with repair, the missing partner it creates, manifest and levels copied |
| Federation.FederationLedger.Audit | scripts/n1_federation_audit.py:164-239 | the whole audit: report and ledger, scanning first and degrading after; a degradation never fails |
| FederationReports.AlertsExactly | scripts/n1_federation_audit.py:175-222 | an audit without repair reports exactly what is wrong: each alert with its own condition on the ledger, both directions |
| FederationReports.EntryExactly | scripts/n1_federation_audit.py:178-223 | the one reason in a report line: key before state mismatch before a state outside the six before a fingerprint |
| FederationReports.DegradedExactly | scripts/n1_federation_audit.py:224-238 | which records an audit without repair degrades, and that their histories say from where and why |
| FederationReports.RepairSilencesOnly | scripts/n1_federation_audit.py:190-208 | with repair the only alert that stays away is that of a partner made instead |
| FederationReports.RepairExactly | scripts/n1_federation_audit.py:192-205 | with repair a record is new exactly when it is the missing partner of a standing record; it is `proposing`, has that side's manifest and levels and points back at it |
| FederationLaws.AuditIsRound | scripts/n1_federation_audit.py:164-239 | without repair an audit judges all records against the ledger as it was, in whatever order they are listed |
| FederationLaws.EveryBusyRoundCosts | scripts/n1_federation_audit.py:226-238 | an audit that changes anything strictly lowers the number of paired and restored records |
| FederationLaws.RoundsRunOut | scripts/n1_federation_audit.py:226-238 | for any keys at all, as many audits as there are live records leave nothing to change |
| FederationLaws.TwoRoundsDecide | scripts/n1_federation_audit.py:164-239 | with reversible keys, exactly which records are still live after two audits |
| FederationLaws.ThirdAuditChangesNothing | scripts/n1_federation_audit.py:164-239 | with reversible keys the third audit changes nothing, and every record still live has no fingerprint alert and a partner that is missing or in the same state |
| FederationLaws.RoundsDecide | scripts/n1_federation_audit.py:164-239 | for any keys: after any number of audits a record is still live exactly when no chain of opposite keys that short leads from it to a fault |
| FederationLaws.SettlesExactly | scripts/n1_federation_audit.py:164-239 | for any keys and any number of audits: the next one changes nothing exactly when no record is that many links away from a fault |
| FederationLaws.ChainsNeedThreeRounds | scripts/n1_federation_audit.py:54-70 | such a chain of three records, which a third audit still changes |
| FederationLaws.QuietMeansConsistent | scripts/n1_federation_audit.py:175-222 | an audit reports nothing exactly when every record is well-formed, has its partner in place and in the same state, and matches its fingerprint |
| FederationLaws.RunKeepsLedgerSound | scripts/n1_federation_audit.py:100-136 | over all runs of moves and audits: pairs dissolve together, dissolution is never left, repair never recreates a dissolved record's partner, histories end in the current state |
| FederationLaws.TransitionLogsTrulyUnlessLinked | scripts/n1_federation_audit.py:122-135 | the log names the state that was left, exactly when no standing partner is dissolved along |
| GitObjects.ParsedSerialized | scripts/manual_commit.py:82-85 | the bytes of a tree object parse back to its children |
| GitObjects.AscendingIsUnique | scripts/manual_commit.py:78-81 | git's child order leaves only one sequence for a set of children |
| TreeBuilder.SubprefixGrows | scripts/manual_commit.py:70-75 | the recursion goes to a strictly longer prefix that is still bounded by a path |
| TreeBuilder.TreeWriter.Store | scripts/manual_commit.py:46-54 | the object is stored under its hash, and nothing stored before is touched |
| TreeBuilder.TreeWriter.SortItems | scripts/manual_commit.py:78-81 | the children in git's order |
| TreeBuilder.TreeWriter.Collect | scripts/manual_commit.py:65-77 | the loop over the path map finds exactly a directory's files and subdirectories, a file winning over a directory of its name whichever comes first |
| TreeBuilder.TreeWriter.Build | scripts/manual_commit.py:61-88 | the sha of a directory, with its tree and all trees below stored and the cache true |
| TreeBuilder.TreeWriter.BuildTree | scripts/manual_commit.py:57-90 | the root sha is a function of the listing alone, not of dictionary order |
| TreeBuilder.TreeWriter.Override | scripts/manual_commit.py:128-136 | the listing with the named files set to their stored blobs |
| TreeBuilder.TreeWriter.Rebuild | scripts/manual_commit.py:128-140 | the root of the overridden listing, with all its trees stored |
| TreeLaws.ListsBackUnshadowed | scripts/manual_commit.py:57-90 | listing a written tree recursively gives exactly the paths no file hides |
| TreeLaws.ListsBackExactly | scripts/manual_commit.py:57-90 | it gives the listing itself exactly when no file stands where a directory is needed and no file has the directory mode |
| TreeOrder.WalkRises | scripts/manual_commit.py:78-88 | depth first through a written tree, children as stored, the full paths rise in plain byte order and are those no file hides |
| TreeOrder.BeforeExactly | scripts/manual_commit.py:78-81 | a child stands before another exactly when every path it leads to precedes every path the other leads to |
| TreeOrder.HeaderTells | scripts/manual_commit.py:46-48 | an object can be taken apart: kind up to the first blank, decimal size up to the first zero byte, and that many bytes |
| TreeOrder.WordsOfGit | scripts/manual_commit.py:46-85 | the kinds, modes and separators are git's |
| TreeLaws.EqualRootsEqualListings | scripts/manual_commit.py:46-90 | equal roots mean equal listings |
| TreeLaws.UntouchedDirectoriesKeepTheirSha | scripts/manual_commit.py:129-139 | a directory that contains none of the overridden files keeps its sha |
| TreeLaws.CommitListsBack | scripts/manual_commit.py:118-140 | the rebuilt tree lists back as HEAD's listing with each file replaced by its own blob |
| ReviewLaws.RunKeeps | scripts/exempt_review.py:39-207 | what every interleaving of watchers, sweeps, kills and acknowledgements keeps |
| ReviewLaws.PlantedForGood | scripts/exempt_review.py:89-95 | a commit whose marker was set has a marker or a result file for the rest of the run |
| ReviewLaws.GateDecidesPlanted | scripts/exempt_review_gate.py:120-160 | after any run a marked commit has no evidence exactly when its newest result file is torn; it passes exactly on a green or acknowledged or torn result; green needs a green suite |
| ReviewLaws.EvidenceExactly | scripts/exempt_review_gate.py:120-138 | the five kinds of evidence, each with its condition on results, markers and acknowledgements |
| ReviewLaws.SweepKeepsToItsList | scripts/exempt_review.py:180-207 | over every run a sweep takes only markers that were there when it started, not the skipped one, and none twice |
| ReviewLaws.QuietRunAlwaysHasEvidence | scripts/exempt_review.py:89-95 | without kills and with no file being filled, a marked commit always has evidence: the result is written before the marker goes |
| ReviewLaws.OneClaimPerMarker | scripts/exempt_review.py:39-54 | over a whole run at most one watcher gets past the claim of a marker |
| ReviewRaces.RaisesExactlyWhenBeaten | scripts/exempt_review.py:94-95 | in every run a step raises exactly when, since the check that found the marker, another process has unlinked it and nobody has planted it again; the result is there by then |
| ReviewRaces.UnsharedNeverRaises | scripts/exempt_review.py:94-95 | in every run in which no two processes ever hold jobs on the same marker nothing raises |
| ReviewRaces.WatchersNeverRaise | scripts/exempt_review.py:39-54 | nothing raises in a run without sweeps, thanks to the claim |
| ReviewRaces.TwoSweepsCollide | scripts/exempt_review.py:180-207 | a run of two sweeps over one stale marker, without kills, whose next step raises |
| ReviewRaces.TwoLooksLoseExactly | scripts/exempt_review_gate.py:120-138 | reading results and markers at two moments loses a marked commit exactly when its result was torn at the first, or when its result was written and its marker unlinked by a step in between |
| ReviewRaces.GateCanMissAFailure | scripts/exempt_review_gate.py:120-138 | a run in which a failed commit passes that way |
| ReviewAcks.OnFileOnlyIfNamed | scripts/exempt_review_gate.py:191-207 | over every run, overlapping or killed: only commits somebody named are on file |
| ReviewAcks.FillLeavesWhatItRead | scripts/exempt_review_gate.py:193-206 | whatever happens in between, an acknowledgement leaves what was on file when it read and its own commits, and so loses exactly the others |
| ReviewAcks.OneByOneNothingIsLost | scripts/exempt_review_gate.py:191-207 | in a run with one acknowledgement at a time and none cut short, exactly all that was acknowledged is on file |
| ReviewAcks.TwoAtOnceForgetTheFirst | scripts/exempt_review_gate.py:193-206 | when two read before either writes, the first to write is forgotten, at any point of any run |
| ReviewAcks.CutShortLosesAll | scripts/exempt_review_gate.py:205-206 | one killed between emptying and filling the file leaves no acknowledgement |
| ExemptReview.RunSuite | scripts/exempt_review.py:111-140 | the answer is that of the first attempt that is not out of threads, or of the last; green exactly when some attempt is green and all before it ran out of threads |
| ExemptReview.GreenExactly | scripts/exempt_review.py:32-140 | green means green on four workers, or on two once four ran out of threads, or on one once both did |
| ExemptReview.FinalizedIsFourSteps | scripts/exempt_review.py:72-103 | uninterrupted, the protocol's four steps finalise the marker and do not raise |
| ExemptReview.ReviewHost.ClaimMarker | scripts/exempt_review.py:39-54 | the exclusive claim |
| ExemptReview.ReviewHost.Finalize | scripts/exempt_review.py:89-103 | result written, marker gone, nothing else changed |
| ExemptReview.FinalizedExactly | scripts/exempt_review.py:72-95 | what finalising leaves, file by file |
| ExemptReview.ReviewHost.CheckStale | scripts/exempt_review.py:180-207 | exactly the stale markers but the skipped one are finalised as failures, and counted |
| ExemptReview.ReviewHost.Watch | scripts/exempt_review.py:143-177 | when a watcher steps aside, gives up, or reviews, and the files it leaves; a pass only on a green suite |
| ExemptReview.SweepSettlesTheStale | scripts/exempt_review.py:180-207 | after a sweep every stale commit shows a failure and no other stale marker is left |
| ExemptReview.ReviewLeaves | scripts/exempt_review.py:143-177 | what a review leaves, file by file: its claim and result, the failures of what waited too long, and nothing else different |
| ReviewRefinement.DrivesJob | scripts/exempt_review.py:89-103 | a job advanced by the protocol with nobody in between has exactly the uninterrupted effect |
| ReviewRefinement.SweepIsAProtocolRun | scripts/exempt_review.py:180-207 | every sweep the program does alone is a run of the protocol that finalises the same markers in the same seconds |
| ReviewRefinement.WatchIsAProtocolRun | scripts/exempt_review.py:143-177 | every review a watcher does alone is a run of the protocol that starts with the claim and leaves the files `Watch` leaves |
| ReviewGate.LinesIsTheReading | scripts/exempt_review_gate.py:86-91 | the newline split with an empty tail dropped is the only list of lines that reads as the bytes |
| ReviewGate.ReadStdinLines | scripts/exempt_review_gate.py:71-92 | the lines are the split of all bytes received before end of file or timeout, each decoded on its own |
| ReviewGate.ChunkingIsInvisible | scripts/exempt_review_gate.py:76-88 | however bytes are cut into chunks, the same bytes are received |
| ReviewGate.CapKeepsTheOldest | scripts/exempt_review_gate.py:108-117 | a commit survives the cap exactly when fewer than 500 older ones follow it |
| ReviewGate.CapCanHideTheNewest | scripts/exempt_review_gate.py:108-188 | exactly when a push passes although its newest commit has an unread failure |
| ReviewGate.Gate.Check | scripts/exempt_review_gate.py:163-188 | the push is refused exactly when some commit in a range is refused and the bypass is off |
| GateLaws.ListedExactly | scripts/exempt_review_gate.py:108-116 | on a commit graph: the commits of a pushed line are exactly those its local tip reaches and its remote tip does not, for a new ref those no remote reaches, for a deleted one none |
| GateLaws.RefusedExactly | scripts/exempt_review_gate.py:120-160 | a commit is turned away exactly when its newest result is an unacknowledged failure, or it has a marker and no result |
| GateLaws.RefusedPushExactly | scripts/exempt_review_gate.py:108-188 | a push of which no line brings more than 500 commits is refused exactly when it brings a commit whose review is unsettled |
| GateLaws.UnreadTipIsRefused | scripts/exempt_review_gate.py:108-188 | so it is refused when a new tip has an unread failure |
| GateLaws.PushAfterRun | scripts/exempt_review_gate.py:163-188 | after any run of the review protocol: such a push of commits under review passes exactly when each has a newest result that is green, acknowledged or cut short |
| ReviewGate.Gate.Acknowledge | scripts/exempt_review_gate.py:191-207 | exactly the named commits are added, resolved where git knows them |
| GateLaws.AckedIsLetThrough | scripts/exempt_review_gate.py:191-207 | a failure acknowledged under any name git resolves to its commit no longer refuses that commit |
| ReviewGate.AckSettlesOnlyFailures | scripts/exempt_review_gate.py:130-146 | an acknowledgement turns the named commits' unread failures into acknowledged ones and changes no other evidence |
| ArchLedger.LandsWholeOrCorrupt | scripts/arch_ledger.py:75-94 | a written line is read back as itself exactly when its text holds no character the reader cuts at; otherwise it starts with a corrupt line |
| ArchLedger.ArchLedgerFiles.AppendJournal | scripts/arch_ledger.py:97-118 | the journal read back grows by the stamped line as it lands, or not at all behind a scalar line or when an I/O error is swallowed |
| ArchLedger.ArchLedgerFiles.VerifyJournal | scripts/arch_ledger.py:121-153 | 2 without a journal, 0 exactly when every line is an object without the mark of a corrupt one, in its place, whose digest covers it and the digest before it |
| ArchLedger.ArchLedgerFiles.AddDebt | scripts/arch_ledger.py:156-170 | refused for a bad date or a present slug, else stored and journalled |
| ArchLedger.ArchLedgerFiles.ResolveDebt | scripts/arch_ledger.py:173-182 | refused for an unknown slug, else stored as resolved and journalled |
| ArchLedger.ArchLedgerFiles.AddExemption | scripts/arch_ledger.py:185-200 | stored and journalled, over any earlier one |
| ArchLedger.ArchLedgerFiles.RemoveExemption | scripts/arch_ledger.py:203-213 | the record is kept, marked removed, and journalled |
| ArchLedger.ArchLedgerFiles.UpdateExemption | scripts/arch_ledger.py:227-246 | the fields are merged into a known record and journalled |
| ArchLedger.ArchLedgerFiles.ExpiredDebts | scripts/arch_ledger.py:262-269 | one report line for each open debt past its date and for no other, in listing order |
| ArchRecords.RequestExactly | scripts/arch_ledger.py:156-246 | every request, field by field: when it is granted, the record it leaves, the journal line it stamps, and nothing else |
| ArchRecords.RefusedExactly | scripts/arch_ledger.py:156-246 | why each request is refused |
| ArchRecords.OverdueByDate | scripts/arch_ledger.py:262-269 | a debt with a hyphened date is overdue exactly when it is open and its date is earlier than today |
| ArchRecords.OverdueWithoutDate | scripts/arch_ledger.py:262-269 | without a date it is not before the year 9999 |
| ArchRecords.CompactIsLate | scripts/arch_ledger.py:158-268 | with a date without hyphens it is overdue exactly from the next year on |
| ArchLaws.VerifiesExactlyWhenWhole | scripts/arch_ledger.py:97-153 | after any run from nothing the journal verifies exactly when no stamped line was torn; then it is the stamped lines, and replaying it gives the store but for records whose last change was lost to an I/O error |
| ArchLaws.AcceptedExactly | scripts/arch_ledger.py:121-153 | a journal is accepted exactly when it is made from its own contents by chaining digests, and these are numbered from 0 on and not marked corrupt |
| ArchLaws.AcceptedIsNumbered | scripts/arch_ledger.py:145-148 | in an accepted journal line `i` carries the number `i` |
| ArchLaws.ChainsToLastUsable | scripts/arch_ledger.py:97-111 | a new line is chained to the last line that is neither unparsed nor marked corrupt, and to nothing if there is none |
| ArchLaws.GivesUpExactly | scripts/arch_ledger.py:97-134 | an append or a check gives up exactly at a journal with a line that is JSON but no object |
| ArchLaws.RestampedVerifiesExactly | scripts/arch_ledger.py:134-151 | contents whose digests are all made anew are accepted exactly when they are numbered from 0 on and unmarked |
| ArchLaws.DroppedLineIsNoticed | scripts/arch_ledger.py:145-148 | a line other than the last cannot be dropped unnoticed, even with all digests made anew |
| ArchLaws.TornOnceBrokenForGood | scripts/arch_ledger.py:81-118 | after one torn line every later check fails |
| ArchLaws.SeparatorInReasonBreaks | scripts/arch_ledger.py:75-94 | such a separator in the reason of an accepted debt is enough |
| ArchLaws.PrefixesAreAccepted | scripts/arch_ledger.py:121-153 | a prefix of an accepted journal is accepted, so a broken journal never heals by appending |
| ArchLaws.LastDigestCommits | scripts/arch_ledger.py:105-153 | two accepted journals with the same last digest are equal |
| ArchLaws.SharedDigestPinsHistory | scripts/arch_ledger.py:105-153 | a digest met in two accepted journals pins its place and everything before it |
| ArchLaws.OnlyTruncationGoesUnnoticed | scripts/arch_ledger.py:121-153 | against a known journal, another is accepted with a last digest on record exactly when it is a prefix |
| ArchLaws.DebtStep | scripts/arch_ledger.py:156-182 | only resolving its own slug changes a present debt |
| ArchLaws.ResolvedForGood | scripts/arch_ledger.py:173-182 | a resolved debt stays resolved and is never overdue again |
| ArchLaws.PresentForGood | scripts/arch_ledger.py:156-246 | a record that is present once stays present for the rest of the run |
| ArchLaws.OneAddPerSlug | scripts/arch_ledger.py:156-162 | a slug is added at most once in a run |
| RecordStore.FirstFitIsFirst | lingmemory/core.py:107-113 | the registry's answer is the target of the first rule that fits, wildcards included |
| RecordStore.LingMemory.IsValidTransition | lingmemory/core.py:107-113 | the loop over the rules gives that answer |
| RecordStore.LingMemory.Create | lingmemory/core.py:158-179 | when creation is refused, and the row and event it adds |
| RecordStore.LingMemory.Transition | lingmemory/core.py:184-203 | refused for unknown records and moves the registry does not know, else the row and the event it leaves |
| RecordStore.LingMemory.SetConfidence | lingmemory/core.py:252-272 | refused out of range or without a record, else confidence, time and one event that changes no state |
| RecordStore.LingMemory.SetBound | lingmemory/core.py:274-294 | the same for bound events |
| RecordRequests.AcceptedExactly | lingmemory/core.py:158-294 | when each request is accepted, in terms of the records there are and the first rule that fits |
| RecordRequests.FoundExactly | lingmemory/core.py:184-188 | the record found under an id is the one that has it |
| RecordRequests.RefusedExactly | lingmemory/core.py:158-294 | why each request is refused, the first reason that applies |
| RecordRequests.RequestExactly | lingmemory/core.py:158-294 | an accepted request changes one record in the fields it names and its time, and adds one log entry that says who did what from where to where; a refused one changes nothing |
| RecordRequests.NewRowIsNext | lingmemory/core.py:165-175 | a created record comes last, with the next row number |
| RecordStore.LingMemory.Query | lingmemory/core.py:208-231 | the newest matching rows below the cursor up to the limit, with a next cursor exactly when more remain |
| RecordRequests.PageExactly | lingmemory/core.py:208-231 | a page holds the newest wanted rows older than the cursor, none left out in between; a next cursor exactly when some are left, the number of the last row given out |
| RecordLaws.RunKeeps | lingmemory/core.py:158-294 | over all runs: row numbers rise, ids are distinct, events refer to records, every record is explained by its events |
| RecordLaws.StateIsFoldOfHistory | lingmemory/events.py:26-53 | every record's history starts with its creation, chains from state to state by registry rules, and folds to the record's state |
| RecordLaws.GreyZoneIsInvisible | lingmemory/core.py:252-294 | confidence and bound updates change no state and no history |
| RecordLaws.BelowListsExactly | lingmemory/core.py:214-226 | a listing holds exactly the rows that pass below the cursor, newest first |
| RecordLaws.PagesGiveEveryRowOnce | lingmemory/core.py:208-231 | following the cursor to its end gives every matching row once, newest first, though rows are added in between; exactly for page sizes above zero or an empty answer |
| RuleStore.FirstHitIsFirst | lingmemory/distiller.py:125-138 | the lesson is that of the first pattern that hits |
| RuleStore.RuleWriter.MatchFirst | lingmemory/rule_matcher.py:38-45 | the loop over a pattern table finds it |
| RuleStore.RuleWriter.Learn | lingmemory/data_flywheel.py:110-129 | one lesson merged into the record of its rule, or a new record |
| RuleStore.RuleWriter.ExtractRule | lingmemory/data_flywheel.py:100-129 | when a failed trace teaches anything, and the store afterwards |
| RuleStore.RuleWriter.Distill | lingmemory/distiller.py:79-123 | when a successful trace teaches anything, and the store afterwards |
| RuleLessons.FailureTeachesExactly | lingmemory/rule_matcher.py:38-45 | a fixed trace with an error output teaches exactly the first entry whose pattern occurs in it in lower case |
| RuleLessons.SuccessTeachesExactly | lingmemory/distiller.py:79-138 | a trace that passed with 30 characters of code or more teaches the first general entry that matches, only without one the first of its language |
| RuleLessons.LooksThroughNewest | lingmemory/distiller.py:101-103 | the record of a rule is looked for among the newest 500 rules by the distiller, the newest 1000 by the other writer |
| RuleLessons.NewLessonExactly | lingmemory/distiller.py:117-123 | a rule without a record: one creation, with these fields |
| RuleLessons.KnownLessonExactly | lingmemory/distiller.py:101-115 | a rule with one: nothing for a trace it has, else one trace more, the distiller's confidence a fifth for each up to one, and promotion from the third on |
| RuleLaws.LookupIsExact | lingmemory/data_flywheel.py:111-113 | with at most 500 rule texts neither query limit ever hides the record of a rule |
| RuleLaws.OneRecordPerRule | lingmemory/distiller.py:101-123 | after any run of both writers no text has two records, its evidence is exactly the traces offered, each once, and it is validated exactly from three on |
| RuleTables.TablesAreSmall | lingmemory/distiller.py:32-62 | the tables of both writers hold at most 31 rule texts, below both limits |
| RuleTables.ErrorsShareARule | lingmemory/rule_matcher.py:17-31 | thirteen error patterns name at most twelve rules |
| RuleTables.RulesStayUnique | lingmemory/data_flywheel.py:100-129 | with these tables, uniqueness, exact evidence and the promotion threshold hold over every run of both writers |
| Maintenance.MoveAllMoves | lingmemory/maintenance.py:58-67 | a batch of moves succeeds as a whole and touches exactly the selected rows |
| Maintenance.Maintainer.ArchiveStaleInfos | lingmemory/maintenance.py:38-67 | the store after the selected infos are archived, and the counts |
| Maintenance.Maintainer.ExpireArchivedInfos | lingmemory/maintenance.py:69-91 | the same for expiry |
| Maintenance.Maintainer.PurgeExpiredInfos | lingmemory/maintenance.py:93-111 | for any selection, in any order: what is deleted, in which order, and that it raises at a row that is another one's parent |
| Maintenance.PurgesExactly | lingmemory/maintenance.py:93-111 | it raises exactly when a selected row is the parent of a row still there; otherwise the selected rows and their events are gone and nothing else |
| Maintenance.RaisesAt | lingmemory/maintenance.py:102-106 | what is there when it raises: the rows before are gone with their events, of the row itself only the events |
| MaintenanceLaws.ExpiryTakesTenDays | lingmemory/maintenance.py:38-91 | over any run an expired info was moved more than 240 hours after its last update while active, retained infos and conclusions stay active, nothing becomes purgeable |
| MaintenanceLaws.NothingIsEverDeleted | lingmemory/maintenance.py:93-111 | so no purge of such a run deletes anything |
| MaintenanceLaws.OneStagePerCycle | lingmemory/maintenance.py:113-125 | a cycle shorter than 168 hours moves no info by two stages |
| MaintenanceLaws.StageExactly | lingmemory/maintenance.py:38-91 | info by info: what a stage moves, that it moves all that are ready when they are fewer than a hundred and else the hundred untouched longest |
| MaintenanceLaws.PurgeFinds | lingmemory/maintenance.py:95-100 | a purge is handed infos in state `purged` alone |
| RestartLimiter.Tier3.CountRecentRestarts | scripts/lingos_tier3.py:117-121 | the starts of the last hour |
| RestartLimiter.Tier3.RecordRestart | scripts/lingos_tier3.py:124-129 | the start is noted and what is older than a day dropped |
| RestartLimiter.Tier3.Scan | scripts/lingos_tier3.py:176-208 | every daemon on the list is decided on its own history, all other histories stay |
| RestartLimiter.DecidesExactly | scripts/lingos_tier3.py:176-202 | on whatever history: the five answers with their conditions in minutes and starts |
| RestartLimiter.NotesExactly | scripts/lingos_tier3.py:124-129 | noting a start keeps what is less than a day older, in order |
| RestartLimiter.CapIsNeverReached | scripts/lingos_tier3.py:188-202 | the cap on starts per hour never decides, and a start is an hour after the last |
| RestartLimiter.StartsAreAnHourApart | scripts/lingos_tier3.py:186-205 | over any run a start that reached the state file keeps every later one an hour away, the cap is never reached, the file holds at most 24 starts |
| RestartLimiter.WindowHoldsFew | scripts/lingos_tier3.py:45-47 | over any run a window holds at most one saved start per full hour and one more |
| RestartLimiter.StartsExactly | scripts/lingos_tier3.py:176-202 | over any run: a visit starts the daemon exactly when its port has been down long enough and no saved start lies within the hour before it; else only the cooldown stops it |
| RestartLimiter.UnsavedStartIsForgotten | scripts/lingos_tier3.py:202-210 | an instance: a scan that dies before saving lets the next one start the daemon at once |
| EvalsLabeler.LabelsMeanWhatTheySay | scripts/evals_labeler.py:61-72 | for the three verdicts the label fits its documentation exactly unless an allowance has `p < 0.35` |
| EvalsLabeler.Labeler.ExistingKeys | scripts/evals_labeler.py:89-99 | the keys of the ledger |
| EvalsLabeler.Labeler.IterDecisionEntries | scripts/evals_labeler.py:102-120 | the first decisions at or after a time, up to the limit but at least one |
| EvalsLabeler.Labeler.LabelNew | scripts/evals_labeler.py:161-222 | ledger and watermark after a run, also after one that dies with any number of lines written |
| EvalsLaws.NewLinesSpeak | scripts/evals_labeler.py:61-203 | whatever the ledger and however a run ends, it only adds lines, each with the time, domain, action and verdict of a decision of the file and the label its own probability calls for, the documented one unless it is an allowance below 0.35 |
| EvalsLaws.StretchSpeaks | scripts/evals_labeler.py:184-203 | so over whole runs line by line for the decisions of the stretch |
| EvalsLaws.LedgerIsOneStretch | scripts/evals_labeler.py:172-220 | over all runs on a growing file, dying anywhere, the ledger is the labels of one unbroken stretch of the file in order |
| EvalsLaws.NoKeyTwice | scripts/evals_labeler.py:184-190 | no decision of such a ledger is labelled twice |
| EvalsLaws.FirstRunStarts | scripts/evals_labeler.py:172-174 | the first run that completes starts such a stretch wherever its look-back begins |
| EvalsLaws.LatestExactly | scripts/evals_labeler.py:215-218 | the watermark a completed run leaves is the latest time of its batch, in whatever order the file is |
| EvalsLaws.FirstRunsExactly | scripts/evals_labeler.py:172-220 | any number of runs that die or find nothing, and one more: the ledger is one stretch exactly when every run that wrote looked back at least to where the ledger ended; it ends where they got to |
| EvalsLaws.NoHoleExactlyWhenInTime | scripts/evals_labeler.py:172-220 | with any look-back limit, over all runs on a growing file, dying anywhere: the ledger is one stretch exactly when the runs up to the first that completes were in time; later runs neither make nor fill a hole |
| EvalsLaws.DyingFirstRunLeavesAHole | scripts/evals_labeler.py:172-174 | an instance of that on three decisions |
| EvalsLaws.NoHeadwayExactlyWhenStuck | scripts/evals_labeler.py:102-120 | with a backlog a completed run changes nothing exactly when the first `limit` decisions at the watermark are labelled and share its time |
| EvalsLaws.StuckForGood | scripts/evals_labeler.py:102-120 | and then no run with that limit ever does anything again |
| EvalsLaws.CatchesUp | scripts/evals_labeler.py:172-220 | when fewer than `limit` decisions share a time, the whole file is labelled once more runs complete than it was behind, however many die in between |
| LlmReview.LlmReviewer.Review | linggit/llm_review.py:207-259 | what is kept, cached and asked by one review |
| LlmReview.LlmReviewer.AskProviders | linggit/llm_review.py:243-247 | the first provider that answers is believed |
| LlmAnswers.BelievedExactly | linggit/llm_review.py:243-247 | what is believed is the answer of the first provider that says anything, nothing when all are silent |
| LlmAnswers.BatchesAreFull | linggit/llm_review.py:238-240 | all batches but the last have the configured size |
| LlmLaws.KeptIsSubsequence | linggit/llm_review.py:255-259 | the answer is the issues in their order with some left out |
| LlmAnswers.ReviewHears | linggit/llm_review.py:228-253 | what one review hears and keeps, without its loops: exactly the candidates without a fresh verdict are shown, in order; the last answer naming a place decides; each cache key holds what its last batch was told, at that batch's time |
| LlmAnswers.KnownExactly | linggit/llm_review.py:228-235 | a place's cached verdict is that of the last candidate there with a fresh one |
| LlmLaws.DroppedExactly | linggit/llm_review.py:207-259 | an issue is dropped exactly when the last answer of this call naming its place condemns it, or none names it and the last fresh cached verdict there does |
| LlmLaws.DroppedOnlyIfCondemned | linggit/llm_review.py:207-259 | so only if a fresh cached verdict of a candidate there, or the answer believed about a batch shown in this call, condemns the place |
| LlmLaws.FailsOpen | linggit/llm_review.py:207-259 | with no fresh verdicts and no answer from the providers there are, the input comes back |
| LlmLaws.AsksExactlyWhenStale | linggit/llm_review.py:228-237 | providers are asked exactly when some candidate has no fresh verdict |
| LlmLaws.AsksExactlyWhenUnjudged | linggit/llm_review.py:105-135 | that is: when some issue at or above the threshold has no verdict for its file, line and first 80 characters that is at most a day old |
| LlmLaws.SecondAsksNobodyExactly | linggit/llm_review.py:121-135 | a second review asks nobody exactly when no verdict the first reused, and no batch it was the last to ask under some key, is older than a day by then |
| LlmLaws.EveryStampCounts | linggit/llm_review.py:121-135 | at distinct places that is: no reused entry and no stamp of an asked batch |
| LlmLaws.ReviewAsksEachOnce | linggit/llm_review.py:228-240 | at distinct places every candidate without a fresh verdict is in exactly one batch, and nothing else is |
| LlmLaws.ReviewRemembers | linggit/llm_review.py:121-135 | after a review the cache holds the verdict used for every candidate, at the time it was cached or its batch answered |
| LlmLaws.SecondDropsExactly | linggit/llm_review.py:207-259 | a second review while all is fresh drops exactly the issues condemned by their own reused verdict or in the answer to their own batch |
| LlmLaws.SecondReviewRepeats | linggit/llm_review.py:121-135 | so with providers that answer only what is asked, a second review before any entry reused or stamp written is a day old asks nobody and answers the same |
| LlmLaws.RepeatsExactly | linggit/llm_review.py:207-259 | whatever was answered: the second review answers the same exactly when each answer that is the last to name an issue of another batch condemns it just if its own batch's answer, or its reused verdict, does |
| LlmLaws.ForeignAnswerIsForgotten | linggit/llm_review.py:248-257 | an instance in which they differ: a provider answers for an issue below the threshold |
| LlmLaws.OutageCountsAsAnswer | linggit/llm_review.py:249-253 | after an outage no provider is asked until a stamp of the outage is a day old, and nothing is dropped |
| SafePatch.Target.Apply | scripts/safe_patch.py:29-83 | the exit codes, and that the file changes only with code 0 |
| SafePatch.GuardExactly | scripts/safe_patch.py:41-50 | the guard lets patches through exactly when of each anchor some copy has none before it and none behind its end; the empty anchor only into an empty text |
| SafePatch.CountsOnce | scripts/safe_patch.py:41-50 | the guard accepts an anchor exactly when nothing occurs after the end of its first occurrence |
| SafePatch.OneReplacement | scripts/safe_patch.py:59-61 | a replacement whose anchor is undisturbed makes exactly its edit |
| SafePatch.ReplacesInPlaceExactly | scripts/safe_patch.py:59-61 | a replacement happens at its own place exactly when no copy of the anchor starts before it |
| SafePatch.OneByOneIsAllAtOnce | scripts/safe_patch.py:41-61 | in any order in which no anchor is disturbed the loop is the simultaneous substitution |
| SafePatch.OnceEverywhereIsAllAtOnce | scripts/safe_patch.py:41-61 | so it is when every remaining anchor occurs once in every intermediate text |
| SafePatch.AllInPlaceExactly | scripts/safe_patch.py:59-61 | over the whole loop every replacement happens at its own place exactly when no anchor is ever disturbed |
| SafePatch.CutsExactlyWhenPlaced | scripts/safe_patch.py:41-50 | the text can be cut at the anchors exactly when they stand at places that do not overlap |
| SafePatch.DoesNothingExactly | scripts/safe_patch.py:59-61 | a patch does nothing exactly when its anchor does not occur or is its own replacement |
| SafePatch.SecondPatchExactly | scripts/safe_patch.py:41-61 | two anchors that occur once each cut the text exactly when they do not overlap, and when the second patch is dropped |
| SafePatch.GuardDoesNotFixTheOrder | scripts/safe_patch.py:41-61 | two patches that pass the guard and give different files in different orders |
| SafePatch.OverlappingPatchIsDropped | scripts/safe_patch.py:41-61 | two overlapping patches that pass the guard, the second without effect, as an instance |

## Left out

- Federation: the member files and the fingerprint computation (a member list and a predicate per manifest are given), alert wording, notes and dates of a created partner.
- Review: corrupt marker files, the log file, alerts on LingBus, result statuses other than pass and fail; the sweep a watcher runs is a process of its own in the protocol and a call in `Watch`.
- ReviewProtocol.EvidenceOf: reads results and markers at one moment; `TwoLooksLoseExactly` says what two moments change.
- ReviewGate.Gate.Acknowledge: one acknowledgement undisturbed; `ReviewAcks` says what others in between do.
- ReviewGate.ReadStdinLines: decoding a line is a parameter, and the thread used where `select` is missing is not modelled.
- Tree builder: compression, object file names and the commit object's text; shas are the hash's bytes, not their hexadecimal spelling.
- ArchLedger.ArchLedgerFiles.AppendJournal: a write that fails halfway; the directories records are kept in; journal values other than integers, strings, booleans and objects of strings, and digests that are not strings.
- RecordStore: full-text search, JSON paths in filters, ties in the order of event timestamps, rows whose match changes between two pages.
- RecordStore.LingMemory.Query: data filters on anything but strings, and a negative page size.
- Maintenance.Maintainer.ArchiveStaleInfos: the selection by the database is given, any answer allowed that is oldest first within the batch.
- Maintenance.Maintainer.PurgeExpiredInfos: what becomes of the open transaction after it raises.
- RuleStore: regular expressions and lower-casing are parameters; sanitising of traces; rules deprecated or revisited by other programs.
- RestartLimiter: port probes, the process that is started, unreadable history entries, two scans at once.
- EvalsLabeler: the month in the file names, unreadable or torn lines, feeding corrections.
- LlmReview.LlmReviewer.Review: a batch size of zero, on which the code raises.
- LlmReview: building providers, retries inside one provider, parsing of answers; the two cache dictionaries, always written together, are one.
- SafePatch.Target.Apply: the temporary file, backup names, line-end conversion.
- Servers, bridges, scanners and probes: they hold no state with an invariant worth stating.

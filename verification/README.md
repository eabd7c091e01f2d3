# A verified model of the secondary brain

The repository keeps a local memory for coding agents: transcripts are captured into an event ledger,
claims are distilled into an append-only memory ledger, contradictions are folded and revisions merged,
and a budgeted context is compiled for each session, while several agents share worktrees under writer
leases. This project models the parts of that system whose correctness spans many calls, and proves what
they promise over every input, every interleaving and every run.

## How the model is laid out

- `Common`, `Text`, `Sequences`, `Json`: options and results, characters and trimming, filtering and stable
  sorting with their laws, JSON documents.
- `Lease`: the writer-lease table and its event log. `Db` and its functions say what one transaction does;
  `LeaseStore` performs the same transactions on its fields. `LeaseOutcomes` says what each of them gives,
  field by field.
- `Memory`, `Supersession`, `SupersessionLaws`, `Resolver`: the memory record, what the conflict resolver
  decides, the laws of its decisions, and the resolver as it runs, with drained vectors and an ordered map.
- `ResolverOutcomes`, `TextLaws`: what is current or in conflict, in the words of the records themselves, and
  what trimming, folding and collapsing do to a text.
- `MemoryLedger` (`Ledger.dfy`): the versions of one project, what may be appended, and what is live. The
  law of an append, `LiveAfterAppend`, carries everything above it.
- `Reconcile`, `ReconcileFixpoint`, `ReconcileTheorem`: the resolution rules, one fold, a run of folds, and
  the fixpoint. `FoldOutcomes` says what becomes of each side.
- `Merge`, `Revise`: validating and writing a merge; applying a reviewed sheet, or drafts without a review.
- `MergeRuns`, `ReviewedMerges`, `UnreviewedMerges`: what a run of merges keeps track of, when each kind of
  run conserves, and how it can be foreseen from the ledger it starts on.
- `MergedClaims`: what a merge, a sheet and a run without a review write and report, field by field.
- `RevisionSearch`: the search for claims worth revising.
- `Statuses`, `TruthfulStatuses`, `Corrections`: the commands of the command line that write memories, put
  together into runs; when a status tells the truth; and the corrections filed through the service.
- `WriteOutcomes`: what each of these writes stores, and how it is refused.
- `Witnesses`: concrete ledgers on which a run of merges does not conserve.
- `Jsonl`, `Claude`, `Capture`: the line reader, the transcript adapter with its keys, and capture as a
  whole.
- `TokenBudget`, `Compiler`, `Selection`, `LlmWiki`: the token counter, the greedy packer, what is offered
  to it, and the trimming loop.
- `Providers`, `Claims`, `InstallHooks`, `SessionStatus`: the circuit breaker, path claims, the settings
  editor and the session list; `ProviderOutcomes`, `ClaimOutcomes`, `HookOutcomes`, `SessionOutcomes`: what
  each of them answers or writes, field by field.

Times are integers of nanoseconds, identifiers are natural numbers (time-ordered identifiers are compared),
and a fresh identifier is one above all in use. A run of merges is foreseen as long as nothing in its input
names a memory that this very run makes. Code that updates state is a class or a method with loops,
proved equal to a function of its inputs or of the old state; the laws are lemmas about that function. The
modules named for outcomes state what that function yields in terms of the fields of the records alone.

## What turned out differently from the documentation

- `propose_for` says its rules apply in order. Each rule scores every side, not the sides the earlier rule
  left level: between two sides that is the lexicographic order (`TwoSidesAreLexicographic`), with three it
  is not (`EvidenceMayKeepTheOldest`), and `RulesAreLexicographicIff` says when it is. The authority rule never decides anything the resolver reports
  (`AuthorityNeverDecides`).
- `apply_reviewed` means to refuse a side that was superseded since the sheet was written. It looks at the
  status only, and a claim retracted by filing a correction keeps the status current
  (`RetractionHidesFromStatus`), so it is merged and the number of live memories does not go down. A sheet
  conserves exactly when no applied merge has such a side (`ReviewedMergesConserve`), which can be read off
  the ledger before the sheet is applied (`SheetGoesAsPlanned`). Retracting by filing is the only command of the
  command line that makes a status stop telling the truth (`StepTellsIff`). `SheetMergesARetractedClaim` is
  a run of it.
- A correction through the service appends a current version without looking at the memory's status, so it
  brings back a superseded or invalid memory; exactly when is `CorrectionRevivesIff`.
- `merge_candidates` looks at no status at all, applies every accepted draft whatever the drafts before it
  used (`DraftsGoAsPlanned`), and so can use one memory twice (`SharedSideIsMergedTwice`). It can also drop
  an event that only the older claim cites, as the reply need only keep what the newer side alone saw
  (`DropsCitationIff`, `OneDraftDropsACitation`). When a run conserves is `UnreviewedMergesConserveIff`.
- A lease fences stale tokens within one incarnation only: a release followed by an acquisition starts
  again at generation 1 (`TokenAfterReacquisition`). Exclusion needs a clock that does not go back before the
  calls that start a stretch of ownership (`AtMostOneWriterIfStartsAreLate`, `SlowClockOverlaps`). A session whose free-form harness spells a known one cannot use its own lease
  (`HolderIsRecognised`).
- The claim test misses globs that put a wildcard inside a component (`MidComponentGlobMisses`); exactly
  when it misses an overlap is `OverlapIsMissedIff`.
- Normalizing a claim twice can differ from normalizing it once (`NormalizeTwiceMayDiffer`): it does not
  exactly when the first and last components that are kept have no whitespace at the outer ends
  (`NormalizeTwiceIff`).
- The provider cache is kept by project, so an answer can come from another worktree
  (`CachedAnswerInWorktreeIff`, `CacheCrossesWorktrees`). The open window is counted from the beginning of the
  call that failed last, so a call that began early and fails late shortens it (`RunKeepsInv`).
- A Claude hook is recognized by the first word of its path, so an installation under a directory with a
  space is not idempotent (`ClaudeRecognizedIff`, `PathIsCutAtWhitespace`, `UnrecognizedInstallRepeats`). A
  Codex hook is recognized by either of its two spellings (`CodexRecognizedIff`).

## Model

| member | source | states |
|---|---|---|
| Lease.SessionRoundTrip | crates/brain-coordination/src/lease.rs:448-462 | storing and loading a session gives it back exactly when its free-form harness does not spell a known one |
| Lease.RunKeepsInv | crates/brain-coordination/src/lease.rs:56-241 | over every run and every clock, each row has acquired <= renewed < expires, a generation that fits its column, and a worktree no other row has |
| Lease.StepIsOneEvent | crates/brain-coordination/src/lease.rs:362-395 | a call either changes neither table nor log, or logs one event that is legal after the log and that the table follows |
| Lease.LogRefinesTable | crates/brain-coordination/src/lease.rs:74-128 | after every run, replaying a task's events gives its owner and generation or its absence, and the log is a chain of incarnations |
| Lease.GenerationCountsOwnerChanges | crates/brain-coordination/src/lease.rs:93-112 | until a release a row survives and its generation is the old one plus the number of takeovers and handoffs |
| Lease.StaleTokenIsFenced | crates/brain-coordination/src/lease.rs:182-229 | once a task changed hands, no earlier token renews, releases or hands off before a release, and trying leaves the database as it was |
| Lease.TokenAfterReacquisition | crates/brain-coordination/src/lease.rs:170-199 | after a release and a later reacquisition by the same session, whatever ran in between and for whatever duration, an old token is accepted exactly when its generation was 1 |
| Lease.HolderIsRecognised | crates/brain-coordination/src/lease.rs:56-157 | a session can use the lease it just acquired, renewed or took over exactly when it is canonical |
| Lease.AcquireSucceedsIff | crates/brain-coordination/src/lease.rs:56-131 | exactly when an acquisition succeeds, for absent, running and expired rows |
| Lease.TraceRunKeepsInv | crates/brain-coordination/src/lib.rs:74-84 | with a forward clock, ended stretches of ownership of a worktree and the present one follow each other |
| Lease.AtMostOneWriter | crates/brain-coordination/src/lease.rs:56-241 | with a forward clock, no two stretches of ownership of a worktree share an instant, over all runs, tasks, sessions and generations |
| Lease.AtMostOneWriterIfStartsAreLate | crates/brain-coordination/src/lease.rs:56-241 | the same for any clock that is not before the end of an earlier stretch in the worktree at the calls that start one |
| Lease.ForwardClockStartsLate | crates/brain-coordination/src/lease.rs:56-241 | a forward clock is such a clock |
| Lease.TraceRunsTheDatabase | crates/brain-coordination/src/lease.rs:56-241 | the traced run is the run of the database |
| Lease.SlowClockOverlaps | crates/brain-coordination/src/lease.rs:201-241 | with a clock that goes back, a handoff makes two stretches of ownership overlap |
| Lease.LeaseStore.StoreLease | crates/brain-coordination/src/lease.rs:325-360 | a row is stored exactly when the constraints hold, and otherwise the rows are unchanged |
| Lease.LeaseStore.AppendEvent | crates/brain-coordination/src/lease.rs:362-395 | one event is appended, or none when a number does not fit its column |
| Lease.LeaseStore.AcquireLease | crates/brain-coordination/src/lease.rs:56-131 | the method has the effect and the result of the transaction on the whole state, or leaves it alone |
| Lease.LeaseStore.RenewLease | crates/brain-coordination/src/lease.rs:133-168 | likewise for renewal |
| Lease.LeaseStore.ReleaseLease | crates/brain-coordination/src/lease.rs:170-199 | likewise for release |
| Lease.LeaseStore.HandoffLease | crates/brain-coordination/src/lease.rs:201-241 | likewise for handoff |
| LeaseOutcomes.AcquireMeans | crates/brain-coordination/src/lease.rs:56-131 | exactly when an acquisition succeeds and why it is refused; a first lease, a renewal or a takeover, each field of the row, of the event and of what is returned |
| LeaseOutcomes.RenewMeans | crates/brain-coordination/src/lease.rs:133-168 | exactly when a renewal succeeds, and that it moves the renewal time, never back, and the expiry, and nothing else |
| LeaseOutcomes.ReleaseMeans | crates/brain-coordination/src/lease.rs:170-199 | exactly when a release succeeds, that it takes the row away and logs who held it, and leaves every other row |
| LeaseOutcomes.HandoffMeans | crates/brain-coordination/src/lease.rs:201-241 | exactly when a handoff succeeds; the lease, the row and the event then name the next session for thirty minutes at one more generation, the event names who gave it, the next session can use it exactly when it is canonical, and the old token is refused |
| LeaseOutcomes.EndedStretch | crates/brain-coordination/src/lease.rs:56-241 | a stretch ends when its row goes or changes generation, at the expiry or at the call, whichever is first |
| LeaseOutcomes.RunningStretch | crates/brain-coordination/src/lease.rs:56-131 | a stored row is in a stretch from its acquisition to its expiry |
| Supersession.ResolveConserves | crates/brain-context/src/supersession.rs:49-125 | every candidate in scope is current, historical or a side of a conflict, exactly once |
| Supersession.ResolveIgnoresOrder | crates/brain-context/src/supersession.rs:49-133 | with versions that identify records, the result does not depend on the order of the candidates |
| SupersessionLaws.WinnersOutrank | crates/brain-context/src/supersession.rs:84-111 | a winner has the highest authority of its subject and every record level with it says the same |
| SupersessionLaws.ConflictsAreTopDisagreements | crates/brain-context/src/supersession.rs:84-105 | a conflict lists exactly the standing records of the highest authority on its subject, and two of them differ |
| SupersessionLaws.OneVerdictPerSubject | crates/brain-context/src/supersession.rs:84-111 | a subject with a standing record has a winner or a conflict, according to whether its contenders agree, and no other subject has either |
| SupersessionLaws.VerdictsAreUnique | crates/brain-context/src/supersession.rs:84-111 | no subject has two winners or two conflicts |
| SupersessionLaws.ResolvingIsIdempotent | crates/brain-context/src/supersession.rs:49-125 | resolving the winners again returns them, with no history and no conflict |
| SupersessionLaws.WeakerRecordOnlyAddsHistory | crates/brain-context/src/supersession.rs:84-111 | a record without edges that a standing record outranks changes only the history, wherever it is added |
| ResolverOutcomes.PrecedesIff | crates/brain-context/src/supersession.rs:127-133 | the priority is the authority, then the later recording, then the confidence, then the version |
| ResolverOutcomes.CurrentIff | crates/brain-context/src/supersession.rs:49-125 | a record is current exactly when it stands, precedes every record that stands on its subject, and no record level with it in authority says something else |
| ResolverOutcomes.ConflictSays | crates/brain-context/src/supersession.rs:84-105 | a conflict lists the strongest standing records of its subject, all of them, by precedence, and two of them say different things |
| ResolverOutcomes.ListsAreInOrder | crates/brain-context/src/supersession.rs:112-119 | winners and conflicts come by subject, history by recording time and version, the latest first |
| TextLaws.SameSubjectIff | crates/brain-context/src/supersession.rs:135-146 | two memories are about one subject exactly when their kinds are one and their titles are but for case and spacing |
| TextLaws.CollapseAcross | crates/brain-context/src/supersession.rs:148-150 | across whitespace what is left of each side is joined by one space, and an empty side adds nothing |
| TextLaws.LowerMeans | crates/brain-context/src/supersession.rs:148-150 | lower-casing changes the ASCII capitals, each where it stands, and nothing else |
| TextLaws.TrimMeans | crates/brain-context/src/merge.rs:111-112 | trimming takes whitespace off both ends, all of it, and nothing else |
| Resolver.ResolveCandidates | crates/brain-context/src/supersession.rs:49-125 | the loops over vectors, the ordered map and the closing sorts compute the resolver's function; the closing sorts move nothing |
| Resolver.Disagree | crates/brain-context/src/supersession.rs:97-101 | more than one distinct text means two contenders differ from each other |
| MemoryLedger.AppendGrowsIff | crates/brain-store/src/memory.rs:15-158 | the ledger grows exactly by an acceptable version, and an append succeeds exactly then or on a replay |
| MemoryLedger.AppendIsSafe | crates/brain-store/src/memory.rs:15-158 | every append leaves a sound ledger: known evidence and edges, stable kinds, distinct versions |
| MemoryLedger.LiveAfterAppend | crates/brain-store/src/memory.rs:387-490 | what one append does to the list of live memories, in order: which leave, which stay, and whether the new version joins |
| MemoryLedger.LiveOnce | crates/brain-store/src/memory.rs:387-490 | no version is listed as live twice |
| MemoryLedger.LiveIsUnsuperseded | crates/brain-store/src/memory.rs:403-421 | no live version is the target of an edge of any version |
| MemoryLedger.LiveIsCurrent | crates/brain-store/src/memory.rs:286-291 | a lookup of a live memory returns the record that is listed |
| MemoryLedger.ForgetIsSafe | crates/brain-store/src/tombstone.rs:41-77 | withdrawing keeps the ledger sound and withdraws only stored memories |
| MemoryLedger.EventLedger.AppendMemory | crates/brain-store/src/memory.rs:15-158 | the transaction has the effect and the result of the append function |
| MemoryLedger.EventLedger.ForgetMemory | crates/brain-store/src/tombstone.rs:41-77 | the method has the effect and the result of the withdrawal function |
| WriteOutcomes.AppendSays | crates/brain-store/src/memory.rs:15-158 | by which rule, the first it breaks, a version is refused, with the ledger left as it was, or that it is not |
| WriteOutcomes.LiveIff | crates/brain-store/src/memory.rs:387-490 | a version is live exactly when it is the newest of its memory, current or in conflict, not withdrawn, and superseded by none |
| WriteOutcomes.ForgetSays | crates/brain-store/src/tombstone.rs:41-77 | withdrawing succeeds exactly on a stored memory, hides it and its live version, and touches no other |
| Reconcile.ProposalMeaning | crates/brain-cli/src/reconcile.rs:108-170 | a side that stands out by a rule is kept by that rule, if no earlier rule makes a side stand out |
| Reconcile.UndecidedIff | crates/brain-cli/src/reconcile.rs:127-170 | no side is kept exactly when no rule makes one stand out |
| Reconcile.RulesCompare | crates/brain-cli/src/reconcile.rs:135-150 | the rules compare the authority, the date in whole seconds and the number of cited events |
| Reconcile.OthersInOrder | crates/brain-cli/src/reconcile.rs:151-166 | the sides to supersede are all but the kept one, in the order of the conflict |
| Reconcile.AuthorityNeverDecides | crates/brain-cli/src/reconcile.rs:135-166 | the authority rule decides no conflict that the resolver reports |
| Reconcile.TwoSidesAreLexicographic | crates/brain-cli/src/reconcile.rs:108-170 | between two sides, the rules are the lexicographic order of authority, date and evidence |
| Reconcile.EvidenceMayKeepTheOldest | crates/brain-cli/src/reconcile.rs:135-166 | with three sides, two newer ones level on date, the oldest side can be kept for its evidence |
| Reconcile.RulesAreLexicographicIff | crates/brain-cli/src/reconcile.rs:108-170 | for any number of sides level on authority, exactly when the rules keep the side that outweighs every other |
| Reconcile.Propose | crates/brain-cli/src/reconcile.rs:82-101 | one proposal for each conflict, in order, and the number of undecided ones |
| Reconcile.ApplyProposals | crates/brain-cli/src/reconcile.rs:204-265 | the loop over proposals, with its lookups and appends, has the effect and the report of the apply function; what that leaves of each side is `ReconcilingSettlesEachSide` |
| ReconcileFixpoint.FoldReplacesTheSides | crates/brain-cli/src/reconcile.rs:225-252 | a fold never fails; the sides leave the live memories, the kept side's revision takes their place, all else stays in order; a step towards `ReconcilingSettlesEachSide` |
| ReconcileFixpoint.ApplyMakesProgress | crates/brain-cli/src/reconcile.rs:204-265 | a run of folds never fails, the live memories shrink by the reported number and the report counts each conflict once |
| ReconcileTheorem.ConflictsAreSeparate | crates/brain-context/src/supersession.rs:84-105 | no live memory is a side of two conflicts, nor listed twice in one |
| ReconcileTheorem.ConflictsAfterFolds | crates/brain-cli/src/reconcile.rs:204-265 | after the folds the resolver reports exactly the undecided conflicts |
| ReconcileTheorem.ReconcileReachesAFixpoint | crates/brain-cli/src/reconcile.rs:204-265 | on any sound ledger apply succeeds, leaves exactly the undecided conflicts, shrinks the live memories by its report, loses no version, and applied again folds nothing and changes nothing |
| FoldOutcomes.ReconcilingSettlesEachSide | crates/brain-cli/src/reconcile.rs:204-265 | after apply on any sound ledger, the live version of a kept side has that side's title, content, kind, scope, dates, confidence, authority and evidence and supersedes exactly the other sides; each of those is what it was, marked superseded and not live; the sides of an undecided conflict are untouched and live |
| FoldOutcomes.ReconcilingLeavesTheRest | crates/brain-cli/src/reconcile.rs:204-265 | a memory that is a side of no decided conflict is what it was |
| ReconcileTheorem.ListingOrderDoesNotMatter | crates/brain-store/src/memory.rs:387-490 | the order in which the ledger lists live memories does not change what is proposed |
| Merge.ValidationMeans | crates/brain-context/src/merge.rs:107-163 | a merge passes exactly when it is cited from the pair, keeps the unseen evidence and is shorter; what passes is trimmed, with increasing citations |
| Merge.RejectionSays | crates/brain-context/src/merge.rs:107-163 | for which reason, each once those before it are met, a merge is refused, and what the refusal names |
| Merge.MergeAcceptableIff | crates/brain-cli/src/revise.rs:260-305 | a validated merge can be appended exactly when its sides are two memories and its text fits, whatever their statuses |
| Merge.MergeReplacesThePair | crates/brain-cli/src/revise.rs:260-305 | the pair leaves the live memories, the merged claim joins, and no version is lost |
| MergedClaims.MergeMeans | crates/brain-cli/src/revise.rs:260-305 | exactly one live memory is new; it has the stronger authority of the pair, the smaller confidence, the newer kind and date, no end date and the validated text and evidence; each side is what it was, marked superseded; every other memory is untouched |
| MergedClaims.AuthoritiesInOrder | crates/brain-context/src/authority.rs:3-12 | the order of the authorities, from external documents to live state |
| Merge.RefusedMergeWritesNothing | crates/brain-cli/src/revise.rs:260-305 | a merge that cannot be appended leaves the ledger as it was |
| Revise.MergeDelta | crates/brain-cli/src/revise.rs:260-305 | the exact change of the live count and of the cited events; one memory less exactly when both sides are live |
| ReviewedMerges.ItemKeepsProgress | crates/brain-cli/src/revise.rs:388-483 | on any sound ledger an item fails exactly when it is unwritable, leaving the ledger alone, and otherwise keeps the account of the run |
| MergeRuns.MergeKeepsTrack | crates/brain-cli/src/revise.rs:260-305 | one more merge in any run: the live count falls by one but for wasted sides, the sides are retired, and every other memory keeps its record and its liveness |
| MergeRuns.NothingWastedIff | crates/brain-cli/src/revise.rs:260-305 | no side of a run is wasted exactly when every memory is used once and none was dead at the start |
| ReviewedMerges.ReviewedMergesConserve | crates/brain-cli/src/revise.rs:388-483 | any sheet on any sound ledger: no version lost, no memory used twice, applied merges counted, the exact change of the live count and of the cited events; it conserves exactly when no applied side was dead at the start |
| ReviewedMerges.TruthfulSheetConserves | crates/brain-cli/src/revise.rs:388-483 | where statuses tell the truth, every sheet conserves |
| ReviewedMerges.SheetGoesAsPlanned | crates/brain-cli/src/revise.rs:388-483 | exactly when a sheet succeeds, and which items it merges, read off the ledger before it is applied, whatever known or unknown memories it names, short of those the run itself makes |
| MergedClaims.ReviewedMergesJoin | crates/brain-cli/src/revise.rs:388-483 | what a sheet makes: one claim for each item it merges, in order, joining the item's pair field by field under the approved text with all the pair's evidence; the other live memories stay |
| MergedClaims.ItemSays | crates/brain-cli/src/revise.rs:394-481 | when an item is passed over, refused or merged, by its decision, the statuses of its pair and the lengths of the texts, and what the report gains |
| ReviewedMerges.DraftedSheetNamesNothingMade | crates/brain-cli/src/revise.rs:388-483 | identifiers given out before a run are never made by it |
| Witnesses.SheetMergesARetractedClaim | crates/brain-cli/src/revise.rs:388-483 | a ledger, a retraction and a one-item sheet after which the live count has not fallen by the merges applied |
| Revise.OnlyApprovalWrites | crates/brain-cli/src/revise.rs:395-399 | a sheet without an approval writes and reports nothing |
| Revise.DraftingWritesNothing | crates/brain-cli/src/revise.rs:566-574 | without apply the unreviewed path writes nothing |
| UnreviewedMerges.UnreviewedMergesCount | crates/brain-cli/src/revise.rs:495-603 | any drafts on any sound ledger: no version lost, and the live count falls by the merges applied exactly when they share no side and no side was dead at the start |
| UnreviewedMerges.DraftsGoAsPlanned | crates/brain-cli/src/revise.rs:495-603 | exactly when a run succeeds, and that it applies every draft accepted on the starting ledger |
| MergedClaims.UnreviewedMergesJoin | crates/brain-cli/src/revise.rs:495-603 | what a run makes: one claim for each accepted draft, in order, joining its pair field by field under the reply's text and evidence; the other live memories stay |
| MergedClaims.DraftSays | crates/brain-cli/src/revise.rs:505-600 | when a candidate is passed over, refused, proposed or applied, and what the report gains |
| UnreviewedMerges.FoundCandidatesAreNotMade | crates/brain-cli/src/revise.rs:495-603 | candidates found in the ledger name nothing that the run makes, so their run is foreseen |
| UnreviewedMerges.PlanUsesOnceIff | crates/brain-cli/src/revise.rs:495-603 | a run uses each memory once exactly when no two accepted drafts share a side on either hand |
| UnreviewedMerges.UnreviewedMergesConserveIff | crates/brain-cli/src/revise.rs:495-603 | what a run leaves live and cited, and exactly when it conserves the count and the citations, all read off the ledger and the drafts |
| UnreviewedMerges.DropsCitationIff | crates/brain-context/src/merge.rs:107-163 | exactly when an unreviewed merge drops a citation: neither the reply nor a live claim outside the pair cites the event |
| Witnesses.OneDraftDropsACitation | crates/brain-context/src/merge.rs:107-163 | a ledger and one accepted draft after which a cited event is cited no more |
| UnreviewedMerges.SharedSideIsMergedTwice | crates/brain-cli/src/revise.rs:495-603 | two acceptable drafts that share any side are both applied in one run, and the live count does not fall by two |
| Revise.WriteMergeTo | crates/brain-cli/src/revise.rs:260-305 | the appends of a merge have the effect and the result of the merge function, which `MergeMeans` spells out |
| Revise.ApplyReviewSheet | crates/brain-cli/src/revise.rs:388-483 | the loop over items has the effect and the report of the sheet function |
| Revise.MergeCandidates | crates/brain-cli/src/revise.rs:495-603 | the loop over drafts has the effect and the report of the drafts function |
| RevisionSearch.BuildIndex | crates/brain-cli/src/revise.rs:109-116 | each cited event maps to the ids of the claims citing it, in listing order, and no other event is in the index |
| RevisionSearch.SearchIndex | crates/brain-cli/src/revise.rs:118-163 | whatever order the index yields its events in, every pair that shares an event is reached, and only those |
| RevisionSearch.ProposeRevisions | crates/brain-cli/src/revise.rs:99-183 | the report holds each listed pair that shares an event and qualifies, once, oriented by date then listing, nothing else, most worth first, with the number of cited events |
| RevisionSearch.ReportSays | crates/brain-cli/src/revise.rs:99-183 | each candidate names the older and the newer of a linked pair, at least two events that only the newer saw and the days between; every such pair has one; the most unseen events come first, then the longest gap |
| RevisionSearch.LiveMemoriesAreListed | crates/brain-store/src/memory.rs:387-490 | a sound ledger lists a memory once and a version's events once |
| Statuses.RulingMeans | crates/brain-cli/src/review.rs:74-103 | a ruling is possible exactly on a proposed memory; approval adds it to the live memories, rejection adds nothing |
| WriteOutcomes.RulingSays | crates/brain-cli/src/review.rs:74-103 | a ruling stores the same claim without edges, current or invalid, and how it is refused |
| WriteOutcomes.FilingSays | crates/brain-cli/src/remember.rs:95-155 | what a filed claim holds, field by field, and how filing is refused with the ledger left as it was |
| WriteOutcomes.RepairSays | crates/brain-cli/src/lint.rs:303-355 | every live claim without a date is redated if one was found, and says the same; every other memory is untouched; the report counts both kinds |
| Statuses.RunIsHealthy | crates/brain-cli/src/review.rs:69-103 | over every sequence of commands, failed or not, the log only grows and no memory leaves a terminal status in it |
| Statuses.TerminalIsForever | crates/brain-cli/src/lint.rs:303-355 | a memory whose latest status is superseded or invalid is so after every further run |
| Statuses.RetractionHidesFromStatus | crates/brain-cli/src/remember.rs:118-145 | a claim retracted by filing a correction stays marked current while it is no longer live |
| TruthfulStatuses.FilingTellsIff | crates/brain-cli/src/remember.rs:95-155 | filing keeps the statuses truthful exactly when it is refused or corrects nothing that is marked current |
| TruthfulStatuses.StepTellsIff | crates/brain-cli/src/remember.rs:118-145 | whatever the command of the command line, truthful statuses stay truthful exactly when it does not retract a claim marked current by filing |
| TruthfulStatuses.RunTells | crates/brain-cli/src/remember.rs:118-145 | over every run that never retracts, what is marked current is live |
| TruthfulStatuses.SheetsConserveAfterRun | crates/brain-cli/src/revise.rs:388-483 | after every such run from an empty ledger, every sheet conserves |
| Corrections.CorrectionWritesIff | crates/brain-service/src/query_api.rs:834-964 | exactly when a correction appends a version, and that nothing else but its audit event is left |
| WriteOutcomes.CorrectionSays | crates/brain-service/src/query_api.rs:834-964 | what a written correction holds, field by field, over the version it corrects |
| WriteOutcomes.CorrectionRefusals | crates/brain-service/src/query_api.rs:834-880 | how a correction is refused before anything is stored, and when it is a replay |
| Corrections.CorrectionRevivesIff | crates/brain-service/src/query_api.rs:940-957 | a correction brings a memory back from superseded or invalid exactly when it is written and names one |
| Corrections.LiveAfterCorrection | crates/brain-service/src/query_api.rs:940-957 | the corrected version leaves the live memories if it was there, and the new one joins unless the memory was withdrawn |
| Corrections.CorrectionTells | crates/brain-service/src/query_api.rs:940-957 | corrections keep the statuses truthful |
| Corrections.WriteStepRevivesIff | crates/brain-service/src/query_api.rs:940-957 | among commands and corrections, a memory leaves a terminal status exactly by such a correction |
| Corrections.WriteStepTellsIff | crates/brain-service/src/query_api.rs:940-957 | among commands and corrections, truthful statuses stay truthful exactly when no claim marked current is retracted by filing |
| Corrections.WriteRunIsHealthy | crates/brain-service/src/query_api.rs:940-957 | over every run of both without such a correction, no memory leaves a terminal status |
| Corrections.CorrectIn | crates/brain-service/src/query_api.rs:834-964 | the method has the effect and the result of the correction function |
| Statuses.RememberIn | crates/brain-cli/src/remember.rs:95-155 | the method has the effect and the result of the filing function |
| Statuses.RuleOn | crates/brain-cli/src/review.rs:74-103 | the method has the effect and the result of the ruling function |
| Statuses.RepairDatesIn | crates/brain-cli/src/lint.rs:303-355 | the loop over misdated claims has the effect and the report of the repair function |
| Jsonl.RecordsTile | crates/brain-adapters/src/jsonl.rs:39-71 | the records tile the stretch from the start to the committed offset, each is one line, and the rest holds no newline |
| Jsonl.RecordsResume | crates/brain-adapters/src/jsonl.rs:32-71 | reading in two steps, with growth between, reads what one step reads |
| Jsonl.NoChangeIff | crates/brain-adapters/src/jsonl.rs:73-75 | no change is reported exactly when the file is not rotated and its unread part holds no newline |
| Jsonl.BatchTiles | crates/brain-adapters/src/jsonl.rs:36-82 | a batch tiles what it read up to its next cursor |
| Jsonl.RotationIsReportedOnce | crates/brain-adapters/src/jsonl.rs:19-31 | a rotated read starts over and says so, and reading on is not reported as a rotation |
| Jsonl.RecordSays | crates/brain-adapters/src/jsonl.rs:39-71 | a record holds its line up to the newline, less one carriage return before it |
| Jsonl.ReadSays | crates/brain-adapters/src/jsonl.rs:12-83 | when a read reports a rotation, of what file and place, and the cursor it hands out |
| Jsonl.ReadIncrement | crates/brain-adapters/src/jsonl.rs:12-83 | the reader computes the outcome function |
| Jsonl.ReadLines | crates/brain-adapters/src/jsonl.rs:36-71 | the loop collects the complete lines and commits past them |
| Claude.EveryLineIsCaptured | crates/brain-adapters/src/claude.rs:94-190 | every line, parsed or not, becomes at least one event |
| Claude.UserLineOrder | crates/brain-adapters/src/claude.rs:96-133 | a user line yields its prompt first and then one outcome for each tool result, in order |
| Claude.UserLineSays | crates/brain-adapters/src/claude.rs:96-133 | the events of a user line: its prompt, and each tool result as failed or completed by its error mark |
| Claude.AssistantLineSays | crates/brain-adapters/src/claude.rs:134-150 | the events of an assistant line: its response, then each tool request |
| Claude.OtherLineSays | crates/brain-adapters/src/claude.rs:151-190 | any other line is one event, of the kind its type names |
| Claude.EventSays | crates/brain-adapters/src/claude.rs:192-221 | each event carries its line's candidate, session, turn and offset, and the key of the candidate's place |
| Claude.FrameIsInjective | crates/brain-adapters/src/claude.rs:244-252 | what is hashed into a key determines source, offset, digest and ordinal |
| Claude.Normalize | crates/brain-adapters/src/claude.rs:192-221 | the loop numbers the candidates and keys each one, or fails when a number does not convert |
| Capture.KeysDiffer | crates/brain-adapters/src/claude.rs:244-252 | the events of lines at different offsets have different keys |
| Capture.InsertOverlap | crates/brain-store/src/ledger.rs:831-899 | inserting by key what overlaps the rows adds only what is new, in order |
| Capture.PollCatchesUp | crates/brain-adapters/src/jsonl.rs:12-83 | a poll whose lines convert leaves exactly the rows of one clean pass over the whole file |
| Capture.FreshIsCaptured | crates/brain-adapters/src/jsonl.rs:12-31 | capture starts in the state that every run keeps |
| Capture.RunCapturesExactlyOnce | crates/brain-adapters/src/jsonl.rs:12-83 | over every schedule of growth, polls and falls back to committed cursors, the rows are those of one clean pass up to the furthest cursor |
| Capture.RowsAreUnique | crates/brain-store/src/ledger.rs:831-899 | no two rows have one key |
| Capture.OnePollCompletes | crates/brain-adapters/src/jsonl.rs:12-83 | after any run one more poll leaves exactly the rows of the newline-terminated content |
| Capture.EventStore.AppendBatch | crates/brain-store/src/ledger.rs:163-197 | rows are inserted by key and the cursor saved together, and the count is the number inserted |
| Capture.PollSource | crates/brain-adapters/src/claude.rs:59-65 | reading, normalizing and appending have the effect of one poll |
| TokenBudget.TokensMonotone | crates/brain-context/src/token_budget.rs:1-21 | a longer text costs at least as much |
| TokenBudget.TokensSubadditive | crates/brain-context/src/token_budget.rs:1-21 | joining two texts costs at most the sum |
| TokenBudget.TokensAdditiveAcrossBlank | crates/brain-context/src/token_budget.rs:1-21 | across whitespace the cost is exactly the sum |
| TokenBudget.WordCosts | crates/brain-context/src/token_budget.rs:1-21 | an ASCII word costs one token for every four characters, rounded up |
| TokenBudget.SymbolCosts | crates/brain-context/src/token_budget.rs:1-21 | whitespace costs nothing, an ASCII symbol one and a character beyond ASCII two, and each ends the word before it |
| TokenBudget.TokenCount | crates/brain-context/src/token_budget.rs:1-21 | the character loop computes the token function |
| Compiler.BodyCostsItsParts | crates/brain-context/src/compiler.rs:506-513 | the packed text costs the header plus the sum of its blocks |
| Compiler.PackedAreTheTaken | crates/brain-context/src/compiler.rs:498-513 | the packed list is exactly the blocks that fitted at their turn, each once and in the order they were offered |
| Compiler.OmittedWouldNotFit | crates/brain-context/src/compiler.rs:506-512 | no omitted block would still fit the packed text |
| Compiler.DistinctKeepsFirstOccurrences | crates/brain-context/src/compiler.rs:514-529 | the seen-set loop keeps each item once, at its first place |
| Compiler.DistinctCitationsByKey | crates/brain-context/src/compiler.rs:514-518 | citations are kept once for each key, first come |
| Compiler.PackBlocks | crates/brain-context/src/compiler.rs:498-529 | packing is first fit by running sum, with the accounting of the blocks taken |
| Compiler.CompileBlocks | crates/brain-context/src/compiler.rs:486-576 | the text costs what it says and at most the smaller of the query's budget and 3000; an id, a version or a citation key is in its own list exactly if a taken block has it, once and in first-come order; truncated exactly if a block was not taken or the index did not fit; the text is the header and each taken block's rendering in order; and which of the two messages is given when nothing is cited |
| Selection.RankingMeans | crates/brain-context/src/compiler.rs:462-484 | ranking permutes, puts fresh before stale and each half in the ranker's order, and keeps the order of what it does not tell apart |
| Selection.RankingOrders | crates/brain-context/src/compiler.rs:462-484 | what comes later is stale, or as fresh and unranked or at no earlier last place in the ranking |
| Selection.ContinuityMeans | crates/brain-context/src/compiler.rs:588-621 | at most four other sessions, each by its first eligible event, and none missed when fewer were met |
| Selection.ContinuityShows | crates/brain-context/src/compiler.rs:588-621 | the events chosen are exactly, in order, those that introduce one of the first four other sessions and have a text |
| Selection.EligibleIff | crates/brain-context/src/compiler.rs:598-610 | which events are eligible |
| Selection.PushCrossSessionContinuity | crates/brain-context/src/compiler.rs:588-621 | the loop with its early stop chooses the same events |
| LlmWiki.RenderedCostIsTheSum | crates/brain-context/src/llm_wiki.rs:274-280 | the rendered list costs the sum of its results |
| LlmWiki.TrimKeepsTheLongestPrefix | crates/brain-context/src/llm_wiki.rs:152-170 | trimming keeps the longest prefix that fits, and cuts only a sole result's content, to a prefix |
| LlmWiki.SoleResultSays | crates/brain-context/src/llm_wiki.rs:152-170 | a sole result is halved exactly as often as it takes to fit, while more than eighty characters are left before each halving, and dropped otherwise |
| LlmWiki.TrimComesToTheFirst | crates/brain-context/src/llm_wiki.rs:152-170 | when no two results fit together, the list comes to what becomes of the first |
| LlmWiki.TrimMatches | crates/brain-context/src/llm_wiki.rs:152-170 | the loop ends, within the budget, with that list |
| Providers.ValidatedIsUsable | crates/brain-context/src/providers.rs:421-448 | a validated result has all its texts, within their limits, and a score between 0 and 1 |
| ProviderOutcomes.KeptIff | crates/brain-context/src/providers.rs:421-448 | exactly when a result is kept; each text is then its own, with whitespace collapsed, cut to its limit, and scope and score are unchanged |
| Providers.CheckMeans | crates/brain-context/src/providers.rs:254-289 | one foreign item condemns a reply; what is kept is usable and in scope |
| Providers.RunKeepsInv | crates/brain-context/src/providers.rs:220-317 | over every interleaving, the counter is the failures since the last success capped at a byte, the window opens at three and ends a fixed time after the last failed call had begun, no call begins inside the window of its moment, the cache is the last fresh answer, and every answer is usable and of the project |
| Providers.OpenCircuitShields | crates/brain-context/src/providers.rs:225-317 | while calls go on ending and none succeeds, no beginning inside the window, or the windows pending calls may still leave, reaches the provider |
| Providers.CachedAnswerInWorktreeIff | crates/brain-context/src/providers.rs:400-419 | over every interleaving, a cached answer stays in the worktree exactly when nothing unexpired is cached, or the last fresh answer was for another project or that worktree, or names no worktree |
| Providers.CacheCrossesWorktrees | crates/brain-context/src/providers.rs:400-419 | a run of two calls in which the answer for one worktree is served to another of the project |
| Providers.CheckItems | crates/brain-context/src/providers.rs:254-270 | the loop over items computes the check function |
| Providers.ProviderGuard.Start | crates/brain-context/src/providers.rs:220-238 | the first half has the effect and the answer of the beginning step, and the provider is asked exactly when the guard is enabled and no window is open |
| Providers.ProviderGuard.Failure | crates/brain-context/src/providers.rs:301-317 | a failure counts, opens the circuit at three and answers from the cache |
| Providers.ProviderGuard.Complete | crates/brain-context/src/providers.rs:239-299 | the second half has the effect and the answer of the finishing step |
| ProviderOutcomes.BeginSays | crates/brain-context/src/providers.rs:220-238 | a beginning is refused when disabled, answered from the cache inside the window, and otherwise goes to the provider |
| ProviderOutcomes.FinishSays | crates/brain-context/src/providers.rs:239-317 | how a call ends: timed out, failed, a scope violation, malformed, or ready with exactly the kept items of the reply, each its own, in order, which become the cache |
| Claims.OverlapIsSymmetric | crates/brain-coordination/src/claims.rs:229-272 | which claim is asked about makes no difference |
| Claims.ChildOfMeansUnder | crates/brain-coordination/src/claims.rs:307-311 | the string test for a child is the prefix test on components |
| Claims.DefiniteIffTheyMeet | crates/brain-coordination/src/claims.rs:260-271 | file and directory claims overlap definitely exactly when some path is in both, and otherwise not at all |
| Claims.GlobMissesIff | crates/brain-coordination/src/claims.rs:249-259 | of compatible literal parts, no overlap is answered exactly when the shorter stops inside a component of the longer; a step towards the next |
| Claims.OverlapIsMissedIff | crates/brain-coordination/src/claims.rs:249-259 | no overlap is answered although some path may be in both claims exactly when one is a glob whose wildcard stands inside a component of the other |
| Claims.NoOverlapMeansApart | crates/brain-coordination/src/claims.rs:249-259 | for globs whose literal part ends a component, no overlap means no common path |
| Claims.MidComponentGlobMisses | crates/brain-coordination/src/claims.rs:313-319 | a glob with its wildcard inside a component does not overlap a file that it matches |
| ClaimOutcomes.NotWeighed | crates/brain-coordination/src/claims.rs:229-235 | claims under an ignored root are ignored, and claims of two projects never overlap |
| ClaimOutcomes.IgnoredIff | crates/brain-coordination/src/claims.rs:297-301 | the roots that are ignored |
| ClaimOutcomes.SymbolsOverlapIff | crates/brain-coordination/src/claims.rs:236-247 | a symbol overlaps the same symbol of the same file definitely, a claim on one line with it possibly, and nothing else |
| ClaimOutcomes.GlobsOverlapIff | crates/brain-coordination/src/claims.rs:248-259 | a glob overlaps possibly without a literal part, probably what its literal part is on one line with, and nothing else |
| ClaimOutcomes.LiteralSays | crates/brain-coordination/src/claims.rs:313-319 | the literal part is everything before the first wildcard |
| ClaimOutcomes.NormalizeSays | crates/brain-coordination/src/claims.rs:274-295 | a normalized path is the components of the input but for the empty and dotted ones, in lower case and in order, or why it is refused |
| Claims.NormalizedIsPlain | crates/brain-coordination/src/claims.rs:274-295 | a normalized path has no empty, dot or dot-dot component, colon, backslash or upper-case letter |
| Claims.NormalizedIsTidy | crates/brain-coordination/src/claims.rs:274-295 | a normalized path has no two slashes in a row, as the facts about globs ask |
| Claims.NormalizeIsIdempotentIff | crates/brain-coordination/src/claims.rs:274-295 | normalizing again changes nothing exactly when the result has no outer whitespace |
| Claims.NormalizeTwiceIff | crates/brain-coordination/src/claims.rs:274-295 | normalizing twice is normalizing once exactly when the first and last components kept of the input have no whitespace at the outer ends |
| Claims.NormalizeTwiceMayDiffer | crates/brain-coordination/src/claims.rs:274-295 | an input on which they differ |
| Claims.NormalizeClaim | crates/brain-coordination/src/claims.rs:274-295 | the loop over components computes the normalization |
| InstallHooks.StripIsIdempotent | crates/brain-cli/src/install_hooks.rs:355-401 | stripping twice is stripping once |
| InstallHooks.StripTouchesOnlyItsEvents | crates/brain-cli/src/install_hooks.rs:355-401 | nothing outside the three events is touched |
| InstallHooks.ForeignCommandsSurvive | crates/brain-cli/src/install_hooks.rs:368-400 | after stripping, an event holds exactly its foreign commands, in order |
| HookOutcomes.OwnedIff | crates/brain-cli/src/install_hooks.rs:312-330 | exactly which commands are ours: of type command, started for one of the harnesses, with a text that names the hook |
| HookOutcomes.StripSays | crates/brain-cli/src/install_hooks.rs:355-401 | stripping takes our commands out of each group, keeps its other fields, takes out the groups that held nothing else, the events with no group left and the hooks with no event left, and keeps the rest in order |
| InstallHooks.PushIsPointwise | crates/brain-cli/src/install_hooks.rs:403-454 | pushing succeeds exactly when each event is absent or an array, and appends one group to each |
| HookOutcomes.PushSays | crates/brain-cli/src/install_hooks.rs:403-454 | after a push each event ends with one more group, and everything else is as it was |
| HookOutcomes.EntrySays | crates/brain-cli/src/install_hooks.rs:403-520 | a group holds the one command under the event's matcher |
| HookOutcomes.ClaudeCommandSays | crates/brain-cli/src/install_hooks.rs:420-452 | the fields of a Claude command |
| HookOutcomes.CodexCommandSays | crates/brain-cli/src/install_hooks.rs:456-546 | the two spellings of a Codex command |
| HookOutcomes.CodexLimitsSay | crates/brain-cli/src/install_hooks.rs:456-520 | the time limit of a Codex command for each event, and the message at a start |
| InstallHooks.RoundTrip | crates/brain-cli/src/install_hooks.rs:355-454 | stripping what was pushed onto a stripped document gives the stripped document back |
| InstallHooks.InstalledCommands | crates/brain-cli/src/install_hooks.rs:80-104 | after an install an event holds its foreign commands in order, then ours |
| HookOutcomes.InstalledIff | crates/brain-cli/src/install_hooks.rs:222-273 | a document counts as installed exactly when each event holds a command of ours, one is for this executable in any case and slashes, and none is for another |
| HookOutcomes.InstallSays | crates/brain-cli/src/install_hooks.rs:80-157 | how an install is refused, in the order of the reasons, when it changes nothing, and when it changes the document |
| InstallHooks.SecondInstallChangesNothing | crates/brain-cli/src/install_hooks.rs:80-104 | after an install that is recognized, a second one finds it current and changes nothing |
| InstallHooks.ClaudeRecognizedIff | crates/brain-cli/src/install_hooks.rs:312-343 | a Claude installation is recognized exactly when the first word of its path names the hook |
| InstallHooks.WholePathIsRead | crates/brain-cli/src/install_hooks.rs:332-343 | on a path without whitespace that is the whole path |
| HookOutcomes.NamesIff | crates/brain-cli/src/install_hooks.rs:339-343 | a path names the hook exactly when its last component, without its extension, spells it in any case |
| HookOutcomes.StemSays | crates/brain-cli/src/install_hooks.rs:339-343 | a name without its extension is what stands before the last dot |
| InstallHooks.PathIsCutAtWhitespace | crates/brain-cli/src/install_hooks.rs:332-343 | on a path with whitespace only the part before it is read |
| InstallHooks.CodexRecognizedIff | crates/brain-cli/src/install_hooks.rs:312-343 | at any path, a Codex installation is recognized exactly when its quoted or its bare spelling is read as naming the hook |
| InstallHooks.CodexIsRecognized | crates/brain-cli/src/install_hooks.rs:522-546 | at a path without a quotation mark that names the hook, a Codex installation is recognized |
| InstallHooks.CodexPathIsReadIff | crates/brain-cli/src/install_hooks.rs:522-546 | at a path with neither quotation mark nor whitespace, it is recognized exactly when the path names the hook |
| InstallHooks.UnrecognizedInstallRepeats | crates/brain-cli/src/install_hooks.rs:93-103 | an installation for either harness that is not recognized is added again by the next one |
| InstallHooks.StripBrainHooks | crates/brain-cli/src/install_hooks.rs:355-401 | the edit computes the stripped document and reports whether a command of ours was there |
| InstallHooks.PushHookEntries | crates/brain-cli/src/install_hooks.rs:403-454 | the edit computes the pushed document or the error |
| SessionStatus.CanonicalIsIdempotent | crates/brain-cli/src/session_status.rs:332-341 | the canonical spelling of a session is its own canonical spelling |
| SessionStatus.SpellingsFoldTogether | crates/brain-cli/src/session_status.rs:332-341 | spellings that end in one identifier, in any case, are one session |
| SessionStatus.RowHasItsKey | crates/brain-cli/src/session_status.rs:182-298 | a row answers to the harness and session it was made for |
| SessionOutcomes.MentionedIff | crates/brain-cli/src/session_status.rs:154-181 | which sessions the telemetry mentions |
| SessionOutcomes.RowSays | crates/brain-cli/src/session_status.rs:182-298 | the first and last time of a row, and its state: historical with nothing but activity, closed with a persisted end, stale when last seen too long ago, active otherwise |
| SessionOutcomes.ListingSays | crates/brain-cli/src/session_status.rs:300-313 | rows come by when they were last seen, the latest first, and then by session |
| SessionOutcomes.FilterSays | crates/brain-cli/src/session_status.rs:300-307 | which rows a filter shows |
| SessionStatus.EveryKeyIsListedOnce | crates/brain-cli/src/session_status.rs:154-313 | under any filter the listing has one row for each mentioned session whose row the filter shows, and no other |
| SessionStatus.PagesPartition | crates/brain-cli/src/session_status.rs:314-330 | following the cursors ends and shows the listing in order, nothing lost or repeated |
| SessionStatus.PagesAreFull | crates/brain-cli/src/session_status.rs:314-330 | no page is over the limit and every page but the last is full |
| SessionStatus.PagingShowsEveryKeyOnce | crates/brain-cli/src/session_status.rs:129-330 | paging through shows each of those sessions once |
| SessionStatus.CursorRoundTrip | crates/brain-cli/src/session_status.rs:146-152 | the decimal cursor a page hands out is read back as its place |
| SessionStatus.ClosedIsForever | crates/brain-cli/src/session_status.rs:235-261 | no further telemetry, clock or limit takes a closed session out of closed |
| SessionStatus.CollectKeys | crates/brain-cli/src/session_status.rs:154-181 | the loops collect the ordered set of keys |
| SessionStatus.FoldSessionStatus | crates/brain-cli/src/session_status.rs:129-330 | the fold returns the requested page of the listing with its cursor, or the error for a bad limit, a foreign project or an unreadable cursor |

## Left out

- Storage: SQL, full-text and vector search, files, subprocesses, HTTP and the service loop; a transaction is one step.
- Lower-casing beyond ASCII: titles, contents, claims and hook commands are folded for ASCII letters only.
- Floating point: confidences are places in their total order, gaps and scores are real numbers; the check that a confidence is between zero and one is part of the type.
- Digests: a line's digest is any 32 bytes, and the final key is identified with what is hashed into it.
- The order of evidence and edges of a loaded version, which the store sorts; the model keeps the order given, and nothing proved depends on it.
- The uniqueness of a memory's projection path, which joins a shortened identifier to a title, and the worktree and task of a memory.
- Several projects in one memory database: the ledger is one project's, and its commands run with that project.
- The listing of active leases, and coordination events read back from the table; the log is read in commit order.
- Dates that `repair_dates` derives from events, and the repair of the events' own dates: the derived dates are an input.
- Event fields that capture copies through, such as branch, times and locator, and rows for quarantined lines and capture gaps.
- The service's other writers of memories: a note import, which writes as a correction does, and consolidation, which files fresh claims.
- The Codex and Hermes adapters, which have the shape of the line reader or page through a database.
- Writing a review sheet and rendering any report; a sheet is an input, and what it does when applied is modelled.
- Blocks the compiler builds from live state, events and memories; they are inputs of the packer.
- The wiki search before its trimming loop, and the score of a result.
- Recording, listing and releasing claims in the table.
- The byte offset at which a session identifier is cut: the model cuts by characters, and only ASCII text is read as an identifier, for which the two agree.
- SessionStatus.FoldSessionStatus: does not model the channel, boundary and capture texts of a row, because only the state of a session decides what is listed.
- Drive prefixes and trailing dot components in the name of a hook executable.

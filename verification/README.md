# Verified model of the NC3 testing platform's state machines

The platform is a web API plus a pool of scan workers over one PostgreSQL
database. Three of its parts have no coordinator, only row locks, unique
constraints and conditional updates, and this project proves that those are
enough:

- **The scan pipeline.** A job fans out into a matrix of scan tasks. Workers
  claim, run and record them, a reaper fails overdue ones, and any finisher may
  close the job. Every committed transaction is one step; between steps a worker
  holds what it still has to do, may crash, and any message may be delivered any
  number of times or never, with any clock reading.
- **Domain verification.** A check reads a challenge, commits, asks resolvers
  over the network, reads the challenge again and writes a proof under a
  platform-wide unique constraint. Other organizations, and the same one, act in
  the gap.
- **The second factor.** Enrollment, confirmation, verification, disabling,
  recovery codes, login and password change over one user's rows, committing on
  return and rolling back on error, except for failure counters.

Around them are the pure and imperative cores they rest on: module discovery and
routing, the engine message loop, the order findings are stored in, label-wise
domain coverage, the acceptance rule for resolver answers, the resolver loop and
its query budget, and the TOTP window.

## How it is built

Each database part exists twice. A specification gives every transaction as a
function on a value holding the rows (`Orchestration.dfy`, `DomainClaims.dfy`,
`Mfa.dfy`). A class with those rows as fields changes them step by step, as the
source does, and every method is proved to leave exactly the specified rows and
answer (`PipelineStore.dfy`, `ClaimsStore.dfy`, `MfaStore.dfy`). The step machines
(`Pipeline.dfy`, `ClaimRuns.dfy`, `MfaRuns.dfy`) apply the specified transactions
to arbitrary sequences of labels, and the guarantees are proved for every such
sequence (`PipelineSafety.dfy`, `PipelineEvents.dfy`, `PipelineStream.dfy`,
`PipelineProgress.dfy`, `ClaimSafety.dfy`, `MfaSafety.dfy`, `MfaLockout.dfy`, `LoginLockout.dfy`).
`PipelineLaws.dfy`, `ClaimLaws.dfy`, `AuthLaws.dfy` and `FindingOrder.dfy` say what
each operation answers and leaves behind, exactly when, in terms of the rows and
inputs alone. Rows marked (corollary) follow from the definitions and the rows around
them without further proof.

Modelling choices a reader should know:

- Each transaction is atomic. Under READ COMMITTED the unlocked reads in
  `regenerate_token`, `regenerate_recovery_codes` and the second phase of
  `run_check` can interleave at statement granularity; that is not modelled.
- A `Db` of the pipeline holds one job; a task's identifier is its position.
- Row-level security is modelled where it decides behaviour: a worker's hint
  reaches a row or the delivery is dropped, and a session without an asserted
  organization sees nothing.
- Tokens, session ids and recovery codes are values supplied by the environment;
  a step that would reuse a token or a session id is not enabled. Recovery codes
  appear as their hashes, passwords as values compared for equality, and the
  TOTP code as an uninterpreted function of seed and step.
- In runs of the authentication requests, a request's session id and its pending
  flag are arbitrary, so a stale view taken by the session gate is covered.
- An operator may release a claim (`docs/verification-claim-release.md`); it is a
  step of the claims machine.

## Findings

- A launch whose modules and target disagree (a file module without an upload, or
  an upload with another module) can be queued but never dispatched: the matrix
  breaks a CHECK, the dispatch rolls back, and the reaper re-publishes it for
  ever. `PipelineSafety.DispatchRefusedExactlyWhen` gives the exact condition and
  `PipelineSafety.AnIllFormedLaunch` a launch that meets it. The launch schema
  refuses such a body (`src/nc3_testing_platform/domains/scans/schemas.py:406-415`);
  `src/nc3_testing_platform/tools/seed_scan.py:45-67` commits one when it is asked
  for the file module, which it sets on a domain target.
- The stream contract (`docs/orchestration.md:104-105`) says nothing follows
  `end`. The code does not keep that: another worker may announce its own
  transition after a sibling closed the job, and a heartbeat that selected the job
  while it ran may be published after it closed. `PipelineStream` has a run of each
  and the exact condition under which the promise holds, over every event of the
  channel.
- `finding_rows` is independent of the order of the findings exactly when no two
  distinct findings are equal up to an empty resource or remediation in place of
  an absent one.
- An engine that ends in budget is recorded as `task.timeout` exactly when the
  fault it reports, or the line it garbles, contains the budget marker; an exit
  without a result never is.
- The `TRANSPORT_FAILURE` row of the no-answer table is never what decides.
- One more agreeing resolver can turn a validated proof into a refusal, exactly
  when it is unvalidated and corroboration does not stand on its own;
  `Verification.OneMoreAgreementCanRefuse` is such an input.
- Wrong confirmation codes are not bounded in time by the lockout. Wrong codes on
  any factor are bounded by the lockouts that fit plus what successful restarts of
  an unconfirmed enrollment forget, and a restart forgets something exactly when
  the failure counter stands above zero. Confirmed factors refuse restarts, and
  with a threshold of one nothing is ever forgotten; for every other threshold, any
  code generator and any fresh seeds, one instant holds arbitrarily many wrong
  six-digit confirmations. The restarts need the password.

## Model

| member | source | states |
|---|---|---|
| Registry.Discover | src/nc3_testing_platform/modules/registry.py:95-153 | the discovery loop accepts a population exactly when every entry loads as a module, names are unique and no test key is claimed twice; otherwise it blames the first entry that breaks this, and says what is wrong with it |
| Registry.Roster.ByTestKey | src/nc3_testing_platform/modules/registry.py:56-64 | resolution returns a declaring entry, and refuses only when no entry declares the key |
| Registry.ResolutionIgnoresOrder | src/nc3_testing_platform/modules/registry.py:56-153 | over an accepted population every rearrangement is accepted and resolves every key alike |
| Registry.UniqueClaimant | src/nc3_testing_platform/modules/registry.py:142-149 | at most one entry of an accepted roster declares a key |
| Catalog.FanOut | src/nc3_testing_platform/modules/catalog.py:80-89 | no module fans out to nothing; the fan-out is exactly its catalog rows, and `not_applicable` marks exactly the file tests |
| Catalog.MatchingInOrder | src/nc3_testing_platform/modules/catalog.py:80-89 | a fan-out keeps catalog order, each test of the module once |
| PipelineStore.PlanTaskMatrix | src/nc3_testing_platform/worker/orchestration.py:116-171 | the planning loops build the specified matrix |
| PipelineSafety.PlanIsFaithful | src/nc3_testing_platform/worker/orchestration.py:116-171 | (corollary) the matrix is launch order by catalog order; a spec has no queue exactly when it is blocked, and its version and queue are the claiming module's |
| PipelineStore.CreateTasks | src/nc3_testing_platform/worker/orchestration.py:174-213 | the loop materializes one row per spec, in order, with target and status as specified |
| PipelineSafety.MatrixChecksExactlyWhen | src/nc3_testing_platform/domains/scans/models.py:199-225 | the new matrix is non-empty and satisfies the task CHECKs exactly when file modules go with an upload target |
| PipelineLaws.ADispatchMeans | src/nc3_testing_platform/worker/tasks.py:153-176 | (corollary) a committed dispatch starts a queued job now and keeps a running one's start; it builds one row per requested test with its target, configuration, version and status, or only blocks what no module serves any more |
| PipelineLaws.RequestedInLaunchOrder | src/nc3_testing_platform/worker/orchestration.py:130-131 | modules fan out one after the other, in launch order |
| PipelineLaws.ADispatchIsAnnounced | src/nc3_testing_platform/worker/tasks.py:177-195 | the dispatcher announces the start exactly when it started the job, and then comes to close it |
| PipelineSafety.PublishedTasks | src/nc3_testing_platform/worker/tasks.py:158-175 | dispatch sends exactly the queued, uncancelled, resolvable tasks, each to its module's queue |
| PipelineLaws.SentInRowOrder | src/nc3_testing_platform/worker/tasks.py:158-175 | children are sent in row order, each at most once |
| PipelineSafety.RoutedTaskIsNotRefused | src/nc3_testing_platform/worker/tasks.py:265-276 | a task routed to a queue is never refused as unavailable or misrouted by a worker of that queue over the same population, in whatever order it discovered it |
| PipelineLaws.ADeliveryStartsExactlyWhen | src/nc3_testing_platform/worker/tasks.py:228-302 | (corollary) a delivery starts a task exactly when its hint names it, it is queued and uncancelled and the worker's roster declares its key on the worker's queue; it is misrouted exactly on another queue, unavailable exactly on none, canceled exactly on a recorded cancellation; nothing else is written |
| PipelineLaws.AHeldTaskWasRouted | src/nc3_testing_platform/worker/tasks.py:265-276 | in every run, a worker holding a task took it from a delivery to a worker whose roster declares the key on that worker's queue |
| PipelineLaws.AClaimIsAnnounced | src/nc3_testing_platform/worker/tasks.py:255-309 | (corollary) the claiming worker announces exactly the transition it committed, then runs the engine or comes to close the job |
| PipelineStore.Store.MarkJobRunning | src/nc3_testing_platform/worker/orchestration.py:216-225 | a queued job starts; any other keeps its status and start |
| PipelineStore.Store.MarkTaskRunning | src/nc3_testing_platform/worker/orchestration.py:228-235 | a queued task starts, anything else is refused and unchanged |
| PipelineStore.Store.MarkTaskTerminal | src/nc3_testing_platform/worker/orchestration.py:238-262 | a live task closes once; a non-terminal target, a blocked one without a reason and an already terminal row are refused unchanged |
| PipelineStore.Store.PersistResult | src/nc3_testing_platform/worker/orchestration.py:276-312 | exactly one result row is appended, built by the row mappers |
| PipelineStore.Store.DispatchTransaction | src/nc3_testing_platform/worker/tasks.py:130-176 | the locked block leaves the specified rows, and rolls everything back when a CHECK would break |
| PipelineStore.Store.ClaimTransaction | src/nc3_testing_platform/worker/tasks.py:228-302 | phase 1 drops what its hint does not reach, ignores duplicates, honors a cancellation, applies the egress gate or starts the row |
| PipelineStore.Store.RecordTransaction | src/nc3_testing_platform/worker/tasks.py:329-358 | phase 3 records exactly one outcome unless the row was closed meanwhile, a cancellation first |
| PipelineLaws.RecordingMeans | src/nc3_testing_platform/worker/tasks.py:329-358 | in every run: a held, live, uncancelled task completes exactly when its module returned a result, which is stored once with its findings as a multiset, its tenant and the five band counts; else it fails, as invalid input exactly on a ValueError, as a timeout exactly on the budget wording, and as an engine error for the rest |
| PipelineLaws.ARecordingIsAnnounced | src/nc3_testing_platform/worker/tasks.py:359-367 | (corollary) the worker announces exactly what it recorded and comes to close the job, or stops when nothing was |
| PipelineStore.Store.ReapTransaction | src/nc3_testing_platform/worker/tasks.py:439-460 | every live task of a stuck job fails with the job timeout, and the failed ones are returned in order |
| PipelineLaws.ASweepMeans | src/nc3_testing_platform/worker/tasks.py:435-482 | exactly the live tasks fail, each is announced, and the close carries the job timeout exactly when work was cut short |
| PipelineLaws.TheReaperSparesFreshJobs | src/nc3_testing_platform/worker/tasks.py:385-422 | (corollary) closed and fresh jobs match neither query |
| PipelineStore.Store.FinalizeJobIfDone | src/nc3_testing_platform/worker/orchestration.py:343-383 | the job closes iff it is open and every child is terminal, and keeps a standing purge deadline |
| PipelineLaws.AFinalizeMeans | src/nc3_testing_platform/worker/orchestration.py:343-383 | a finalize closes exactly an open job whose non-empty matrix is done, now, keeping a standing purge deadline, and announces the state and the end |
| PipelineSafety.OutcomeMeans | src/nc3_testing_platform/worker/orchestration.py:315-340 | the counting rule in words: completed, partial, canceled, failed, each in exactly one situation with its own reason, and an override carried through |
| PipelineSafety.EveryReachableState | src/nc3_testing_platform/domains/scans/models.py:84-145 | under any interleaving the CHECKs hold, results and completed tasks correspond one to one at one instant, and a terminal job has a non-empty all-terminal matrix that derives to its stored state |
| PipelineSafety.StepKeeps | src/nc3_testing_platform/worker/tasks.py:130-460 | every step keeps the rows, the workers' claims and the direction of every row |
| PipelineSafety.ClosedForGood | src/nc3_testing_platform/worker/orchestration.py:364-368 | once the job is terminal no row ever changes again |
| PipelineSafety.TerminalTaskIsFinal | src/nc3_testing_platform/worker/orchestration.py:255-262 | a terminal task never changes, and has exactly one result when completed and none otherwise, stamped with its finish |
| PipelineSafety.CancellationBlocksTheResult | src/nc3_testing_platform/worker/tasks.py:338-356 | a cancellation on record before phase 3 keeps a task from ever gaining a result |
| PipelineSafety.OneWorkerPerTask | src/nc3_testing_platform/worker/tasks.py:230-247 | no two workers ever hold one task, and the hint a worker was given still reaches the job when it closes it |
| PipelineSafety.DispatchRefusedExactlyWhen | src/nc3_testing_platform/worker/tasks.py:153-176 | in any reachable state dispatch is refused by the database exactly when it must build the matrix of an ill-formed launch |
| PipelineSafety.IllFormedLaunchNeverStarts | src/nc3_testing_platform/worker/tasks.py:370-424 | such a launch stays queued without tasks through every run |
| PipelineSafety.AnIllFormedLaunch | src/nc3_testing_platform/tools/seed_scan.py:45-67 | a committed guest launch of the file module on a domain: every dispatch of it, under any roster and at any instant, is refused and no run changes its rows |
| PipelineSafety.RedispatchIsIdempotent | src/nc3_testing_platform/worker/tasks.py:113-176 | delivered again over the rows it left, dispatch changes no row, announces nothing and sends the same children |
| PipelineProgress.FinitelyManyChanges | src/nc3_testing_platform/worker/tasks.py:113-482 | every run makes finitely many state-changing commits, at most three plus twice the matrix |
| PipelineProgress.StepMeasure | src/nc3_testing_platform/worker/orchestration.py:216-262 | each row-changing commit lowers the measure; redeliveries are no-ops |
| PipelineProgress.SweepThenFinalizeCloses | src/nc3_testing_platform/worker/tasks.py:435-482 | a sweep and a later finalize close the job whatever is interleaved |
| PipelineProgress.OneDispatchOneSweepCloses | src/nc3_testing_platform/worker/tasks.py:370-482 | from any reachable open job of a well-formed launch, one dispatch and one overdue sweep close it |
| PipelineProgress.ReaperCoversEveryOpenJob | src/nc3_testing_platform/worker/tasks.py:385-422 | past its deadlines every open job matches one of the reaper's two queries |
| PipelineEvents.EventsFollowCommits | src/nc3_testing_platform/worker/tasks.py:98-110 | whatever is published, or about to be, names a state some earlier prefix of the run committed, with its reason and instant; a heartbeat, that the job was running |
| PipelineEvents.AtMostOneRunningAndOneEnd | src/nc3_testing_platform/worker/tasks.py:156-183 | per job at most one running event and at most one end are ever published, never before their commit |
| PipelineEvents.EndIsFinal | src/nc3_testing_platform/worker/events.py:107-134 | end carries the status and instant the database keeps for ever |
| PipelineStream.NothingFollowsExactlyWhen | src/nc3_testing_platform/worker/events.py:115-134 | once a job is closed, nothing more can be published, heartbeats included, exactly when no worker still owes an event |
| PipelineStream.ATaskEventCanFollowEnd | src/nc3_testing_platform/worker/tasks.py:281-290 | from the seeding tool's rows: a worker refuses the task it was sent, and its event follows the end the dispatcher publishes |
| PipelineStream.AHeartbeatCanFollowEnd | src/nc3_testing_platform/worker/tasks.py:485-505 | from the same rows: a heartbeat selected while the job ran follows end |
| EngineRunner.RunEngine | src/nc3_testing_platform/modules/execution.py:240-277 | for every pipe trace and clock: it raises exactly when an undecodable message decides the run; otherwise exactly one of report and error comes back, success exactly when the deciding message is a well-formed result in budget, and the progress before it is relayed in order |
| EngineRunner.EndingMeans | src/nc3_testing_platform/modules/execution.py:240-277 | (corollary) the first turn that is neither progress nor a null report in time decides: late or silent is a timeout, a report the result, and the end of the stream, a fault and a malformed message each their error |
| EngineRunner.ReadingMeans | src/nc3_testing_platform/modules/execution.py:258-274 | (corollary) a message is read by its kind, and only with the fields that kind needs |
| EngineRunner.ProgressGoesTurnByTurn | src/nc3_testing_platform/modules/execution.py:259-264 | the relayed lines are those of the turns, one after the other |
| FailureReasons.TimeoutReasonExactlyWhen | src/nc3_testing_platform/worker/orchestration.py:83-94 | over every trace, a run is recorded as a timeout exactly when its deciding turn is out of budget, or in time with the marker in the fault the engine reports or the line it garbles; an exit never is |
| FailureReasons.BudgetKillIsATimeout | src/nc3_testing_platform/worker/orchestration.py:72-94 | the runner's wording of a budget kill always reaches the timeout reason |
| FailureReasons.EngineWordingCanClaimATimeout | src/nc3_testing_platform/worker/orchestration.py:92-93 | an engine failing in time can be recorded as a timeout by its wording |
| Findings.SeverityCounts | src/nc3_testing_platform/modules/normalization/findings.py:72-87 | the counting loop fills all five bands with the number of findings of each |
| Findings.CountsSumToTotal | src/nc3_testing_platform/modules/normalization/findings.py:72-87 | the bands sum to the number of findings |
| Findings.CountsIgnoreOrder | src/nc3_testing_platform/modules/normalization/findings.py:72-87 | the counts are the same for every permutation |
| Findings.OrderingSorts | src/nc3_testing_platform/modules/normalization/findings.py:122-138 | ordering keeps the multiset and ascends in the key |
| FindingOrder.RowsAreInOrder | src/nc3_testing_platform/modules/normalization/findings.py:90-138 | the stored rows: severity never rises, and within one severity check id, resource with absence first, title, description, remediation, evidence and references ascend as text, one after the other |
| FindingOrder.RowsReadBack | src/nc3_testing_platform/modules/normalization/rows.py:106-120 | reading the rows back gives the findings, as a multiset |
| FindingOrder.CountIsBandSize | src/nc3_testing_platform/modules/normalization/findings.py:84-87 | each count is the number of findings of its severity |
| Findings.OrderingIsStable | src/nc3_testing_platform/modules/normalization/findings.py:138-138 | findings of one key keep their arrival order |
| Findings.RowsIgnoreOrderExactlyWhen | src/nc3_testing_platform/modules/normalization/rows.py:83-120 | the stored rows are independent of arrival order exactly when no two distinct findings are equal up to an empty text in place of an absent one |
| Findings.RerunStoresTheSameRows | src/nc3_testing_platform/modules/normalization/rows.py:91-93 | an unchanged re-run stores the same rows, when no optional text is present but empty |
| Findings.EmptyTextBreaksTheOrder | src/nc3_testing_platform/modules/normalization/findings.py:110-119 | an empty resource beside an absent one makes the rows depend on arrival order |
| JsonText.DumpsIsInjective | src/nc3_testing_platform/modules/normalization/findings.py:118-118 | two reference lists render to one JSON text only when they are equal |
| JsonText.DumpsReadsBack | src/nc3_testing_platform/modules/normalization/findings.py:118-118 | a JSON reader (section 7 of RFC 8259) gets the rendered reference list back |
| DomainNames.CoversExactlyWhen | src/nc3_testing_platform/domains/assets/verification.py:82-133 | on any two spellings the label test is "usable, and equal, or for a zone ending in a dot plus the proof's name" |
| DomainNames.LabelsIgnoreCase | src/nc3_testing_platform/domains/assets/verification.py:90-102 | the case of ASCII letters does not matter to a name |
| DomainNames.LabelsIgnoreBlanks | src/nc3_testing_platform/domains/assets/verification.py:90-90 | neither do blanks around it |
| DomainNames.LabelsIgnoreTheRoot | src/nc3_testing_platform/domains/assets/verification.py:91-101 | one trailing dot does not matter, two make no name |
| DomainNames.LabelsAreClean | src/nc3_testing_platform/domains/assets/verification.py:96-102 | no label of a usable name is empty or upper-case |
| DomainNames.SplitOfJoin | src/nc3_testing_platform/domains/assets/verification.py:99-102 | splitting undoes joining dot-free labels |
| DomainNames.JoinOfSplit | src/nc3_testing_platform/domains/assets/verification.py:99-102 | joining undoes splitting |
| DomainNames.NoDotNoCoverage | src/nc3_testing_platform/domains/assets/verification.py:112-115 | a name that merely ends in the same letters is outside the zone |
| DomainNames.ZoneCoverageIsReflexive | src/nc3_testing_platform/domains/assets/verification.py:131-132 | a zone covers its own apex |
| DomainNames.ZoneCoverageIsAntisymmetric | src/nc3_testing_platform/domains/assets/verification.py:131-132 | canonical names that cover each other are equal |
| DomainNames.ZoneCoverageIsTransitive | src/nc3_testing_platform/domains/assets/verification.py:131-132 | coverage passes down the tree |
| DomainNames.CoveringZonesAreNested | src/nc3_testing_platform/domains/assets/verification.py:105-133 | two zones covering one name are nested |
| Verification.CuttingDoesNotMatter | src/nc3_testing_platform/domains/assets/verification.py:139-140 | where a record is cut into character-strings does not matter |
| Verification.RecordsDoNotCombine | src/nc3_testing_platform/domains/assets/verification.py:140-144 | a record set matches exactly when one of its parts does |
| Verification.TokenMatchesExactlyWhen | src/nc3_testing_platform/domains/assets/verification.py:136-162 | (corollary) a token matches exactly when it is ASCII and some single record, joined, spells it |
| Verification.VerifiesExactlyWhen | src/nc3_testing_platform/domains/assets/verification.py:220-322 | verified exactly when some answer carries the token and all that do are validated, or the scope is exact and they reach the quorum |
| Verification.ReasonExactlyWhen | src/nc3_testing_platform/domains/assets/verification.py:220-322 | a success exactly when the answers prove the claim, and each failure code in exactly its situation over the answers; a platform fault exactly when some resolver is configured and none made a DNS-level statement |
| Verification.ProvenanceIsTheCarriers | src/nc3_testing_platform/domains/assets/verification.py:292-302 | a success records all carriers, is validated exactly when they all are, always so for a zone, and reaches the quorum otherwise |
| Verification.RecordedResolvers | src/nc3_testing_platform/domains/assets/verification.py:292-302 | the recorded resolvers are those whose answers publish the token, in order |
| Verification.DecisionIgnoresOrder | src/nc3_testing_platform/domains/assets/verification.py:220-322 | decision and reason ignore resolver order; the recorded resolvers are rearranged |
| Verification.SilenceChangesNoDecision | src/nc3_testing_platform/domains/assets/verification.py:246-248 | an added answer without the token never changes the decision nor a recorded success |
| Verification.ValidatedAnswersNeverHurt | src/nc3_testing_platform/domains/assets/verification.py:231-237 | an added validated carrier never loses a success |
| Verification.UnvalidatedAnswersKeepExactlyWhen | src/nc3_testing_platform/domains/assets/verification.py:295-322 | an added unvalidated carrier keeps a success exactly when the scope is exact and the quorum is reached with it |
| Verification.OneMoreAgreementCanRefuse | src/nc3_testing_platform/domains/assets/verification.py:293-322 | at an input, for every token, under a quorum of three that both resolver lists meet: one validated carrier among three verifies, and an unvalidated fourth makes it a refused corroboration |
| Verification.CoherentSettingsLetAQuorumVerify | src/nc3_testing_platform/core/settings.py:392-408 | under coherent settings a quorum of resolvers answering in their own budget verifies an exact check, however the others behave |
| OutboundBudget.Budget.TrySpend | src/nc3_testing_platform/core/dns_utils.py:166-182 | a check is admitted whole or not at all, and the window moves as specified |
| OutboundBudget.AnyIntervalAdmitsTwiceTheLimit | src/nc3_testing_platform/core/dns_utils.py:166-182 | over any calls with a monotone clock, every half-open interval of one window length admits at most twice the limit |
| OutboundBudget.AWindowHoldsTheGlobalLimit | src/nc3_testing_platform/core/dns_utils.py:161-182 | a fresh window admits exactly the checks the global limiter would, each whole |
| OutboundBudget.TwiceTheLimitIsReached | src/nc3_testing_platform/core/dns_utils.py:145-153 | for every window length the bound is met, by a burst on each side of a boundary |
| DnsBoundary.Boundary.Acquire | src/nc3_testing_platform/core/dns_utils.py:328-329 | the bulkhead refuses instead of waiting |
| DnsBoundary.Boundary.ResolveTxt | src/nc3_testing_platform/core/dns_utils.py:312-356 | the permit is back on every path, the budget is charged whole or not at all, each error has its exact cause, and a success has one outcome per resolver in order |
| DnsBoundary.Boundary.QueryAll | src/nc3_testing_platform/core/dns_utils.py:339-354 | the loop computes the specified outcomes, or stops exactly when a resolver whose turn comes has no transport |
| DnsBoundary.AQueryMeans | src/nc3_testing_platform/core/dns_utils.py:225-287 | (corollary) every ending of a query is one outcome and each outcome has its endings; only an answer carries records and the validation bit |
| DnsBoundary.AnOutcomeMeans | src/nc3_testing_platform/core/dns_utils.py:341-353 | each resolver's outcome is its query within what was left of the deadline, or that nothing was |
| DnsBoundary.TheClockMeans | src/nc3_testing_platform/core/dns_utils.py:339-353 | (corollary) the loop's clock moves by what each query took and stands still for one not asked |
| DnsBoundary.DeadlineHolds | src/nc3_testing_platform/core/dns_utils.py:341-353 | total query time stays within the deadline |
| DnsBoundary.NotAttemptedIsASuffix | src/nc3_testing_platform/core/dns_utils.py:342-350 | resolvers never asked form a suffix and are exactly the ones reported so |
| DnsBoundary.QuorumIsAttempted | src/nc3_testing_platform/core/settings.py:385-408 | under the coherence rule the first quorum resolvers are asked, each with its whole budget |
| DnsBoundary.ShortDeadlineCutsTheQuorum | src/nc3_testing_platform/core/settings.py:392-397 | without the rule slow resolvers leave one of them unasked |
| DnsBoundary.AuthenticatedImpliesAnswered | src/nc3_testing_platform/core/dns_utils.py:238-287 | (corollary) AD and records are never reported without an answer |
| ClaimsStore.Session.UpsertChallenge | src/nc3_testing_platform/domains/assets/repository.py:78-141 | issuing replaces the asset's challenge and resets its attempt state |
| ClaimsStore.Session.ChallengeCredentialsFor | src/nc3_testing_platform/domains/assets/repository.py:144-171 | token and expiry as they stand, or nothing when the context does not reach them |
| ClaimsStore.Session.UpsertProof | src/nc3_testing_platform/domains/assets/repository.py:174-228 | the proof is written unless another asset's proof holds the value, and then nothing is |
| ClaimsStore.Session.StampCheck | src/nc3_testing_platform/domains/assets/repository.py:231-254 | time and reason are stamped together; a lost context stamps no row |
| ClaimsStore.Session.NameOrganizationIfUnnamed | src/nc3_testing_platform/domains/org/service.py:24-53 | names once, within the asserted organization |
| ClaimsStore.Session.Stamp | src/nc3_testing_platform/domains/assets/service.py:269-280 | under an asserted context the vanished-stamp error never fires |
| ClaimsStore.Session.StartChallenge | src/nc3_testing_platform/domains/assets/service.py:167-209 | leaves the specified rows, and answers on the clock read after its commit |
| ClaimsStore.Session.RegenerateToken | src/nc3_testing_platform/domains/assets/service.py:212-256 | leaves the specified rows and answer, keeping the scope |
| ClaimsStore.Session.BeginCheck | src/nc3_testing_platform/domains/assets/service.py:325-342 | the first transaction writes nothing and gives up the context |
| ClaimsStore.Session.FinishCheck | src/nc3_testing_platform/domains/assets/service.py:348-445 | the second transaction leaves the specified rows and answer, re-asserting the context before it reads or writes and again before it answers, and a superseded check answers on the clock read after its commit |
| ClaimsStore.Session.WriteProof | src/nc3_testing_platform/domains/assets/service.py:402-431 | proof and name together or neither, a lost claim stamped in the same transaction |
| ClaimLaws.FinishingMeans | src/nc3_testing_platform/domains/assets/service.py:343-445 | in any reachable state: nothing is written when the lookup was refused, lapsed or made no statement; superseded is stamped exactly when another token stands; a success writes the proof, clears the code and answers verified; a held value is lost; and every other reason is stamped exactly in its situation over the answers |
| ClaimLaws.StartingMeans | src/nc3_testing_platform/domains/assets/service.py:184-209 | (corollary) a challenge is issued exactly for a visible domain asset, at the requested scope, under its record name and for the configured time, with no attempt on record |
| ClaimLaws.RegeneratingMeans | src/nc3_testing_platform/domains/assets/service.py:232-256 | (corollary) the same at the standing scope, exactly when a challenge stands and no proof does |
| ClaimLaws.BeginningMeans | src/nc3_testing_platform/domains/assets/service.py:325-336 | (corollary) a check takes off exactly on a visible domain asset whose challenge is in time, carrying what stands there |
| ClaimLaws.ReadingMeans | src/nc3_testing_platform/domains/assets/service.py:147-164 | (corollary) verified exactly with a proof, else pending exactly while the challenge is in time; not started exactly with neither |
| ClaimRuns.StepKeeps | src/nc3_testing_platform/domains/assets/models.py:86-101 | every step keeps unique claims, rows in agreement with their asset, and every proof backed by the answers it was written from |
| ClaimSafety.EveryReachableState | src/nc3_testing_platform/domains/assets/models.py:86-149 | in every interleaving a value is claimed at most once platform-wide, proofs match their asset's value and owner, and a stamped reason follows a recheck and is never the platform's fault |
| ClaimSafety.EveryProofHasEvidence | src/nc3_testing_platform/domains/assets/service.py:366-418 | every standing proof rests on answers carrying a token issued for that asset at the recorded scope, unexpired when written, and validated for a zone |
| ClaimSafety.AWrittenProofIsTheStandingChallenges | src/nc3_testing_platform/domains/assets/service.py:354-419 | a written proof resolved the standing challenge's token, unexpired, and has its scope although scope was read before the lookup |
| ClaimSafety.NoWriteNoProof | src/nc3_testing_platform/domains/assets/service.py:345-429 | (corollary) any other finish at most stamps a reason on the flight's own challenge |
| ClaimSafety.ReplacedInFlight | src/nc3_testing_platform/domains/assets/service.py:366-374 | a challenge replaced in flight yields only a superseded stamp |
| ClaimSafety.ReplacedNeverProves | src/nc3_testing_platform/domains/assets/service.py:354-374 | a check whose token was replaced never yields a proof, however long it stays in flight |
| ClaimSafety.RetiredTokensStayRetired | src/nc3_testing_platform/domains/assets/repository.py:107-141 | a replaced token never stands again |
| ClaimSafety.LostExactlyWhen | src/nc3_testing_platform/domains/assets/service.py:402-429 | a claim is lost exactly when the answers prove the name and another organization holds it, and then only a stamp is left |
| ClaimSafety.ReprovingNeverLoses | src/nc3_testing_platform/domains/assets/repository.py:188-203 | proving one's own domain again never loses |
| ClaimSafety.AClaimIsKept | src/nc3_testing_platform/domains/assets/models.py:76-88 | until released, a claim stays with its organization and no other ever holds it |
| ClaimSafety.ReprovingKeepsTheStatus | src/nc3_testing_platform/domains/assets/verification.py:175-182 | the owner keeps reading verified whatever challenges come and go |
| ClaimSafety.NamedByTheFirstProof | src/nc3_testing_platform/domains/org/service.py:24-53 | an organization is named exactly from its first proof on, after that domain and at that instant |
| ClaimSafety.ANameIsSettled | src/nc3_testing_platform/domains/org/service.py:32-34 | once named it keeps its name |
| ClaimSafety.CoveringClaimsAreNested | src/nc3_testing_platform/domains/assets/verification.py:105-133 | two claims covering one name have different, nested values |
| Totp.MatchingStep | src/nc3_testing_platform/domains/auth/totp.py:61-75 | a step is found exactly when one within one of the clock's step has the code |
| Totp.FindMatchingStep | src/nc3_testing_platform/domains/auth/totp.py:61-75 | the early-exit loop finds the earliest such step |
| Totp.StepAt | src/nc3_testing_platform/domains/auth/totp.py:46-48 | the step is the number of whole thirty-second spans since the epoch |
| MfaStore.AuthService.RecordMfaFailure | src/nc3_testing_platform/domains/auth/service.py:511-536 | the counter moves, locks at the threshold with a doubling capped duration, and is committed |
| MfaStore.AuthService.SpendCode | src/nc3_testing_platform/domains/auth/service.py:539-589 | a good code is consumed but pending, a wrong one counted and committed |
| MfaStore.AuthService.RevokeSession | src/nc3_testing_platform/domains/auth/repository.py:81-87 | revokes one session, a no-op when it already is |
| MfaStore.AuthService.RevokeOtherSessions | src/nc3_testing_platform/domains/auth/repository.py:90-102 | revokes every live session but one |
| MfaStore.AuthService.ConsumeRecoveryCode | src/nc3_testing_platform/domains/auth/repository.py:169-189 | one conditional update spends a live code |
| MfaStore.AuthService.BurnRecoveryCodes | src/nc3_testing_platform/domains/auth/repository.py:152-166 | supersedes every live code |
| MfaStore.AuthService.InsertRecoveryCodes | src/nc3_testing_platform/domains/auth/repository.py:141-149 | stores the set unless the unique constraint refuses |
| MfaStore.AuthService.StampSessionAssurance | src/nc3_testing_platform/domains/auth/repository.py:192-208 | stamps a live session only |
| MfaStore.AuthService.Login | src/nc3_testing_platform/domains/auth/service.py:294-338 | commits exactly the specified rows and answer |
| MfaStore.AuthService.Logout | src/nc3_testing_platform/domains/auth/service.py:384-387 | commits exactly the revocation |
| MfaStore.AuthService.ChangePassword | src/nc3_testing_platform/domains/auth/service.py:414-445 | commits exactly the specified rows and answer |
| MfaStore.AuthService.EnrollMfa | src/nc3_testing_platform/domains/auth/service.py:592-629 | commits exactly the specified rows; a restart keeps escalation and lockout |
| MfaStore.AuthService.ConfirmMfa | src/nc3_testing_platform/domains/auth/service.py:632-686 | commits exactly the specified rows, rolling back when the session is gone |
| MfaStore.AuthService.VerifyMfa | src/nc3_testing_platform/domains/auth/service.py:689-737 | commits exactly the specified rows, rolling back a step-up on a revoked session |
| MfaStore.AuthService.DisableMfa | src/nc3_testing_platform/domains/auth/service.py:740-785 | commits exactly the specified rows and answer |
| MfaStore.AuthService.RegenerateRecoveryCodes | src/nc3_testing_platform/domains/auth/service.py:788-809 | commits exactly the specified rows and answer |
| AuthLaws.LoggingInMeans | src/nc3_testing_platform/domains/auth/service.py:303-367 | (corollary) a login opens a session exactly for an enabled user, with no standing lock and the right password; a wrong one counts and locks at the threshold; everything else changes nothing |
| AuthLaws.LoggingOutMeans | src/nc3_testing_platform/domains/auth/service.py:384-387 | (corollary) exactly the session is revoked, now |
| AuthLaws.ChangingMeans | src/nc3_testing_platform/domains/auth/service.py:430-445 | (corollary) exactly with the right password the new one is stored and every session rotates |
| AuthLaws.TheNewPasswordCounts | src/nc3_testing_platform/domains/auth/service.py:414-445 | (corollary) afterwards the new password logs in and the old one does not |
| AuthLaws.EnrollingMeans | src/nc3_testing_platform/domains/auth/service.py:605-623 | (corollary) exactly with the password and no confirmed factor the seed is planted and step and counter cleared; escalation and lock stay |
| AuthLaws.ConfirmingMeans | src/nc3_testing_platform/domains/auth/service.py:650-686 | (corollary) the factor is activated exactly for an open enrollment, a code in the window, a live session and fresh codes; exactly those codes are live, the caller alone stays, assured; a wrong code only counts |
| AuthLaws.VerifyingMeans | src/nc3_testing_platform/domains/auth/service.py:711-737 | a code is accepted exactly when it is good, on a live session unless pending; the step or code is used, and the session replaced or stamped |
| AuthLaws.DisablingMeans | src/nc3_testing_platform/domains/auth/service.py:759-785 | exactly with the password and a good code the factor and every code are gone and all sessions rotate |
| AuthLaws.RegeneratingMeans | src/nc3_testing_platform/domains/auth/service.py:800-809 | (corollary) exactly with the password, a confirmed factor and fresh codes the set is replaced |
| AuthLaws.ResolvingMeans | src/nc3_testing_platform/core/security.py:205-249 | (corollary) a session resolves exactly while it is live, its user enabled and both limits last, and awaits a confirmed factor it has not proved |
| AuthLaws.LockoutDurations | src/nc3_testing_platform/domains/auth/service.py:524-527 | (corollary) the durations start at the base and double up to the cap |
| LoginLockout.WrongPasswordsAreBounded | src/nc3_testing_platform/domains/auth/service.py:349-367 | from any reachable state with no successful login, a span shorter than n lockouts admits at most n times the threshold wrong passwords |
| LoginLockout.WrongPasswordsAreConserved | src/nc3_testing_platform/domains/auth/service.py:360-365 | every wrong password is in the counter or in a lockout |
| LoginLockout.LockoutsAreApart | src/nc3_testing_platform/domains/auth/service.py:307-309 | n account lockouts span at least n - 1 whole durations |
| MfaRuns.StepKeeps | src/nc3_testing_platform/domains/auth/service.py:294-809 | every request keeps assurance vouched for, steps increasing, codes bounded and spent codes spent |
| MfaSafety.EveryReachableState | src/nc3_testing_platform/domains/auth/service.py:632-785 | without a confirmed factor no live session is assured and no code is live; never more than ten are |
| MfaSafety.PrivilegeChangesLeaveOneSession | src/nc3_testing_platform/domains/auth/service.py:414-785 | (corollary) confirm, disable and password change each leave exactly one live session |
| MfaSafety.AssuranceIsVouchedFor | src/nc3_testing_platform/core/security.py:323-354 | the gate admits only within the age limit of a committed acceptance that stamped this very session under the standing factor |
| MfaSafety.AcceptanceOpensTheGate | src/nc3_testing_platform/core/security.py:193-249 | (corollary) after an acceptance the gate admits that session exactly while assurance, idle and absolute limits last |
| MfaSafety.PasswordAloneIsPending | src/nc3_testing_platform/core/security.py:223-235 | with a factor confirmed, a session passes only if an accepted code stamped it |
| MfaSafety.CodesAreOneTime | src/nc3_testing_platform/domains/auth/totp.py:61-75 | accepted steps strictly increase within an enrollment and lie within one step of the clock (section 5.2 of RFC 6238), and no recovery code is accepted twice |
| MfaSafety.ReplayIsRefused | src/nc3_testing_platform/domains/auth/service.py:564-571 | (corollary) a step already accepted under the factor is a wrong code |
| MfaSafety.SpentRecoveryIsRefused | src/nc3_testing_platform/domains/auth/service.py:573-579 | (corollary) a spent recovery code is a wrong code for good |
| MfaSafety.RefusedSpendsNothing | src/nc3_testing_platform/core/api_db.py:12-17 | (corollary) a refused request changes nothing but the failure counters, and those only for a wrong code or password |
| MfaLockout.WrongCodesAreBounded | src/nc3_testing_platform/domains/auth/service.py:505-536 | from any reachable state, with no success, a span shorter than the first n lockouts admits at most n times the threshold wrong codes plus what restarts forgot, whatever the factor's state, the order of requests and the escalation reached |
| MfaLockout.NothingForgottenExactlyWhen | src/nc3_testing_platform/domains/auth/service.py:606-616 | nothing is forgotten exactly when no successful restart meets a failure counter above zero |
| MfaLockout.GuessesAreBoundedUnlessForgotten | src/nc3_testing_platform/domains/auth/service.py:632-667 | confirmations, verifications and disablings are bounded in time as long as no restart forgets a wrong code |
| MfaLockout.ConfirmedFactorsForgetNothing | src/nc3_testing_platform/domains/auth/service.py:606-608 | a confirmed factor cannot be enrolled over, so its bound needs no condition |
| MfaLockout.WrongCodesAreConserved | src/nc3_testing_platform/domains/auth/service.py:521-529 | every wrong code is in the counter, in a lockout, or among those a restart forgot |
| MfaLockout.LockoutsSpanTheirDurations | src/nc3_testing_platform/domains/auth/service.py:521-529 | n lockouts span at least the durations of all but the last, restarts or not |
| MfaLockout.DefaultsAllowThirtyFiveADay | src/nc3_testing_platform/core/settings.py:320-322 | with the default settings, at most 35 wrong codes in any day on a confirmed factor, and as many more as restarts forgot on any other |
| MfaLockout.RestartsEscapeTheLockout | src/nc3_testing_platform/domains/auth/service.py:613-616 | a user who registers, logs in and enrolls: for any generator, seeds and threshold above one, one instant holds as many wrong six-digit confirmations from that live session as there are restarts, without a lockout |
| MfaLockout.GuessesAreBoundedExactlyWhen | src/nc3_testing_platform/domains/auth/service.py:511-536 | wrong codes are bounded in an instant exactly when the threshold is one |
| MfaLockout.RetryAfterIsEnough | src/nc3_testing_platform/domains/auth/service.py:505-508 | (corollary) the advertised delay ends the lock and overshoots by at most a second |

## Left out

- Routers, request schemas, cursor pagination, CSRF and rate-limit windows in Redis: single-branch plumbing.
- SQLAlchemy, PostgreSQL, Celery, Redis and dnspython themselves: only what a statement, constraint, savepoint, commit and delivery mean.
- Cryptography, argon2, HMAC and random generation; normalization of a typed recovery code before hashing; rehashing of outdated password hashes.
- Process groups, signals and the child side of an engine run: the parent's message loop is modelled over a given pipe trace.
- The exit code in an engine's error text is supplied as text.
- The twelve-month purge date is kept symbolic; only its being set matters to the CHECKs.
- Revocation of queued deliveries, guest claim tokens and the launch story.
- User registration, statement acceptance and key envelopes.
- Lower-casing in `_labels` covers ASCII letters; stored values are A-labels. A scope other than exact and zone, on which the source raises, is not representable.
- `evidence` is a canonical JSON text supplied with the finding; only the rendering of string lists is modelled.
- JsonText.DumpsIsInjective: strings are sequences of Unicode scalar values; a Python string may also hold lone surrogates, and a pair of them renders like the astral character they spell.
- EngineRunner.MalformedText: renders the line as `str` does, the source as `repr` does, which differs by quotes and escapes when the line is a bare JSON string.
- Descriptor fields of a module other than queue and declared tests; `for_queue` and `require`.
- Reading the asset or upload behind a task before its engine starts; an engine's run is any outcome.
- The touch of `last_seen_at` is a step of its own, so a run in which a refused request rolls it back is one without that step.
- Operator reset of a second factor by hand-written SQL (`docs/database-roles.md:27`) is not a step: it leaves assured sessions and recovery codes live.
- DnsBoundary.QuorumIsAttempted: assumes a query ends by its timeout and the loop itself takes no time.
- DnsBoundary.Boundary.ResolveTxt: one call at a time; concurrent holders of permits are the initial count.
- Statement-level interleavings and deadlocks: transactions are atomic.

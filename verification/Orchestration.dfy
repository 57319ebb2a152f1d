/** The scan-job state machine: rows, their CHECK constraints, and what each
    transaction of the pipeline does to them. One `Db` value holds one job with
    its tasks and results; a task is identified by its position. */
module Orchestration {
  import opened Options
  import opened Catalog
  import Registry
  import opened Findings
  import opened FailureReasons

  // ------------------------------------------------------------------ the rows

  datatype JobStatus = JobQueued | JobRunning | JobCompleted | JobPartial | JobFailed | JobCanceled

  datatype TaskStatus = Queued | Running | Completed | Failed | Skipped | Blocked | Canceled

  type TaskId = nat

  /** A purge deadline: one set at launch, or twelve months and thirty days
      after the finish, kept symbolic. */
  datatype PurgeDeadline = At(instant: int) | RetentionAfter(finish: int)

  datatype JobRow = JobRow(
    id: nat, organizationId: Option<nat>,
    assetId: Option<nat>, targetDomain: Option<string>, fileUploadId: Option<nat>,
    modules: seq<ScanModule>, configuration: map<ScanModule, string>,
    unclaimedGuest: bool,
    status: JobStatus, statusReason: Option<Reason>, purgeAt: Option<PurgeDeadline>,
    createdAt: int, startedAt: Option<int>, finishedAt: Option<int>)

  datatype TaskRow = TaskRow(
    organizationId: Option<nat>,
    scanModule: ScanModule, testKey: string, testVersion: string, classification: Classification,
    targetAssetId: Option<nat>, targetDomain: Option<string>, fileUploadId: Option<nat>,
    configuration: string,
    status: TaskStatus, statusReason: Option<Reason>, cancellationRequestedAt: Option<int>,
    createdAt: int, startedAt: Option<int>, finishedAt: Option<int>)

  datatype ResultRow = ResultRow(
    taskId: TaskId, organizationId: Option<nat>, schemaVersion: string,
    grade: Option<string>, summary: JsonDoc, rawOutput: JsonDoc,
    severityCounts: map<string, nat>, findings: seq<FindingRow>, completedAt: int)

  datatype Db = Db(job: JobRow, tasks: seq<TaskRow>, results: seq<ResultRow>)

  predicate TerminalJob(s: JobStatus) {
    s in {JobCompleted, JobPartial, JobFailed, JobCanceled}
  }

  predicate TerminalTask(s: TaskStatus) {
    s in {Completed, Failed, Skipped, Blocked, Canceled}
  }

  function Present<T>(o: Option<T>): nat {
    if o.Some? then 1 else 0
  }

  /** The CHECK constraints of `scan_job` that a pipeline step can touch, with
      those about the launch as far as they bind these columns: only a guest may
      lack an organization, and a guest without one is unclaimed. */
  predicate JobChecks(j: JobRow) {
    && Present(j.assetId) + Present(j.targetDomain) + Present(j.fileUploadId) == 1
    && j.modules != []
    && (j.organizationId.None? ==> j.unclaimedGuest)
    && (TerminalJob(j.status) <==> j.finishedAt.Some?)
    && (j.status == JobRunning ==> j.startedAt.Some?)
    && (j.purgeAt.Some? <==> TerminalJob(j.status) || j.unclaimedGuest)
  }

  /** The CHECK constraints of `scan_task`. */
  predicate TaskChecks(t: TaskRow) {
    && Present(t.targetAssetId) + Present(t.targetDomain) + Present(t.fileUploadId) == 1
    && (t.status == Blocked ==> t.statusReason.Some?)
    && (t.scanModule == File <==> t.classification == NotApplicable)
    && (t.fileUploadId.Some? <==> t.scanModule == File)
    && (TerminalTask(t.status) <==> t.finishedAt.Some?)
    && (t.status == Running ==> t.startedAt.Some?)
  }

  predicate Checks(db: Db) {
    JobChecks(db.job) && forall i :: 0 <= i < |db.tasks| ==> TaskChecks(db.tasks[i])
  }

  // ----------------------------------------------------------- the task matrix

  datatype TaskSpec = TaskSpec(
    testKey: string, testVersion: string, scanModule: ScanModule, classification: Classification,
    queue: Option<string>, blockedReason: Option<Reason>)

  const UNAVAILABLE_TEST_VERSION := "unknown"

  /** One catalog test resolved against the roster. */
  function SpecFor(e: CatalogEntry, roster: Registry.Roster): TaskSpec {
    match roster.ByTestKey(e.testKey)
    case Failure(_) =>
      TaskSpec(e.testKey, UNAVAILABLE_TEST_VERSION, e.scanModule, e.classification, None, Some(ModuleUnavailable))
    case Success(m) =>
      TaskSpec(e.testKey, m.Declaration(e.testKey).testVersion, e.scanModule, e.classification,
               Some(m.descriptor.queue), None)
  }

  /** The catalog tests a launch asks for: launch order across modules, catalog
      order within one. */
  function Requested(modules: seq<ScanModule>): seq<CatalogEntry> {
    if modules == [] then []
    else Requested(modules[..|modules| - 1]) + TestsForModule(modules[|modules| - 1])
  }

  function SpecsFor(tests: seq<CatalogEntry>, roster: Registry.Roster): seq<TaskSpec> {
    seq(|tests|, i requires 0 <= i < |tests| => SpecFor(tests[i], roster))
  }

  /** The planned matrix: one spec per requested catalog test, in that order. */
  function PlannedMatrix(modules: seq<ScanModule>, roster: Registry.Roster): seq<TaskSpec> {
    SpecsFor(Requested(modules), roster)
  }

  function ConfigurationFor(j: JobRow, m: ScanModule): string {
    if m in j.configuration then j.configuration[m] else "{}"
  }

  /** The row one spec becomes: a file test targets the upload, everything else
      the asset or guest domain; a blocked spec is terminal at creation. */
  function TaskFor(j: JobRow, s: TaskSpec, now: int): TaskRow {
    var isFile, blocked := s.scanModule == File, s.blockedReason.Some?;
    TaskRow(j.organizationId, s.scanModule, s.testKey, s.testVersion, s.classification,
      if isFile then None else j.assetId, if isFile then None else j.targetDomain,
      if isFile then j.fileUploadId else None,
      ConfigurationFor(j, s.scanModule),
      if blocked then Blocked else Queued, s.blockedReason, None,
      now, None, if blocked then Some(now) else None)
  }

  function CreatedTasks(j: JobRow, specs: seq<TaskSpec>, now: int): seq<TaskRow> {
    seq(|specs|, i requires 0 <= i < |specs| => TaskFor(j, specs[i], now))
  }

  // ---------------------------------------------------------- row transitions

  function Closed(t: TaskRow, status: TaskStatus, reason: Option<Reason>, now: int): TaskRow {
    t.(status := status, statusReason := reason, finishedAt := Some(now))
  }

  function Started(t: TaskRow, now: int): TaskRow {
    t.(status := Running, startedAt := Some(now))
  }

  /** The counting rule: the job's terminal state from its children. */
  function DeriveJobOutcome(statuses: seq<TaskStatus>, override: Option<Reason>): Option<(JobStatus, Option<Reason>)> {
    if statuses == [] || exists s :: s in statuses && !TerminalTask(s) then None
    else
      var completed := CountCompleted(statuses);
      if completed == |statuses| then Some((JobCompleted, override))
      else if completed > 0 then Some((JobPartial, Some(GetOr(override, TasksIncomplete))))
      else if Canceled in statuses then Some((JobCanceled, Some(GetOr(override, JobCancellation))))
      else Some((JobFailed, Some(GetOr(override, NoUsableResults))))
  }

  function CountCompleted(statuses: seq<TaskStatus>): nat {
    if statuses == [] then 0 else (if statuses[0] == Completed then 1 else 0) + CountCompleted(statuses[1..])
  }

  function Statuses(tasks: seq<TaskRow>): seq<TaskStatus> {
    seq(|tasks|, i requires 0 <= i < |tasks| => tasks[i].status)
  }

  // -------------------------------------------- what each transaction commits

  /** The rows a connection's row-security arm reaches: the platform role reads
      any job; a scan worker reaches what its hint names. */
  datatype Context = Platform | Hinted(org: Option<nat>, job: Option<nat>)

  predicate Reaches(c: Context, rowOrg: Option<nat>, jobId: nat) {
    match c
    case Platform => true
    case Hinted(Some(o), _) => rowOrg == Some(o)
    case Hinted(None, j) => j == Some(jobId)
  }

  predicate Sendable(t: TaskRow, roster: Registry.Roster) {
    t.status == Queued && t.cancellationRequestedAt.None? && roster.QueueFor(t.testKey).Some?
  }

  /** What dispatch leaves of one task: a queued task whose module vanished is
      blocked, every other task stands. */
  function Routed(t: TaskRow, roster: Registry.Roster, now: int): TaskRow {
    if t.status == Queued && t.cancellationRequestedAt.None? && roster.QueueFor(t.testKey).None?
    then Closed(t, Blocked, Some(ModuleUnavailable), now) else t
  }

  function RoutedTasks(tasks: seq<TaskRow>, roster: Registry.Roster, now: int): seq<TaskRow> {
    seq(|tasks|, i requires 0 <= i < |tasks| => Routed(tasks[i], roster, now))
  }

  /** The children dispatch publishes, in row order, each with its queue. */
  function ToPublish(tasks: seq<TaskRow>, roster: Registry.Roster): seq<(TaskId, string)> {
    if tasks == [] then []
    else
      var n := |tasks| - 1;
      ToPublish(tasks[..n], roster)
        + (if Sendable(tasks[n], roster) then [(n, roster.QueueFor(tasks[n].testKey).value)] else [])
  }

  function RunningJob(j: JobRow, now: int): JobRow {
    if j.status == JobQueued then j.(status := JobRunning, startedAt := Some(now)) else j
  }

  datatype DispatchOutcome =
    | Dropped
    | Refused
    | Dispatched(db: Db, announce: bool, publish: seq<(TaskId, string)>)
  {
    /** The rows that stand after the transaction, committed or rolled back. */
    function After(before: Db): Db {
      if Dispatched? then db else before
    }
  }

  /** Fan one job out. The commit is refused, and everything rolled back, when
      the rows would break a CHECK. */
  function Dispatch(db: Db, roster: Registry.Roster, now: int): DispatchOutcome {
    if TerminalJob(db.job.status) then Dropped
    else
      var tasks := if db.tasks == [] then CreatedTasks(db.job, PlannedMatrix(db.job.modules, roster), now) else db.tasks;
      var next := Db(RunningJob(db.job, now), RoutedTasks(tasks, roster, now), db.results);
      if Checks(next) then Dispatched(next, db.job.status == JobQueued, ToPublish(tasks, roster)) else Refused
  }

  datatype Worker = Worker(queue: string, roster: Registry.Roster)

  /** Why a worker refuses a task, if it does. */
  function Refusal(w: Worker, testKey: string): Option<Reason> {
    match w.roster.ByTestKey(testKey)
    case Failure(_) => Some(ModuleUnavailable)
    case Success(m) => if m.descriptor.queue != w.queue then Some(Misrouted) else None
  }

  datatype ClaimOutcome =
    | Missing
    | Duplicate(status: TaskStatus)
    | ClosedAtClaim(db: Db, status: TaskStatus, reason: Reason)
    | Claimed(db: Db)
  {
    function After(before: Db): Db {
      match this
      case ClosedAtClaim(db, _, _) => db
      case Claimed(db) => db
      case Missing => before
      case Duplicate(_) => before
    }
  }

  function SetTask(db: Db, i: TaskId, t: TaskRow): Db
    requires i < |db.tasks|
  {
    db.(tasks := db.tasks[i := t])
  }

  /** Phase 1 of a run: claim the queued task, honor a cancellation, apply the
      egress gate, or mark it running. */
  function Claim(db: Db, i: TaskId, c: Context, w: Worker, now: int): ClaimOutcome {
    if i >= |db.tasks| || !Reaches(c, db.tasks[i].organizationId, db.job.id) then Missing
    else
      var t := db.tasks[i];
      if t.status != Queued then Duplicate(t.status)
      else if t.cancellationRequestedAt.Some? then
        ClosedAtClaim(SetTask(db, i, Closed(t, Canceled, Some(TaskCanceled), now)), Canceled, TaskCanceled)
      else match Refusal(w, t.testKey)
        case Some(reason) => ClosedAtClaim(SetTask(db, i, Closed(t, Blocked, Some(reason), now)), Blocked, reason)
        case None => Claimed(SetTask(db, i, Started(t, now)))
  }

  /** How the engine run of phase 2 ended. */
  datatype RunOutcome = Returned(result: ModuleResult) | ReturnedNothing | Raised(failure: Failure)

  datatype RecordOutcome =
    | Vanished
    | AlreadyClosed(status: TaskStatus)
    | Recorded(db: Db, status: TaskStatus, reason: Option<Reason>)
  {
    function After(before: Db): Db {
      if Recorded? then db else before
    }
  }

  /** The result row, through the pure row mappers; the result id is the position
      it is stored at. */
  function ResultFor(db: Db, i: TaskId, r: ModuleResult, completedAt: int): ResultRow
    requires i < |db.tasks|
  {
    var org := db.tasks[i].organizationId;
    ResultRow(i, org, r.schemaVersion, r.grade, r.summary, r.rawOutput,
              CountsOf(r.findings), FindingRows(r.findings, |db.results|, org), completedAt)
  }

  /** Phase 3 of a run: record exactly one outcome, unless the task was closed
      while the engine ran. */
  function Record(db: Db, i: TaskId, c: Context, o: RunOutcome, finished: int): RecordOutcome {
    if i >= |db.tasks| || !Reaches(c, db.tasks[i].organizationId, db.job.id) then Vanished
    else
      var t := db.tasks[i];
      if TerminalTask(t.status) then AlreadyClosed(t.status)
      else if t.cancellationRequestedAt.Some? then
        Recorded(SetTask(db, i, Closed(t, Canceled, Some(TaskCanceled), finished)), Canceled, Some(TaskCanceled))
      else match o
        case Raised(f) =>
          var reason := Some(ClassifyFailure(f));
          Recorded(SetTask(db, i, Closed(t, Failed, reason, finished)), Failed, reason)
        case ReturnedNothing =>
          Recorded(SetTask(db, i, Closed(t, Failed, Some(EngineError), finished)), Failed, Some(EngineError))
        case Returned(r) =>
          var next := SetTask(db, i, Closed(t, Completed, None, finished));
          Recorded(next.(results := db.results + [ResultFor(db, i, r, finished)]), Completed, None)
  }

  function Reaped(t: TaskRow, now: int): TaskRow {
    if TerminalTask(t.status) then t else Closed(t, Failed, Some(JobTimeout), now)
  }

  /** The live tasks of a stuck job, in row order. */
  function LiveTasks(tasks: seq<TaskRow>): seq<TaskId> {
    if tasks == [] then []
    else
      var n := |tasks| - 1;
      LiveTasks(tasks[..n]) + (if TerminalTask(tasks[n].status) then [] else [n])
  }

  /** The reaper's sweep of one stuck job: every live task fails with the job
      timeout. */
  function ReapTasks(db: Db, now: int): Db {
    db.(tasks := seq(|db.tasks|, i requires 0 <= i < |db.tasks| => Reaped(db.tasks[i], now)))
  }

  datatype FinalizeOutcome = NotDone | Finalized(db: Db, status: JobStatus, reason: Option<Reason>) {
    function After(before: Db): Db {
      if Finalized? then db else before
    }
  }

  /** Close the job iff every child is terminal. */
  function Finalize(db: Db, c: Context, now: int, override: Option<Reason>): FinalizeOutcome {
    if !Reaches(c, db.job.organizationId, db.job.id) || TerminalJob(db.job.status) then NotDone
    else match DeriveJobOutcome(Statuses(db.tasks), override)
      case None => NotDone
      case Some((status, reason)) =>
        var job := db.job.(status := status, statusReason := reason, finishedAt := Some(now),
          purgeAt := if db.job.purgeAt.None? then Some(RetentionAfter(now)) else db.job.purgeAt);
        Finalized(db.(job := job), status, reason)
  }

  // ------------------------------------------------------ what the reaper picks

  /** A job whose delivery was lost: still queued past the deadline, or running
      with a child that was never delivered. */
  predicate Stranded(db: Db, staleBefore: int) {
    || (db.job.status == JobQueued && db.job.createdAt < staleBefore)
    || (db.job.status == JobRunning
        && exists i :: 0 <= i < |db.tasks| && db.tasks[i].status == Queued && db.tasks[i].createdAt < staleBefore)
  }

  predicate Stuck(db: Db, timeoutBefore: int) {
    db.job.status == JobRunning && db.job.startedAt.Some? && db.job.startedAt.value < timeoutBefore
  }
}

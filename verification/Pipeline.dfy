/** The scan pipeline as a step machine. Every committed transaction is one
    step; between steps workers hold what they still have to do, and any worker
    may crash. Deliveries are unconstrained: any task or job message may arrive
    at any time, any number of times or never, with any clock reading. */
module Pipeline {
  import opened Options
  import Registry
  import opened FailureReasons
  import opened Orchestration

  datatype Event =
    | JobEvent(status: JobStatus, reason: Option<Reason>, at: int)
    | EndEvent(status: JobStatus, at: int)
    | TaskEvent(task: TaskId, taskStatus: TaskStatus, reason: Option<Reason>, at: int)
    | HeartbeatEvent(at: int)

  /** What a worker process has left to do after its last commit. */
  datatype Phase =
    | Publishing(events: seq<Event>, next: Phase)
    | Engine(task: TaskId, context: Context)
    | Recording(task: TaskId, context: Context, outcome: RunOutcome, finished: int)
    | Sweeping
    | Finalizing(context: Context, override: Option<Reason>)
    | Stopped

  datatype System = System(db: Db, workers: seq<Phase>, log: seq<Event>)

  datatype Label =
    | DeliverDispatch(roster: Registry.Roster, now: int)
    | DeliverTask(task: TaskId, context: Context, worker: Worker, now: int)
    | EndEngine(w: nat, outcome: RunOutcome, finished: int)
    | RecordStep(w: nat)
    | SelectStuck(timeoutBefore: int)
    | Beat(now: int)
    | Sweep(w: nat, swept: int)
    | FinalizeStep(w: nat, now: int)
    | Publish(w: nat, delivered: bool)
    | Crash(w: nat)
    | RequestCancellation(task: TaskId, now: int)

  function Spawn(s: System, db: Db, p: Phase): System {
    System(db, s.workers + [p], s.log)
  }

  function Move(s: System, db: Db, w: nat, p: Phase): System
    requires w < |s.workers|
  {
    System(db, s.workers[w := p], s.log)
  }

  /** A terminal job event is followed by the end of the stream. */
  function JobEvents(status: JobStatus, reason: Option<Reason>, at: int): seq<Event> {
    [JobEvent(status, reason, at)] + if TerminalJob(status) then [EndEvent(status, at)] else []
  }

  function FailedEvents(failed: seq<TaskId>, at: int): seq<Event> {
    seq(|failed|, i requires 0 <= i < |failed| => TaskEvent(failed[i], Failed, Some(JobTimeout), at))
  }

  function AfterDispatch(s: System, o: DispatchOutcome, now: int): System {
    if o.Dispatched?
    then Spawn(s, o.db, Publishing(if o.announce then JobEvents(JobRunning, None, now) else [], Finalizing(Platform, None)))
    else s
  }

  function AfterClaim(s: System, i: TaskId, c: Context, o: ClaimOutcome, now: int): System {
    match o
    case ClosedAtClaim(db, status, reason) =>
      Spawn(s, db, Publishing([TaskEvent(i, status, Some(reason), now)], Finalizing(c, None)))
    case Claimed(db) => Spawn(s, db, Publishing([TaskEvent(i, Running, None, now)], Engine(i, c)))
    case Missing => s
    case Duplicate(_) => s
  }

  function AfterRecord(s: System, w: nat, p: Phase): System
    requires w < |s.workers| && p.Recording?
  {
    var o := Record(s.db, p.task, p.context, p.outcome, p.finished);
    if o.Recorded?
    then Move(s, o.db, w, Publishing([TaskEvent(p.task, o.status, o.reason, p.finished)], Finalizing(p.context, None)))
    else Move(s, s.db, w, Stopped)
  }

  /** What a sweep leaves its worker to do: announce the failed tasks, then close
      the job, with the job-timeout reason only if it cut work short. */
  function SweepPhase(failed: seq<TaskId>, swept: int): Phase {
    Publishing(FailedEvents(failed, swept), Finalizing(Platform, if failed == [] then None else Some(JobTimeout)))
  }

  function AfterSweep(s: System, w: nat, swept: int): System
    requires w < |s.workers|
  {
    Move(s, ReapTasks(s.db, swept), w, SweepPhase(LiveTasks(s.db.tasks), swept))
  }

  function AfterFinalize(s: System, w: nat, p: Phase, now: int): System
    requires w < |s.workers| && p.Finalizing?
  {
    var o := Finalize(s.db, p.context, now, p.override);
    if o.Finalized? then Move(s, o.db, w, Publishing(JobEvents(o.status, o.reason, now), Stopped))
    else Move(s, s.db, w, Stopped)
  }

  function AfterPublish(s: System, w: nat, p: Phase, delivered: bool): System
    requires w < |s.workers| && p.Publishing?
  {
    if p.events == [] then Move(s, s.db, w, p.next)
    else System(s.db, s.workers[w := Publishing(p.events[1..], p.next)],
                if delivered then s.log + [p.events[0]] else s.log)
  }

  function AfterCancellation(s: System, i: TaskId, now: int): System {
    if i < |s.db.tasks| && !TerminalTask(s.db.tasks[i].status) && s.db.tasks[i].cancellationRequestedAt.None?
    then s.(db := SetTask(s.db, i, s.db.tasks[i].(cancellationRequestedAt := Some(now)))) else s
  }

  /** One step. A step that is not enabled changes nothing. */
  function Apply(s: System, l: Label): System {
    match l
    case DeliverDispatch(roster, now) => AfterDispatch(s, Dispatch(s.db, roster, now), now)
    case DeliverTask(i, c, worker, now) => AfterClaim(s, i, c, Claim(s.db, i, c, worker, now), now)
    case EndEngine(w, o, finished) =>
      if w < |s.workers| && s.workers[w].Engine?
      then Move(s, s.db, w, Recording(s.workers[w].task, s.workers[w].context, o, finished)) else s
    case RecordStep(w) =>
      if w < |s.workers| && s.workers[w].Recording? then AfterRecord(s, w, s.workers[w]) else s
    case SelectStuck(timeoutBefore) => if Stuck(s.db, timeoutBefore) then Spawn(s, s.db, Sweeping) else s
    case Beat(now) =>
      if s.db.job.status == JobRunning then Spawn(s, s.db, Publishing([HeartbeatEvent(now)], Stopped)) else s
    case Sweep(w, swept) => if w < |s.workers| && s.workers[w].Sweeping? then AfterSweep(s, w, swept) else s
    case FinalizeStep(w, now) =>
      if w < |s.workers| && s.workers[w].Finalizing? then AfterFinalize(s, w, s.workers[w], now) else s
    case Publish(w, delivered) =>
      if w < |s.workers| && s.workers[w].Publishing? then AfterPublish(s, w, s.workers[w], delivered) else s
    case Crash(w) => if w < |s.workers| then Move(s, s.db, w, Stopped) else s
    case RequestCancellation(i, now) => AfterCancellation(s, i, now)
  }

  /** A run: any sequence of steps. */
  function Run(s: System, labels: seq<Label>): System {
    if labels == [] then s else Apply(Run(s, labels[..|labels| - 1]), labels[|labels| - 1])
  }

  lemma {:induction false} RunSplit(s: System, a: seq<Label>, b: seq<Label>)
    ensures Run(s, a + b) == Run(Run(s, a), b)
  {
    if b == [] {
      assert a + b == a;
    } else {
      RunSplit(s, a, b[..|b| - 1]);
      assert (a + b)[..|a + b| - 1] == a + b[..|b| - 1];
    }
  }

  // ---------------------------------------------------------------- invariants

  predicate AllDone(tasks: seq<TaskRow>) {
    tasks != [] && forall i :: 0 <= i < |tasks| ==> TerminalTask(tasks[i].status)
  }

  /** Some child was failed by the job timeout. */
  predicate CutShort(tasks: seq<TaskRow>) {
    exists i :: 0 <= i < |tasks| && tasks[i].status == Failed && tasks[i].statusReason == Some(JobTimeout)
  }

  /** The job's stored state is what its children derive to; the job-timeout
      reason is claimed only when the sweep really cut a child short. */
  predicate OutcomeStands(db: Db) {
    || DeriveJobOutcome(Statuses(db.tasks), None) == Some((db.job.status, db.job.statusReason))
    || (CutShort(db.tasks)
        && DeriveJobOutcome(Statuses(db.tasks), Some(JobTimeout)) == Some((db.job.status, db.job.statusReason)))
  }

  /** Results and completed tasks correspond one to one, at one instant. */
  ghost predicate ResultsMatch(db: Db) {
    && (forall r :: 0 <= r < |db.results| ==>
          && db.results[r].taskId < |db.tasks|
          && db.tasks[db.results[r].taskId].status == Completed
          && db.tasks[db.results[r].taskId].finishedAt == Some(db.results[r].completedAt))
    && (forall q, r :: 0 <= q < r < |db.results| ==> db.results[q].taskId != db.results[r].taskId)
    && (forall i :: 0 <= i < |db.tasks| && db.tasks[i].status == Completed ==>
          exists r :: 0 <= r < |db.results| && db.results[r].taskId == i)
  }

  predicate SameTenant(db: Db) {
    forall i :: 0 <= i < |db.tasks| ==> db.tasks[i].organizationId == db.job.organizationId
  }

  ghost predicate RowsHold(db: Db) {
    && Checks(db) && SameTenant(db) && ResultsMatch(db)
    && (TerminalJob(db.job.status) ==> AllDone(db.tasks) && OutcomeStands(db))
  }

  /** A committed launch: the job is queued, and any pre-created task is too. */
  predicate Launched(db: Db) {
    && Checks(db) && SameTenant(db) && db.job.status == JobQueued && db.results == []
    && forall i :: 0 <= i < |db.tasks| ==> db.tasks[i].status == Queued
  }

  predicate Initial(s: System) {
    Launched(s.db) && s.workers == [] && s.log == []
  }

  function TaskRank(s: TaskStatus): nat {
    if s == Queued then 2 else if s == Running then 1 else 0
  }

  function JobRank(s: JobStatus): nat {
    if s == JobQueued then 2 else if s == JobRunning then 1 else 0
  }

  /** What a task keeps for life. */
  predicate SameIdentity(t: TaskRow, u: TaskRow) {
    && u.organizationId == t.organizationId && u.scanModule == t.scanModule && u.testKey == t.testKey
    && u.testVersion == t.testVersion && u.classification == t.classification
    && u.targetAssetId == t.targetAssetId && u.targetDomain == t.targetDomain
    && u.fileUploadId == t.fileUploadId && u.configuration == t.configuration && u.createdAt == t.createdAt
  }

  /** How one task may change: not at all once terminal; otherwise forward, never
      into `completed` once a cancellation is on record. */
  predicate TaskAdvances(t: TaskRow, u: TaskRow) {
    && SameIdentity(t, u)
    && (TerminalTask(t.status) ==> u == t)
    && TaskRank(u.status) <= TaskRank(t.status)
    && (TaskRank(u.status) == TaskRank(t.status) ==> u.status == t.status)
    && (t.cancellationRequestedAt.Some? ==> u.cancellationRequestedAt == t.cancellationRequestedAt)
    && (t.cancellationRequestedAt.Some? && t.status != Completed ==> u.status != Completed)
  }

  predicate JobAdvances(j: JobRow, k: JobRow) {
    && k.id == j.id && k.organizationId == j.organizationId && k.modules == j.modules
    && k.fileUploadId == j.fileUploadId && k.assetId == j.assetId && k.targetDomain == j.targetDomain
    && k.configuration == j.configuration && k.unclaimedGuest == j.unclaimedGuest && k.createdAt == j.createdAt
    && (TerminalJob(j.status) ==> k == j)
    && JobRank(k.status) <= JobRank(j.status)
    && (j.startedAt.Some? ==> k.startedAt == j.startedAt || j.status == JobQueued)
  }

  /** How the rows may change in one step or over many. */
  ghost predicate Advances(a: Db, b: Db) {
    && JobAdvances(a.job, b.job)
    && (a.tasks != [] ==> |b.tasks| == |a.tasks|)
    && (forall i :: 0 <= i < |a.tasks| && i < |b.tasks| ==> TaskAdvances(a.tasks[i], b.tasks[i]))
    && |a.results| <= |b.results| && b.results[..|a.results|] == a.results
    && (TerminalJob(a.job.status) ==> b == a)
  }

  lemma AdvancesOnward(a: Db, b: Db, c: Db)
    requires Advances(a, b) && Advances(b, c)
    ensures Advances(a, c)
  {
    assert c.results[..|a.results|] == c.results[..|b.results|][..|a.results|];
  }

  lemma StandsStill(db: Db)
    ensures Advances(db, db)
  {
  }
}

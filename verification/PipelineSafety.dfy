/** What every step of the pipeline keeps, and what that gives over every run. */
module PipelineSafety {
  import opened Options
  import opened Catalog
  import Registry
  import opened FailureReasons
  import opened Orchestration
  import opened Pipeline

  // ------------------------------------------------------------- the matrix

  /** A launch the matrix can be built for: file modules exactly on an upload. */
  predicate WellFormedLaunch(j: JobRow) {
    forall m :: m in j.modules ==> (m == File <==> j.fileUploadId.Some?)
  }

  /** `tests` fan out from `modules`: every module is there, nothing else is, and
      `not_applicable` marks exactly the file tests. */
  ghost predicate FansOut(tests: seq<CatalogEntry>, modules: seq<ScanModule>) {
    && (forall e :: e in tests ==> e.scanModule in modules && (e.classification == NotApplicable <==> e.scanModule == File))
    && (forall m :: m in modules ==> exists e :: e in tests && e.scanModule == m)
  }

  lemma FansOutFurther(tests: seq<CatalogEntry>, modules: seq<ScanModule>, more: seq<CatalogEntry>, m: ScanModule)
    requires FansOut(tests, modules) && more != []
    requires forall e :: e in more ==> e.scanModule == m && (e.classification == NotApplicable <==> m == File)
    ensures FansOut(tests + more, modules + [m])
  {
    var all := tests + more;
    forall e | e in all
      ensures e.scanModule in modules + [m] && (e.classification == NotApplicable <==> e.scanModule == File)
    {
      assert e in tests || e in more;
    }
    forall k | k in modules + [m] ensures exists e :: e in all && e.scanModule == k {
      if k == m {
        assert more[0] in more && more[0] in all;
      } else {
        var e :| e in tests && e.scanModule == k;
        assert e in all;
      }
    }
  }

  /** One more module: its fan-out is appended, and is not empty. */
  lemma OneMoreFansOut(tests: seq<CatalogEntry>, modules: seq<ScanModule>, m: ScanModule)
    requires FansOut(tests, modules)
    ensures FansOut(tests + TestsForModule(m), modules + [m]) && tests + TestsForModule(m) != []
  {
    FanOut(m);
    FansOutFurther(tests, modules, TestsForModule(m), m);
  }

  lemma SameFanOut(tests: seq<CatalogEntry>, modules: seq<ScanModule>, t: seq<CatalogEntry>, m: seq<ScanModule>)
    requires FansOut(tests, modules) && t == tests && m == modules
    ensures FansOut(t, m)
  {
  }

  lemma RequestedInParts(modules: seq<ScanModule>)
    requires modules != []
    ensures Requested(modules) == Requested(modules[..|modules| - 1]) + TestsForModule(modules[|modules| - 1])
  {
  }

  lemma LastApart<T>(s: seq<T>)
    requires s != []
    ensures s == s[..|s| - 1] + [s[|s| - 1]]
  {
  }

  lemma {:induction false} RequestedFansOut(modules: seq<ScanModule>)
    ensures FansOut(Requested(modules), modules)
    ensures modules != [] ==> Requested(modules) != []
  {
    if modules != [] {
      var before, m := modules[..|modules| - 1], modules[|modules| - 1];
      RequestedFansOut(before);
      OneMoreFansOut(Requested(before), before, m);
      RequestedInParts(modules);
      LastApart(modules);
      SameFanOut(Requested(before) + TestsForModule(m), before + [m], Requested(modules), modules);
    }
  }

  predicate AllTasksCheck(tasks: seq<TaskRow>) {
    forall i :: 0 <= i < |tasks| ==> TaskChecks(tasks[i])
  }

  /** One catalog test yields a legal row exactly when its kind of target is the
      one the launch has. */
  lemma TaskForChecks(j: JobRow, e: CatalogEntry, roster: Registry.Roster, now: int)
    requires JobChecks(j) && (e.classification == NotApplicable <==> e.scanModule == File)
    ensures TaskChecks(TaskFor(j, SpecFor(e, roster), now)) <==> (e.scanModule == File <==> j.fileUploadId.Some?)
    ensures TaskForRow(TaskFor(j, SpecFor(e, roster), now))
  {
  }

  /** A newly created row: queued, or blocked with its reason. */
  predicate TaskForRow(t: TaskRow) {
    t.cancellationRequestedAt.None? && t.startedAt.None? && (t.status == Queued || t.status == Blocked)
  }

  lemma RowsCheckExactlyWhen(j: JobRow, tests: seq<CatalogEntry>, roster: Registry.Roster, now: int)
    requires JobChecks(j) && FansOut(tests, j.modules)
    ensures AllTasksCheck(CreatedTasks(j, SpecsFor(tests, roster), now)) <==> WellFormedLaunch(j)
  {
    var tasks := CreatedTasks(j, SpecsFor(tests, roster), now);
    forall i | 0 <= i < |tests|
      ensures TaskChecks(tasks[i]) <==> (tests[i].scanModule == File <==> j.fileUploadId.Some?)
    {
      assert tests[i] in tests;
      TaskForChecks(j, tests[i], roster, now);
    }
    if AllTasksCheck(tasks) {
      forall m | m in j.modules ensures m == File <==> j.fileUploadId.Some? {
        var e :| e in tests && e.scanModule == m;
        var i :| 0 <= i < |tests| && tests[i] == e;
        assert TaskChecks(tasks[i]);
      }
    }
    if WellFormedLaunch(j) {
      forall i | 0 <= i < |tests| ensures TaskChecks(tasks[i]) {
        assert tests[i] in tests;
      }
    }
  }

  /** The matrix satisfies the CHECK constraints exactly when the launch is well
      formed, whatever is installed. */
  lemma MatrixChecksExactlyWhen(j: JobRow, roster: Registry.Roster, now: int)
    requires JobChecks(j)
    ensures var tasks := CreatedTasks(j, PlannedMatrix(j.modules, roster), now);
      tasks != [] && (AllTasksCheck(tasks) <==> WellFormedLaunch(j))
  {
    RequestedFansOut(j.modules);
    RowsCheckExactlyWhen(j, Requested(j.modules), roster, now);
  }

  /** Some installed module declares the spec's key, version and queue. */
  ghost predicate DeclaredBy(roster: Registry.Roster, spec: TaskSpec) {
    exists m, t :: m in roster.entries && t in m.descriptor.tests
      && t == Registry.TestDeclaration(spec.testKey, spec.testVersion) && Some(m.descriptor.queue) == spec.queue
  }

  /** The planned matrix is launch order by catalog order; a spec has no queue
      exactly when it is blocked, and its version and queue are the ones the
      claiming module declares. */
  lemma PlanIsFaithful(modules: seq<ScanModule>, roster: Registry.Roster, i: nat)
    requires i < |Requested(modules)|
    ensures |PlannedMatrix(modules, roster)| == |Requested(modules)|
    ensures var spec, e := PlannedMatrix(modules, roster)[i], Requested(modules)[i];
      && spec.testKey == e.testKey && spec.scanModule == e.scanModule && spec.classification == e.classification
      && (spec.queue.None? <==> spec.blockedReason.Some?)
      && spec.queue == roster.QueueFor(e.testKey)
      && (spec.queue.Some? ==> DeclaredBy(roster, spec))
  {
    var e := Requested(modules)[i];
    if roster.ByTestKey(e.testKey).Success? {
      var m := roster.ByTestKey(e.testKey).value;
      assert m in roster.entries && m.Declaration(e.testKey) in m.descriptor.tests;
    }
  }

  /** A task dispatch routed to a queue is never refused by a worker of that
      queue, whatever order the worker discovered the same population in. */
  lemma RoutedTaskIsNotRefused(found: seq<Registry.EntryPoint>, order: seq<nat>, tasks: seq<TaskRow>, k: nat, queue: string)
    requires Registry.Acceptable(found) && Registry.IsRearrangement(order, |found|)
    requires k < |tasks| && (k, queue) in ToPublish(tasks, Registry.RosterOf(found))
    ensures Registry.Acceptable(Registry.Rearranged(found, order))
    ensures Refusal(Worker(queue, Registry.RosterOf(Registry.Rearranged(found, order))), tasks[k].testKey) == None
  {
    PublishedTasks(tasks, Registry.RosterOf(found), k, queue);
    Registry.ResolutionIgnoresOrder(found, order, tasks[k].testKey);
  }

  /** What dispatch publishes: exactly the queued, uncancelled, resolvable tasks,
      each with the queue its module declares. */
  lemma {:induction false} PublishedTasks(tasks: seq<TaskRow>, roster: Registry.Roster, k: nat, queue: string)
    ensures (k, queue) in ToPublish(tasks, roster) <==>
      k < |tasks| && Sendable(tasks[k], roster) && roster.QueueFor(tasks[k].testKey) == Some(queue)
  {
    if tasks != [] {
      var n := |tasks| - 1;
      PublishedTasks(tasks[..n], roster, k, queue);
      var rest := ToPublish(tasks[..n], roster);
      var last := if Sendable(tasks[n], roster) then [(n, roster.QueueFor(tasks[n].testKey).value)] else [];
      assert (k, queue) in rest + last <==> (k, queue) in rest || (k, queue) in last;
    }
  }

  // ------------------------------------------------------- the counting rule

  lemma {:induction false} CountCompletedMeans(s: seq<TaskStatus>)
    ensures CountCompleted(s) <= |s|
    ensures CountCompleted(s) == |s| <==> forall x :: x in s ==> x == Completed
    ensures CountCompleted(s) > 0 <==> Completed in s
  {
    if s != [] {
      CountCompletedMeans(s[1..]);
      assert s == [s[0]] + s[1..];
      if CountCompleted(s) == |s| {
        forall x | x in s ensures x == Completed {}
      } else if s[0] == Completed {
        var x :| x in s[1..] && x != Completed;
        assert x in s;
      } else {
        assert s[0] in s;
      }
    }
  }

  /** The job's state in the words of the lifecycle: completed when every child
      is, partial when only some are, canceled or failed when none is. */
  lemma OutcomeMeans(s: seq<TaskStatus>, override: Option<Reason>)
    ensures DeriveJobOutcome(s, override).None? <==> s == [] || exists x :: x in s && !TerminalTask(x)
    ensures DeriveJobOutcome(s, override).Some? ==>
      var (status, reason) := DeriveJobOutcome(s, override).value;
      && (status == JobCompleted <==> forall x :: x in s ==> x == Completed)
      && (status == JobPartial <==> Completed in s && exists x :: x in s && x != Completed)
      && (status == JobCanceled <==> Completed !in s && Canceled in s)
      && (status == JobFailed <==> Completed !in s && Canceled !in s)
      && TerminalJob(status)
      && (override.Some? ==> reason == override)
      && (override.None? ==>
            && (status == JobCompleted <==> reason == None)
            && (status == JobPartial <==> reason == Some(TasksIncomplete))
            && (status == JobCanceled <==> reason == Some(JobCancellation))
            && (status == JobFailed <==> reason == Some(NoUsableResults)))
      && (reason.None? ==> status == JobCompleted)
  {
    CountCompletedMeans(s);
    if DeriveJobOutcome(s, override).Some? {
      assert s[0] in s;
    }
  }

  lemma StatusesAllDone(tasks: seq<TaskRow>, override: Option<Reason>)
    ensures DeriveJobOutcome(Statuses(tasks), override).Some? <==> AllDone(tasks)
  {
    var s := Statuses(tasks);
    assert forall i :: 0 <= i < |s| ==> s[i] in s && s[i] == tasks[i].status;
    OutcomeMeans(s, override);
  }

  // -------------------------------------------------- what each commit keeps

  /** Replacing one live task by a later state of itself. */
  lemma SetTaskKeeps(db: Db, i: TaskId, u: TaskRow)
    requires RowsHold(db) && i < |db.tasks|
    requires !TerminalTask(db.tasks[i].status) && TaskAdvances(db.tasks[i], u) && TaskChecks(u)
    requires u.status != Completed
    ensures RowsHold(SetTask(db, i, u)) && Advances(db, SetTask(db, i, u))
  {
    LiveTaskKeepsResults(db, i, u);
  }

  lemma LiveTaskKeepsResults(db: Db, i: TaskId, u: TaskRow)
    requires ResultsMatch(db) && i < |db.tasks| && db.tasks[i].status != Completed && u.status != Completed
    ensures ResultsMatch(SetTask(db, i, u))
  {
    var next := SetTask(db, i, u);
    assert forall r :: 0 <= r < |db.results| ==> db.results[r].taskId != i;
    forall k | 0 <= k < |next.tasks| && next.tasks[k].status == Completed
      ensures exists r :: 0 <= r < |next.results| && next.results[r].taskId == k
    {
      assert db.tasks[k].status == Completed;
    }
  }

  lemma DispatchKeeps(db: Db, roster: Registry.Roster, now: int)
    requires RowsHold(db)
    ensures var next := Dispatch(db, roster, now).After(db); RowsHold(next) && Advances(db, next)
  {
    if Dispatch(db, roster, now).Dispatched? {
      if db.tasks == [] {
        FirstDispatchKeeps(db, roster, now);
      } else {
        RedispatchKeeps(db, roster, now);
      }
    }
  }

  lemma FirstDispatchKeeps(db: Db, roster: Registry.Roster, now: int)
    requires RowsHold(db) && db.tasks == [] && Dispatch(db, roster, now).Dispatched?
    ensures var next := Dispatch(db, roster, now).After(db); RowsHold(next) && Advances(db, next)
  {
    var next := Dispatch(db, roster, now).db;
    NewMatrixIsUnfinished(db.job, PlannedMatrix(db.job.modules, roster), roster, now);
    assert |db.results| == 0 || db.results[0].taskId < |db.tasks|;
    assert next.results == [];
    assert SameTenant(next) && ResultsMatch(next);
  }

  lemma RedispatchKeeps(db: Db, roster: Registry.Roster, now: int)
    requires RowsHold(db) && db.tasks != [] && Dispatch(db, roster, now).Dispatched?
    ensures var next := Dispatch(db, roster, now).After(db); RowsHold(next) && Advances(db, next)
  {
    var next := Dispatch(db, roster, now).db;
    forall i | 0 <= i < |db.tasks|
      ensures TaskAdvances(db.tasks[i], next.tasks[i])
      ensures db.tasks[i].status == Completed <==> next.tasks[i].status == Completed
      ensures TerminalTask(db.tasks[i].status) ==> next.tasks[i] == db.tasks[i]
    {
      assert next.tasks[i] == Routed(db.tasks[i], roster, now);
    }
    ResultsSurvive(db, next);
    assert SameTenant(next);
  }

  lemma NewMatrixIsUnfinished(j: JobRow, specs: seq<TaskSpec>, roster: Registry.Roster, now: int)
    ensures var tasks := RoutedTasks(CreatedTasks(j, specs, now), roster, now);
      forall i :: 0 <= i < |tasks| ==> tasks[i].status != Completed && tasks[i].organizationId == j.organizationId
  {
  }

  /** Results stand while no task enters or leaves `completed`. */
  lemma ResultsSurvive(a: Db, b: Db)
    requires ResultsMatch(a) && b.results == a.results && |a.tasks| == |b.tasks|
    requires forall i :: 0 <= i < |a.tasks| ==>
      (a.tasks[i].status == Completed <==> b.tasks[i].status == Completed)
      && (a.tasks[i].status == Completed ==> b.tasks[i].finishedAt == a.tasks[i].finishedAt)
    ensures ResultsMatch(b)
  {
  }

  lemma ClaimKeeps(db: Db, i: TaskId, c: Context, w: Worker, now: int)
    requires RowsHold(db)
    ensures var next := Claim(db, i, c, w, now).After(db); RowsHold(next) && Advances(db, next)
  {
    var o := Claim(db, i, c, w, now);
    if o.ClosedAtClaim? || o.Claimed? {
      SetTaskKeeps(db, i, o.db.tasks[i]);
    }
  }

  lemma RecordKeeps(db: Db, i: TaskId, c: Context, o: RunOutcome, finished: int)
    requires RowsHold(db)
    ensures var next := Record(db, i, c, o, finished).After(db); RowsHold(next) && Advances(db, next)
  {
    var r := Record(db, i, c, o, finished);
    if r.Recorded? && r.status != Completed {
      SetTaskKeeps(db, i, r.db.tasks[i]);
    } else if r.Recorded? {
      CompletionKeeps(db, i, ResultFor(db, i, o.result, finished), finished);
    }
  }

  /** Writing the one result of a live task in the commit that completes it. */
  lemma CompletionKeeps(db: Db, i: TaskId, row: ResultRow, finished: int)
    requires RowsHold(db) && i < |db.tasks| && !TerminalTask(db.tasks[i].status)
    requires db.tasks[i].cancellationRequestedAt.None?
    requires row.taskId == i && row.completedAt == finished
    ensures var next := SetTask(db, i, Closed(db.tasks[i], Completed, None, finished)).(results := db.results + [row]);
      RowsHold(next) && Advances(db, next)
  {
    var u := Closed(db.tasks[i], Completed, None, finished);
    var next := SetTask(db, i, u).(results := db.results + [row]);
    CompletionMatches(db, i, row, u);
    assert TaskChecks(u) && TaskAdvances(db.tasks[i], u);
    assert Checks(next) && SameTenant(next);
    assert !TerminalJob(db.job.status);
  }

  lemma CompletionMatches(db: Db, i: TaskId, row: ResultRow, u: TaskRow)
    requires ResultsMatch(db) && i < |db.tasks| && db.tasks[i].status != Completed
    requires u.status == Completed && u.finishedAt == Some(row.completedAt) && row.taskId == i
    ensures ResultsMatch(SetTask(db, i, u).(results := db.results + [row]))
  {
    var next := SetTask(db, i, u).(results := db.results + [row]);
    assert forall q :: 0 <= q < |db.results| ==> db.results[q].taskId != i;
    forall k | 0 <= k < |next.tasks| && next.tasks[k].status == Completed
      ensures exists q :: 0 <= q < |next.results| && next.results[q].taskId == k
    {
      EachCompletedHasItsRow(db, next, i, k);
    }
  }

  lemma EachCompletedHasItsRow(db: Db, next: Db, i: TaskId, k: TaskId)
    requires ResultsMatch(db) && i < |db.tasks| == |next.tasks| && k < |next.tasks|
    requires next.tasks[k].status == Completed && (k != i ==> next.tasks[k] == db.tasks[k])
    requires |next.results| == |db.results| + 1 && next.results[..|db.results|] == db.results
    requires next.results[|db.results|].taskId == i
    ensures exists q :: 0 <= q < |next.results| && next.results[q].taskId == k
  {
    if k == i {
      assert next.results[|db.results|].taskId == k;
    } else {
      var q :| 0 <= q < |db.results| && db.results[q].taskId == k;
      assert next.results[..|db.results|][q].taskId == k;
    }
  }

  lemma ReapKeeps(db: Db, swept: int)
    requires RowsHold(db)
    ensures RowsHold(ReapTasks(db, swept)) && Advances(db, ReapTasks(db, swept))
  {
    var next := ReapTasks(db, swept);
    ResultsSurvive(db, next);
    if TerminalJob(db.job.status) {
      assert next.tasks == db.tasks;
    }
  }

  lemma FinalizeKeeps(db: Db, c: Context, now: int, override: Option<Reason>)
    requires RowsHold(db)
    requires override.None? || (override == Some(JobTimeout) && CutShort(db.tasks))
    ensures var next := Finalize(db, c, now, override).After(db); RowsHold(next) && Advances(db, next)
  {
    var o := Finalize(db, c, now, override);
    if o.Finalized? {
      StatusesAllDone(db.tasks, override);
      OutcomeMeans(Statuses(db.tasks), override);
      ClosingKeeps(db, o.db);
    }
  }

  /** Closing an open job whose children are done, with the outcome they derive. */
  lemma ClosingKeeps(db: Db, next: Db)
    requires RowsHold(db) && !TerminalJob(db.job.status) && next == db.(job := next.job)
    requires JobChecks(next.job) && JobAdvances(db.job, next.job) && next.job.organizationId == db.job.organizationId
    requires AllDone(next.tasks) && OutcomeStands(next)
    ensures RowsHold(next) && Advances(db, next)
  {
  }

  // ------------------------------------------------- what workers still owe

  /** The task whose engine a worker is about to run, runs, or is about to record. */
  function Holds(p: Phase): Option<(TaskId, Context)> {
    match p
    case Publishing(_, next) => Holds(next)
    case Engine(i, c) => Some((i, c))
    case Recording(i, c, _, _) => Some((i, c))
    case Sweeping => None
    case Finalizing(_, _) => None
    case Stopped => None
  }

  /** The finalize call a worker still has to make, with its arguments. */
  function Owes(p: Phase): Option<(Context, Option<Reason>)> {
    match p
    case Publishing(_, next) => Owes(next)
    case Finalizing(c, o) => Some((c, o))
    case Engine(_, _) => None
    case Recording(_, _, _, _) => None
    case Sweeping => None
    case Stopped => None
  }

  ghost predicate PhaseHolds(db: Db, p: Phase) {
    && (Holds(p).Some? ==>
          var (i, c) := Holds(p).value;
          i < |db.tasks| && db.tasks[i].status != Queued && Reaches(c, db.job.organizationId, db.job.id))
    && (Owes(p).Some? ==>
          var (c, o) := Owes(p).value;
          Reaches(c, db.job.organizationId, db.job.id) && (o.None? || (o == Some(JobTimeout) && CutShort(db.tasks))))
  }

  ghost predicate WorkersHold(s: System) {
    && (forall w :: 0 <= w < |s.workers| ==> PhaseHolds(s.db, s.workers[w]))
    && (forall v, w :: 0 <= v < w < |s.workers| && Holds(s.workers[v]).Some? && Holds(s.workers[w]).Some? ==>
          Holds(s.workers[v]).value.0 != Holds(s.workers[w]).value.0)
  }

  ghost predicate Invariant(s: System) {
    RowsHold(s.db) && WorkersHold(s)
  }

  lemma PhaseStillHolds(a: Db, b: Db, p: Phase)
    requires Advances(a, b) && PhaseHolds(a, p) && RowsHold(a) && RowsHold(b)
    ensures PhaseHolds(b, p)
  {
    if Holds(p).Some? {
      var i := Holds(p).value.0;
      assert TaskAdvances(a.tasks[i], b.tasks[i]);
    }
    if CutShort(a.tasks) {
      var i :| 0 <= i < |a.tasks| && a.tasks[i].status == Failed && a.tasks[i].statusReason == Some(JobTimeout);
      assert b.tasks[i] == a.tasks[i];
    }
  }

  /** A step that commits `db` and appends or replaces one worker. */
  lemma WorkersStillHold(s: System, t: System, w: nat)
    requires Invariant(s) && RowsHold(t.db) && Advances(s.db, t.db)
    requires w <= |s.workers| && w < |t.workers| && |s.workers| <= |t.workers| <= |s.workers| + 1
    requires |t.workers| == |s.workers| + 1 ==> w == |s.workers|
    requires forall v :: 0 <= v < |t.workers| && v != w ==> t.workers[v] == s.workers[v]
    requires PhaseHolds(t.db, t.workers[w])
    requires Holds(t.workers[w]).Some? ==>
      (w < |s.workers| && Holds(s.workers[w]) == Holds(t.workers[w]))
      || (Holds(t.workers[w]).value.0 < |s.db.tasks| && s.db.tasks[Holds(t.workers[w]).value.0].status == Queued)
    ensures Invariant(t)
  {
    forall v | 0 <= v < |t.workers| ensures PhaseHolds(t.db, t.workers[v]) {
      if v != w { PhaseStillHolds(s.db, t.db, s.workers[v]); }
    }
    forall u, v | 0 <= u < v < |t.workers| && Holds(t.workers[u]).Some? && Holds(t.workers[v]).Some?
      ensures Holds(t.workers[u]).value.0 != Holds(t.workers[v]).value.0
    {
      if u != w { assert PhaseHolds(s.db, s.workers[u]); }
      if v != w { assert PhaseHolds(s.db, s.workers[v]); }
    }
  }

  lemma {:induction false} LiveTasksMean(tasks: seq<TaskRow>, i: TaskId)
    ensures i in LiveTasks(tasks) <==> i < |tasks| && !TerminalTask(tasks[i].status)
  {
    if tasks != [] {
      var n := |tasks| - 1;
      LiveTasksMean(tasks[..n], i);
      var last := if TerminalTask(tasks[n].status) then [] else [n];
      assert i in LiveTasks(tasks[..n]) + last <==> i in LiveTasks(tasks[..n]) || i in last;
    }
  }

  lemma SweepCutsShort(db: Db, swept: int)
    requires LiveTasks(db.tasks) != []
    ensures CutShort(ReapTasks(db, swept).tasks)
  {
    var i := LiveTasks(db.tasks)[0];
    assert i in LiveTasks(db.tasks);
    LiveTasksMean(db.tasks, i);
    var u := ReapTasks(db, swept).tasks[i];
    assert u.status == Failed && u.statusReason == Some(JobTimeout);
  }

  lemma DispatchStepKeeps(s: System, roster: Registry.Roster, now: int)
    requires Invariant(s)
    ensures var t := AfterDispatch(s, Dispatch(s.db, roster, now), now); Invariant(t) && Advances(s.db, t.db)
  {
    var o := Dispatch(s.db, roster, now);
    DispatchKeeps(s.db, roster, now);
    if o.Dispatched? {
      WorkersStillHold(s, AfterDispatch(s, o, now), |s.workers|);
    }
  }

  lemma ClaimStepKeeps(s: System, i: TaskId, c: Context, worker: Worker, now: int)
    requires Invariant(s)
    ensures var t := AfterClaim(s, i, c, Claim(s.db, i, c, worker, now), now); Invariant(t) && Advances(s.db, t.db)
  {
    var o := Claim(s.db, i, c, worker, now);
    ClaimKeeps(s.db, i, c, worker, now);
    if o.Claimed? || o.ClosedAtClaim? {
      ClaimerHolds(s, i, c, worker, now);
      WorkersStillHold(s, AfterClaim(s, i, c, o, now), |s.workers|);
    }
  }

  /** The worker that claimed holds the task, which was queued until then. */
  lemma ClaimerHolds(s: System, i: TaskId, c: Context, worker: Worker, now: int)
    requires SameTenant(s.db) && Claim(s.db, i, c, worker, now) != Missing && !Claim(s.db, i, c, worker, now).Duplicate?
    ensures var t := AfterClaim(s, i, c, Claim(s.db, i, c, worker, now), now);
      var p := t.workers[|s.workers|];
      PhaseHolds(t.db, p) && (Holds(p).Some? ==> Holds(p).value.0 == i)
    ensures i < |s.db.tasks| && s.db.tasks[i].status == Queued
  {
    assert s.db.tasks[i].organizationId == s.db.job.organizationId;
  }

  lemma SelectKeeps(s: System)
    requires Invariant(s)
    ensures Invariant(Spawn(s, s.db, Sweeping))
  {
    StandsStill(s.db);
    WorkersStillHold(s, Spawn(s, s.db, Sweeping), |s.workers|);
  }

  lemma BeatKeeps(s: System, now: int)
    requires Invariant(s)
    ensures Invariant(Apply(s, Beat(now))) && Apply(s, Beat(now)).db == s.db
  {
    StandsStill(s.db);
    if s.db.job.status == JobRunning {
      WorkersStillHold(s, Apply(s, Beat(now)), |s.workers|);
    }
  }

  lemma RecordStepKeeps(s: System, w: nat)
    requires Invariant(s) && w < |s.workers| && s.workers[w].Recording?
    ensures var t := AfterRecord(s, w, s.workers[w]); Invariant(t) && Advances(s.db, t.db)
  {
    var p := s.workers[w];
    StandsStill(s.db);
    assert PhaseHolds(s.db, p);
    RecordKeeps(s.db, p.task, p.context, p.outcome, p.finished);
    WorkersStillHold(s, AfterRecord(s, w, p), w);
  }

  /** A worker that holds no task moves on with a commit. */
  lemma MoveKeeps(s: System, db: Db, w: nat, p: Phase)
    requires Invariant(s) && RowsHold(db) && Advances(s.db, db) && w < |s.workers|
    requires PhaseHolds(db, p) && Holds(p).None?
    ensures Invariant(Move(s, db, w, p))
  {
    WorkersStillHold(s, Move(s, db, w, p), w);
  }

  lemma SweeperOwesHonestly(db: Db, swept: int)
    ensures PhaseHolds(ReapTasks(db, swept), SweepPhase(LiveTasks(db.tasks), swept))
    ensures Holds(SweepPhase(LiveTasks(db.tasks), swept)).None?
  {
    if LiveTasks(db.tasks) != [] { SweepCutsShort(db, swept); }
  }

  lemma SweepKeeps(s: System, w: nat, swept: int)
    requires Invariant(s) && w < |s.workers| && s.workers[w].Sweeping?
    ensures var t := AfterSweep(s, w, swept); Invariant(t) && Advances(s.db, t.db)
  {
    ReapKeeps(s.db, swept);
    SweeperOwesHonestly(s.db, swept);
    MoveKeeps(s, ReapTasks(s.db, swept), w, SweepPhase(LiveTasks(s.db.tasks), swept));
  }

  lemma FinalizeStepKeeps(s: System, w: nat, now: int)
    requires Invariant(s) && w < |s.workers| && s.workers[w].Finalizing?
    ensures var t := AfterFinalize(s, w, s.workers[w], now); Invariant(t) && Advances(s.db, t.db)
  {
    var p := s.workers[w];
    StandsStill(s.db);
    assert PhaseHolds(s.db, p);
    FinalizeKeeps(s.db, p.context, now, p.override);
    WorkersStillHold(s, AfterFinalize(s, w, p, now), w);
  }

  lemma CancellationKeeps(s: System, i: TaskId, now: int)
    requires Invariant(s)
    ensures var t := AfterCancellation(s, i, now); Invariant(t) && Advances(s.db, t.db)
  {
    var t := AfterCancellation(s, i, now);
    StandsStill(s.db);
    if t != s {
      SetTaskKeeps(s.db, i, t.db.tasks[i]);
      forall w | 0 <= w < |t.workers| ensures PhaseHolds(t.db, t.workers[w]) {
        PhaseStillHolds(s.db, t.db, s.workers[w]);
      }
    }
  }

  /** Steps that commit nothing only move one worker on. */
  lemma LocalStepKeeps(s: System, l: Label)
    requires Invariant(s) && (l.EndEngine? || l.Publish? || l.Crash?)
    ensures Invariant(Apply(s, l)) && Apply(s, l).db == s.db
  {
    var t := Apply(s, l);
    StandsStill(s.db);
    if t != s {
      assert PhaseHolds(s.db, s.workers[l.w]);
      WorkersStillHold(s, t, l.w);
    }
  }

  /** Every step of every worker and of the environment keeps the invariant, and
      moves the rows only forward. */
  lemma StepKeeps(s: System, l: Label)
    requires Invariant(s)
    ensures Invariant(Apply(s, l)) && Advances(s.db, Apply(s, l).db)
  {
    StandsStill(s.db);
    match l {
      case DeliverDispatch(roster, now) => DispatchStepKeeps(s, roster, now);
      case DeliverTask(i, c, worker, now) => ClaimStepKeeps(s, i, c, worker, now);
      case SelectStuck(_) => SelectKeeps(s);
      case Beat(now) => BeatKeeps(s, now);
      case EndEngine(_, _, _) => LocalStepKeeps(s, l);
      case Publish(_, _) => LocalStepKeeps(s, l);
      case Crash(_) => LocalStepKeeps(s, l);
      case RecordStep(w) => if w < |s.workers| && s.workers[w].Recording? { RecordStepKeeps(s, w); }
      case Sweep(w, swept) => if w < |s.workers| && s.workers[w].Sweeping? { SweepKeeps(s, w, swept); }
      case FinalizeStep(w, now) => if w < |s.workers| && s.workers[w].Finalizing? { FinalizeStepKeeps(s, w, now); }
      case RequestCancellation(i, now) => CancellationKeeps(s, i, now);
    }
  }

  lemma {:induction false} RunKeeps(s: System, labels: seq<Label>)
    requires Invariant(s)
    ensures Invariant(Run(s, labels)) && Advances(s.db, Run(s, labels).db)
  {
    StandsStill(s.db);
    if labels != [] {
      var before := Run(s, labels[..|labels| - 1]);
      RunKeeps(s, labels[..|labels| - 1]);
      StepKeeps(before, labels[|labels| - 1]);
      AdvancesOnward(s.db, before.db, Run(s, labels).db);
    }
  }

  // ------------------------------------------------------- over every run

  /** Under any interleaving, redelivery, loss and crash: the rows satisfy their
      CHECK constraints, and a terminal job has a non-empty matrix of terminal
      tasks whose count derives to exactly the stored state and reason. */
  lemma EveryReachableState(s: System, labels: seq<Label>)
    requires Initial(s)
    ensures var db := Run(s, labels).db;
      && Checks(db)
      && ResultsMatch(db)
      && (TerminalJob(db.job.status) ==> AllDone(db.tasks) && OutcomeStands(db))
    ensures Invariant(Run(s, labels))
  {
    RunKeeps(s, labels);
  }

  /** Once closed, a job's rows never change again, whatever still arrives. */
  lemma ClosedForGood(s: System, labels: seq<Label>, more: seq<Label>)
    requires Initial(s) && TerminalJob(Run(s, labels).db.job.status)
    ensures Run(s, labels + more).db == Run(s, labels).db
  {
    RunKeeps(s, labels);
    RunKeeps(Run(s, labels), more);
    RunSplit(s, labels, more);
  }

  /** A terminal task never changes again, and it has exactly one result when it
      is completed and none otherwise, stamped with its own finish. */
  lemma TerminalTaskIsFinal(s: System, labels: seq<Label>, more: seq<Label>, i: TaskId)
    requires Initial(s) && i < |Run(s, labels).db.tasks| && TerminalTask(Run(s, labels).db.tasks[i].status)
    ensures var a, b := Run(s, labels).db, Run(s, labels + more).db;
      && i < |b.tasks| && b.tasks[i] == a.tasks[i]
      && (a.tasks[i].status == Completed ==>
            exists r :: 0 <= r < |a.results| && a.results[r].taskId == i
              && a.tasks[i].finishedAt == Some(a.results[r].completedAt)
              && (forall q :: 0 <= q < |b.results| && b.results[q].taskId == i ==> q == r))
      && (a.tasks[i].status != Completed ==> forall q :: 0 <= q < |b.results| ==> b.results[q].taskId != i)
  {
    RunKeeps(s, labels);
    RunKeeps(Run(s, labels), more);
    RunSplit(s, labels, more);
    var a, b := Run(s, labels).db, Run(s, labels + more).db;
    if a.tasks[i].status == Completed {
      var r :| 0 <= r < |a.results| && a.results[r].taskId == i;
      assert b.results[r] == a.results[r];
    }
  }

  /** A cancellation on record before the result is written keeps the task from
      ever completing, and so from ever gaining a result. */
  lemma CancellationBlocksTheResult(s: System, labels: seq<Label>, more: seq<Label>, i: TaskId)
    requires Initial(s) && i < |Run(s, labels).db.tasks|
    requires Run(s, labels).db.tasks[i].cancellationRequestedAt.Some? && Run(s, labels).db.tasks[i].status != Completed
    ensures var b := Run(s, labels + more).db;
      && i < |b.tasks| && b.tasks[i].status != Completed
      && forall r :: 0 <= r < |b.results| ==> b.results[r].taskId != i
  {
    RunKeeps(s, labels);
    RunKeeps(Run(s, labels), more);
    RunSplit(s, labels, more);
  }

  /** No two workers ever hold the same task, so a task's engine is started at
      most once however often its message is delivered; and the row-security arm
      a worker was given still reaches the job when it comes to close it. */
  lemma OneWorkerPerTask(s: System, labels: seq<Label>, v: nat, w: nat)
    requires Initial(s) && v < w < |Run(s, labels).workers|
    ensures var t := Run(s, labels);
      && (Holds(t.workers[v]).Some? && Holds(t.workers[w]).Some? ==>
            Holds(t.workers[v]).value.0 != Holds(t.workers[w]).value.0)
      && (Owes(t.workers[w]).Some? ==> Reaches(Owes(t.workers[w]).value.0, t.db.job.organizationId, t.db.job.id))
  {
    RunKeeps(s, labels);
  }

  /** Dispatch is refused by the database exactly when it would have to build the
      matrix of an ill-formed launch. */
  lemma DispatchRefusedExactlyWhen(s: System, labels: seq<Label>, roster: Registry.Roster, now: int)
    requires Initial(s)
    ensures var db := Run(s, labels).db;
      Dispatch(db, roster, now).Refused? <==>
        !TerminalJob(db.job.status) && db.tasks == [] && !WellFormedLaunch(db.job)
  {
    RunKeeps(s, labels);
    RefusedExactlyWhen(Run(s, labels).db, roster, now);
  }

  lemma RefusedExactlyWhen(db: Db, roster: Registry.Roster, now: int)
    requires RowsHold(db)
    ensures Dispatch(db, roster, now).Refused? <==>
      !TerminalJob(db.job.status) && db.tasks == [] && !WellFormedLaunch(db.job)
  {
    if TerminalJob(db.job.status) {
    } else if db.tasks == [] {
      var specs := PlannedMatrix(db.job.modules, roster);
      MatrixChecksExactlyWhen(db.job, roster, now);
      NewRowsAreConsistent(db.job, specs, now);
      RoutingKeepsChecks(CreatedTasks(db.job, specs, now), roster, now);
    } else {
      assert AllTasksCheck(db.tasks);
      RoutingKeepsChecks(db.tasks, roster, now);
    }
  }

  /** Finish and reason are set as the status demands. */
  predicate Consistent(t: TaskRow) {
    (TerminalTask(t.status) <==> t.finishedAt.Some?) && (t.status == Blocked ==> t.statusReason.Some?)
  }

  lemma NewRowsAreConsistent(j: JobRow, specs: seq<TaskSpec>, now: int)
    ensures forall i :: 0 <= i < |specs| ==> Consistent(CreatedTasks(j, specs, now)[i])
  {
  }

  lemma RoutingKeepsChecks(tasks: seq<TaskRow>, roster: Registry.Roster, now: int)
    requires forall i :: 0 <= i < |tasks| ==> Consistent(tasks[i])
    ensures AllTasksCheck(tasks) <==> AllTasksCheck(RoutedTasks(tasks, roster, now))
  {
    var routed := RoutedTasks(tasks, roster, now);
    forall i | 0 <= i < |tasks| ensures TaskChecks(tasks[i]) <==> TaskChecks(routed[i]) {
      assert Consistent(tasks[i]);
    }
  }

  lemma {:induction false} RoutedPublishesTheSame(tasks: seq<TaskRow>, roster: Registry.Roster, now: int)
    ensures ToPublish(RoutedTasks(tasks, roster, now), roster) == ToPublish(tasks, roster)
  {
    if tasks != [] {
      var n := |tasks| - 1;
      RoutedPublishesTheSame(tasks[..n], roster, now);
      assert RoutedTasks(tasks, roster, now)[..n] == RoutedTasks(tasks[..n], roster, now);
    }
  }

  lemma RoutingIsStable(tasks: seq<TaskRow>, roster: Registry.Roster, now: int, later: int)
    ensures RoutedTasks(RoutedTasks(tasks, roster, now), roster, later) == RoutedTasks(tasks, roster, now)
  {
  }

  /** Dispatch is idempotent: delivered again over the rows it left, it recreates
      nothing, moves no row, announces nothing, and sends the same children. */
  lemma RedispatchIsIdempotent(db: Db, roster: Registry.Roster, now: int, later: int)
    requires JobChecks(db.job) && Dispatch(db, roster, now).Dispatched?
    ensures var once := Dispatch(db, roster, now);
      Dispatch(once.db, roster, later) == Dispatched(once.db, false, once.publish)
  {
    MatrixChecksExactlyWhen(db.job, roster, now);
    var tasks := if db.tasks == [] then CreatedTasks(db.job, PlannedMatrix(db.job.modules, roster), now) else db.tasks;
    RoutedPublishesTheSame(tasks, roster, now);
    RoutingIsStable(tasks, roster, now, later);
  }

  /** Such a launch can be committed: the file module on a domain target. No run
      changes its rows, and whatever is installed and whenever it is delivered,
      every dispatch of it is refused. */
  lemma AnIllFormedLaunch() returns (s: System)
    ensures Initial(s) && !WellFormedLaunch(s.db.job)
    ensures forall roster, now :: Dispatch(s.db, roster, now).Refused?
    ensures forall labels :: Run(s, labels).db == s.db
  {
    s := System(Db(GuestFileJob(), [], []), [], []);
    GuestFileJobIsLaunched();
    forall roster, now ensures Dispatch(s.db, roster, now).Refused? {
      RefusedExactlyWhen(s.db, roster, now);
    }
    forall labels ensures Run(s, labels).db == s.db {
      IllFormedLaunchNeverStarts(s, labels);
    }
  }

  /** A guest job with a domain target and the file module. */
  function GuestFileJob(): JobRow {
    JobRow(0, None, None, Some("example.com"), None, [File], map[], true, JobQueued, None, Some(At(1)), 0, None, None)
  }

  lemma GuestFileJobIsLaunched()
    ensures Launched(Db(GuestFileJob(), [], [])) && !WellFormedLaunch(GuestFileJob())
    ensures RowsHold(Db(GuestFileJob(), [], []))
  {
    assert File in GuestFileJob().modules;
  }

  /** With no task to act on and no matrix to build, a step commits nothing. */
  lemma NothingToDo(s: System, l: Label)
    requires Invariant(s) && s.db.tasks == [] && !WellFormedLaunch(s.db.job)
    ensures Apply(s, l).db == s.db
  {
    match l {
      case DeliverDispatch(roster, now) => RefusedExactlyWhen(s.db, roster, now);
      case FinalizeStep(w, now) =>
        if w < |s.workers| && s.workers[w].Finalizing? {
          StatusesAllDone(s.db.tasks, s.workers[w].override);
        }
      case Sweep(w, swept) => assert ReapTasks(s.db, swept).tasks == [];
      case DeliverTask(_, _, _, _) =>
      case SelectStuck(_) =>
      case Beat(_) =>
      case EndEngine(_, _, _) =>
      case Publish(_, _) =>
      case Crash(_) =>
      case RecordStep(w) =>
      case RequestCancellation(i, now) =>
    }
  }

  /** An ill-formed launch is therefore never started: its job stays queued with
      no tasks through every run, however often the reaper re-publishes it. */
  lemma {:induction false} IllFormedLaunchNeverStarts(s: System, labels: seq<Label>)
    requires Initial(s) && s.db.tasks == [] && !WellFormedLaunch(s.db.job)
    ensures Run(s, labels).db == s.db
  {
    if labels != [] {
      var shorter := labels[..|labels| - 1];
      IllFormedLaunchNeverStarts(s, shorter);
      RunKeeps(s, shorter);
      NothingToDo(Run(s, shorter), labels[|labels| - 1]);
    }
  }
}

/** The pipeline's transactions as they change the rows of one job, each proved
    to leave exactly what the specification in `Orchestration` says. */
module PipelineStore {
  import opened Options
  import opened Catalog
  import Registry
  import opened Findings
  import opened FailureReasons
  import opened Orchestration

  /** Plan the matrix: one spec per catalog test of each requested module. */
  method PlanTaskMatrix(modules: seq<ScanModule>, roster: Registry.Roster) returns (specs: seq<TaskSpec>)
    ensures specs == PlannedMatrix(modules, roster)
  {
    specs := [];
    for m := 0 to |modules|
      invariant specs == PlannedMatrix(modules[..m], roster)
    {
      var planned := PlanModule(TestsForModule(modules[m]), roster);
      specs := specs + planned;
      OneMoreModule(modules, m, roster);
    }
    assert modules[..|modules|] == modules;
  }

  /** The inner loop of the plan: the tests of one module, in catalog order. */
  method PlanModule(entries: seq<CatalogEntry>, roster: Registry.Roster) returns (specs: seq<TaskSpec>)
    ensures specs == SpecsFor(entries, roster)
  {
    specs := [];
    for e := 0 to |entries|
      invariant specs == SpecsFor(entries[..e], roster)
    {
      var entry := entries[e];
      match roster.ByTestKey(entry.testKey) {
        case Failure(_) =>
          specs := specs + [TaskSpec(entry.testKey, UNAVAILABLE_TEST_VERSION, entry.scanModule,
                                     entry.classification, None, Some(ModuleUnavailable))];
        case Success(loaded) =>
          var declared := loaded.Declaration(entry.testKey);
          specs := specs + [TaskSpec(entry.testKey, declared.testVersion, entry.scanModule,
                                     entry.classification, Some(loaded.descriptor.queue), None)];
      }
      OneMoreSpec(entries, e, roster);
    }
    assert entries[..|entries|] == entries;
  }

  lemma OneMoreSpec(entries: seq<CatalogEntry>, e: nat, roster: Registry.Roster)
    requires e < |entries|
    ensures SpecsFor(entries[..e + 1], roster) == SpecsFor(entries[..e], roster) + [SpecFor(entries[e], roster)]
  {
  }

  lemma OneMoreModule(modules: seq<ScanModule>, m: nat, roster: Registry.Roster)
    requires m < |modules|
    ensures PlannedMatrix(modules[..m + 1], roster)
         == PlannedMatrix(modules[..m], roster) + SpecsFor(TestsForModule(modules[m]), roster)
  {
    assert modules[..m + 1][..m] == modules[..m];
    var a, b := Requested(modules[..m]), TestsForModule(modules[m]);
    assert Requested(modules[..m + 1]) == a + b;
    SpecsOfBoth(a, b, roster);
  }

  lemma SpecsOfBoth(a: seq<CatalogEntry>, b: seq<CatalogEntry>, roster: Registry.Roster)
    ensures SpecsFor(a + b, roster) == SpecsFor(a, roster) + SpecsFor(b, roster)
  {
  }

  method CreateTasks(job: JobRow, specs: seq<TaskSpec>, now: int) returns (tasks: seq<TaskRow>)
    ensures tasks == CreatedTasks(job, specs, now)
  {
    tasks := [];
    for i := 0 to |specs|
      invariant tasks == CreatedTasks(job, specs[..i], now)
    {
      var spec := specs[i];
      var isFile, blocked := spec.scanModule == File, spec.blockedReason.Some?;
      var target: Option<nat>, domain: Option<string>, upload: Option<nat> := job.assetId, job.targetDomain, None;
      if isFile {
        target, domain, upload := None, None, job.fileUploadId;
      }
      tasks := tasks + [TaskRow(job.organizationId, spec.scanModule, spec.testKey, spec.testVersion,
        spec.classification, target, domain, upload, ConfigurationFor(job, spec.scanModule),
        if blocked then Blocked else Queued, spec.blockedReason, None, now, None, if blocked then Some(now) else None)];
    }
    assert specs[..|specs|] == specs;
  }

  class Store {
    var job: JobRow
    var tasks: seq<TaskRow>
    var results: seq<ResultRow>

    constructor (db: Db)
      ensures Rows() == db
    {
      job, tasks, results := db.job, db.tasks, db.results;
    }

    function Rows(): Db
      reads this
    {
      Db(job, tasks, results)
    }

    /** `queued` to `running`, once; a second delivery does not rewind the start. */
    method MarkJobRunning(now: int)
      modifies this`job
      ensures job == RunningJob(old(job), now)
    {
      if job.status != JobQueued {
        return;
      }
      job := job.(status := JobRunning);
      job := job.(startedAt := Some(now));
    }

    /** `queued` to `running`; anything else raises. */
    method MarkTaskRunning(i: TaskId, now: int) returns (raised: bool)
      requires i < |tasks|
      modifies this`tasks
      ensures raised <==> old(tasks[i].status) != Queued
      ensures tasks == if raised then old(tasks) else old(tasks)[i := Started(old(tasks[i]), now)]
    {
      if tasks[i].status != Queued {
        return true;
      }
      tasks := tasks[i := tasks[i].(status := Running)];
      tasks := tasks[i := tasks[i].(startedAt := Some(now))];
      raised := false;
    }

    /** Move one task into a terminal state, once; it raises on a status that is
        not terminal, a blocked task without a reason, or a task already closed. */
    method MarkTaskTerminal(i: TaskId, status: TaskStatus, reason: Option<Reason>, now: int) returns (raised: bool)
      requires i < |tasks|
      modifies this`tasks
      ensures raised <==>
        !TerminalTask(status) || (status == Blocked && reason.None?) || TerminalTask(old(tasks[i].status))
      ensures tasks == if raised then old(tasks) else old(tasks)[i := Closed(old(tasks[i]), status, reason, now)]
    {
      if !TerminalTask(status) {
        return true;
      }
      if status == Blocked && reason.None? {
        return true;
      }
      if TerminalTask(tasks[i].status) {
        return true;
      }
      tasks := tasks[i := tasks[i].(status := status)];
      tasks := tasks[i := tasks[i].(statusReason := reason)];
      tasks := tasks[i := tasks[i].(finishedAt := Some(now))];
      raised := false;
    }

    method PersistResult(i: TaskId, r: ModuleResult, completedAt: int)
      requires i < |tasks|
      modifies this`results
      ensures results == old(results) + [ResultFor(old(Rows()), i, r, completedAt)]
    {
      var counts := SeverityCounts(r.findings);
      var org := tasks[i].organizationId;
      var rows := FindingRows(r.findings, |results|, org);
      results := results + [ResultRow(i, org, r.schemaVersion, r.grade, r.summary, r.rawOutput, counts, rows, completedAt)];
    }

    /** The locked transaction of `scan.dispatch`, committed or rolled back. */
    method DispatchTransaction(roster: Registry.Roster, now: int) returns (outcome: DispatchOutcome)
      modifies this
      ensures outcome == Dispatch(old(Rows()), roster, now)
      ensures Rows() == outcome.After(old(Rows()))
    {
      if TerminalJob(job.status) {
        return Dropped;
      }
      var savedJob, savedTasks := job, tasks;
      if tasks == [] {
        var specs := PlanTaskMatrix(job.modules, roster);
        tasks := CreateTasks(job, specs, now);
      }
      var announce := job.status == JobQueued;
      MarkJobRunning(now);
      var publish := RouteTasks(roster, now);
      if Checks(Rows()) {
        outcome := Dispatched(Rows(), announce, publish);
      } else {
        job, tasks := savedJob, savedTasks;
        outcome := Refused;
      }
    }

    /** Dispatch's loop over the matrix: collect what to publish, block what lost
        its module. */
    method RouteTasks(roster: Registry.Roster, now: int) returns (publish: seq<(TaskId, string)>)
      modifies this`tasks
      ensures tasks == RoutedTasks(old(tasks), roster, now)
      ensures publish == ToPublish(old(tasks), roster)
    {
      ghost var matrix := tasks;
      publish := [];
      for i := 0 to |tasks|
        invariant |tasks| == |matrix|
        invariant forall k :: 0 <= k < i ==> tasks[k] == Routed(matrix[k], roster, now)
        invariant forall k :: i <= k < |tasks| ==> tasks[k] == matrix[k]
        invariant publish == ToPublish(matrix[..i], roster)
      {
        assert matrix[..i + 1][..i] == matrix[..i];
        if tasks[i].status == Queued && tasks[i].cancellationRequestedAt.None? {
          match roster.QueueFor(tasks[i].testKey) {
            case None =>
              var _ := MarkTaskTerminal(i, Blocked, Some(ModuleUnavailable), now);
            case Some(queue) =>
              publish := publish + [(i, queue)];
          }
        }
        assert tasks[i] == Routed(matrix[i], roster, now);
      }
      assert matrix[..|matrix|] == matrix;
    }

    /** Phase 1 of `scan.run_module`. */
    method ClaimTransaction(i: TaskId, c: Context, w: Worker, now: int) returns (outcome: ClaimOutcome)
      modifies this`tasks
      ensures outcome == Claim(old(Rows()), i, c, w, now)
      ensures Rows() == outcome.After(old(Rows()))
    {
      if i >= |tasks| || !Reaches(c, tasks[i].organizationId, job.id) {
        return Missing;
      }
      if tasks[i].status != Queued {
        return Duplicate(tasks[i].status);
      }
      if tasks[i].cancellationRequestedAt.Some? {
        var _ := MarkTaskTerminal(i, Canceled, Some(TaskCanceled), now);
        return ClosedAtClaim(Rows(), Canceled, TaskCanceled);
      }
      var refusal: Option<Reason> := None;
      match w.roster.ByTestKey(tasks[i].testKey) {
        case Failure(_) => refusal := Some(ModuleUnavailable);
        case Success(entry) =>
          if entry.descriptor.queue != w.queue {
            refusal := Some(Misrouted);
          }
      }
      if refusal.Some? {
        var _ := MarkTaskTerminal(i, Blocked, refusal, now);
        return ClosedAtClaim(Rows(), Blocked, refusal.value);
      }
      var _ := MarkTaskRunning(i, now);
      outcome := Claimed(Rows());
    }

    /** Phase 3 of `scan.run_module`. */
    method RecordTransaction(i: TaskId, c: Context, o: RunOutcome, finished: int) returns (outcome: RecordOutcome)
      modifies this`tasks, this`results
      ensures outcome == Record(old(Rows()), i, c, o, finished)
      ensures Rows() == outcome.After(old(Rows()))
    {
      if i >= |tasks| || !Reaches(c, tasks[i].organizationId, job.id) {
        return Vanished;
      }
      if TerminalTask(tasks[i].status) {
        return AlreadyClosed(tasks[i].status);
      }
      var status: TaskStatus, reason: Option<Reason> := Canceled, Some(TaskCanceled);
      if tasks[i].cancellationRequestedAt.None? {
        match o {
          case Raised(f) => status, reason := Failed, Some(ClassifyFailure(f));
          case ReturnedNothing => status, reason := Failed, Some(EngineError);
          case Returned(r) =>
            PersistResult(i, r, finished);
            status, reason := Completed, None;
        }
      }
      var _ := MarkTaskTerminal(i, status, reason, finished);
      outcome := Recorded(Rows(), status, reason);
    }

    /** The reaper's locked sweep; it reports the tasks it failed. */
    method ReapTransaction(swept: int) returns (failed: seq<TaskId>)
      modifies this`tasks
      ensures Rows() == ReapTasks(old(Rows()), swept)
      ensures failed == LiveTasks(old(tasks))
    {
      failed := [];
      for i := 0 to |tasks|
        invariant |tasks| == |old(tasks)|
        invariant forall k :: 0 <= k < i ==> tasks[k] == Reaped(old(tasks)[k], swept)
        invariant forall k :: i <= k < |tasks| ==> tasks[k] == old(tasks)[k]
        invariant failed == LiveTasks(old(tasks)[..i])
      {
        assert old(tasks)[..i + 1][..i] == old(tasks)[..i];
        if !TerminalTask(tasks[i].status) {
          var _ := MarkTaskTerminal(i, Failed, Some(JobTimeout), swept);
          failed := failed + [i];
        }
      }
      assert old(tasks)[..|tasks|] == old(tasks);
    }

    /** Close the job iff every child is terminal, at most once. */
    method FinalizeJobIfDone(c: Context, now: int, override: Option<Reason>) returns (outcome: FinalizeOutcome)
      modifies this`job
      ensures outcome == Finalize(old(Rows()), c, now, override)
      ensures Rows() == outcome.After(old(Rows()))
    {
      if !Reaches(c, job.organizationId, job.id) || TerminalJob(job.status) {
        return NotDone;
      }
      var derived := DeriveJobOutcome(Statuses(tasks), override);
      if derived.None? {
        return NotDone;
      }
      job := job.(status := derived.value.0, statusReason := derived.value.1);
      job := job.(finishedAt := Some(now));
      if job.purgeAt.None? {
        job := job.(purgeAt := Some(RetentionAfter(now)));
      }
      outcome := Finalized(Rows(), derived.value.0, derived.value.1);
    }
  }
}

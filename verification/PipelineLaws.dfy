/** What each step of the pipeline does, in the words of the lifecycle: which rows
    it moves, exactly when, and what it leaves its worker to announce. */
module PipelineLaws {
  import opened Options
  import opened Catalog
  import Registry
  import opened Findings
  import opened FindingOrder
  import opened FailureReasons
  import opened Orchestration
  import opened Pipeline
  import opened PipelineSafety

  // ------------------------------------------------------------------- claiming

  /** The hint names the tenant, or for a guest the job; the platform names all. */
  predicate NamedBy(c: Context, org: Option<nat>, jobId: nat) {
    || c == Platform
    || (c.Hinted? && c.org.Some? && c.org == org)
    || (c.Hinted? && c.org.None? && c.job == Some(jobId))
  }

  /** The delivery finds a waiting task its hint names. */
  predicate Waiting(db: Db, i: TaskId, c: Context) {
    i < |db.tasks| && db.tasks[i].status == Queued && NamedBy(c, db.tasks[i].organizationId, db.job.id)
  }

  /** A delivery starts a task exactly when it waits, is not cancelled, and the
      worker's roster declares its key on the worker's own queue. It is blocked as
      misrouted exactly when another queue is declared, as unavailable exactly when
      none is, and canceled exactly when a cancellation is on record. Nothing else
      is written. */
  lemma ADeliveryStartsExactlyWhen(s: System, i: TaskId, c: Context, w: Worker, now: int)
    ensures var t := Apply(s, DeliverTask(i, c, w, now));
      if !Waiting(s.db, i, c) then t == s
      else
        var before := s.db.tasks[i];
        var queue := w.roster.QueueFor(before.testKey);
        |t.db.tasks| == |s.db.tasks| && var after := t.db.tasks[i];
        && (after.status == Running <==> before.cancellationRequestedAt.None? && queue == Some(w.queue))
        && (after.status == Blocked && after.statusReason == Some(Misrouted) <==>
              before.cancellationRequestedAt.None? && queue.Some? && queue.value != w.queue)
        && (after.status == Blocked && after.statusReason == Some(ModuleUnavailable) <==>
              before.cancellationRequestedAt.None? && queue.None?)
        && (after.status == Canceled && after.statusReason == Some(TaskCanceled) <==>
              before.cancellationRequestedAt.Some?)
        && (after.status == Running ==> after == before.(status := Running, startedAt := Some(now)))
        && (after.status != Running ==>
              after == before.(status := after.status, statusReason := after.statusReason, finishedAt := Some(now)))
        && t.db == s.db.(tasks := s.db.tasks[i := after])
  {
  }

  /** What the claiming worker has left to do: announce the transition, then run the
      engine, or close the job. */
  lemma AClaimIsAnnounced(s: System, i: TaskId, c: Context, w: Worker, now: int)
    requires Waiting(s.db, i, c)
    ensures var t := Apply(s, DeliverTask(i, c, w, now));
      |t.db.tasks| > i && var after := t.db.tasks[i];
      && |t.workers| == |s.workers| + 1 && t.workers[..|s.workers|] == s.workers && t.log == s.log
      && var p := t.workers[|s.workers|];
         && p.Publishing?
         && p.events == [TaskEvent(i, after.status, if after.status == Running then None else after.statusReason, now)]
         && p.next == if after.status == Running then Engine(i, c) else Finalizing(c, None)
  {
  }

  /** Over every run: a worker that holds a task took it from a delivery to a worker
      whose roster declares the task's key on that worker's queue. */
  lemma {:induction false} AHeldTaskWasRouted(s: System, labels: seq<Label>, w: nat) returns (k: nat)
    requires Initial(s) && w < |Run(s, labels).workers| && Holds(Run(s, labels).workers[w]).Some?
    ensures k < |labels| && labels[k].DeliverTask?
    ensures var i := Holds(Run(s, labels).workers[w]).value.0;
      && labels[k].task == i && i < |Run(s, labels).db.tasks|
      && labels[k].worker.roster.QueueFor(Run(s, labels).db.tasks[i].testKey) == Some(labels[k].worker.queue)
  {
    k := 0;
    if labels != [] {
      var n := |labels| - 1;
      var before := Run(s, labels[..n]);
      RunKeeps(s, labels[..n]);
      StepKeeps(before, labels[n]);
      if w < |before.workers| && Holds(before.workers[w]).Some? {
        HeldStaysHeld(before, labels[n], w);
        k := AHeldTaskWasRouted(s, labels[..n], w);
      } else {
        NewlyHeld(before, labels[n], w);
        k := n;
      }
    }
  }

  lemma HeldStaysHeld(s: System, l: Label, w: nat)
    requires Invariant(s) && w < |s.workers| && Holds(s.workers[w]).Some?
    requires w < |Apply(s, l).workers| && Holds(Apply(s, l).workers[w]).Some?
    ensures var i := Holds(s.workers[w]).value.0;
      && Holds(Apply(s, l).workers[w]).value.0 == i && i < |s.db.tasks| && i < |Apply(s, l).db.tasks|
      && Apply(s, l).db.tasks[i].testKey == s.db.tasks[i].testKey
  {
    var i := Holds(s.workers[w]).value.0;
    assert PhaseHolds(s.db, s.workers[w]);
    StepKeeps(s, l);
    assert TaskAdvances(s.db.tasks[i], Apply(s, l).db.tasks[i]);
    SameHold(s, l, w);
  }

  lemma SameHold(s: System, l: Label, w: nat)
    requires w < |s.workers| && Holds(s.workers[w]).Some?
    requires w < |Apply(s, l).workers| && Holds(Apply(s, l).workers[w]).Some?
    ensures Holds(Apply(s, l).workers[w]) == Holds(s.workers[w])
  {
  }

  lemma NewlyHeld(s: System, l: Label, w: nat)
    requires w < |s.workers| ==> Holds(s.workers[w]).None?
    requires w < |Apply(s, l).workers| && Holds(Apply(s, l).workers[w]).Some?
    ensures l.DeliverTask? && Holds(Apply(s, l).workers[w]).value.0 == l.task && l.task < |Apply(s, l).db.tasks|
    ensures l.worker.roster.QueueFor(Apply(s, l).db.tasks[l.task].testKey) == Some(l.worker.queue)
  {
  }

  // ------------------------------------------------------------------ recording

  /** A result row holds a module's result: its findings as a multiset, each row
      naming the result and its tenant, and the five band counts. */
  ghost predicate Stores(row: ResultRow, r: ModuleResult, id: nat, org: Option<nat>) {
    && row.organizationId == org && row.schemaVersion == r.schemaVersion
    && row.grade == r.grade && row.summary == r.summary && row.rawOutput == r.rawOutput
    && multiset(ReadAll(row.findings)) == multiset(r.findings)
    && (forall k :: 0 <= k < |row.findings| ==> row.findings[k].scanResultId == id && row.findings[k].organizationId == org)
    && row.severityCounts == map["critical" := BandSize(r.findings, Critical), "high" := BandSize(r.findings, High),
                                 "medium" := BandSize(r.findings, Medium), "low" := BandSize(r.findings, Low),
                                 "info" := BandSize(r.findings, Info)]
  }

  lemma ResultsAreStored(db: Db, i: TaskId, r: ModuleResult, finished: int)
    requires i < |db.tasks|
    ensures var row := ResultFor(db, i, r, finished);
      Stores(row, r, |db.results|, db.tasks[i].organizationId) && row.taskId == i && row.completedAt == finished
  {
    RowsReadBack(r.findings, |db.results|, db.tasks[i].organizationId);
    CountIsBandSize(r.findings, Critical);
    CountIsBandSize(r.findings, High);
    CountIsBandSize(r.findings, Medium);
    CountIsBandSize(r.findings, Low);
    CountIsBandSize(r.findings, Info);
  }

  /** The budget wording stands at a position of the text. */
  predicate SaysAt(text: string, i: nat) {
    i + 11 <= |text| && text[i..i + 11] == "overran its"
  }

  predicate SaysOverran(text: string) {
    exists i: nat :: i <= |text| && SaysAt(text, i)
  }

  lemma MarkerIsTheWording(text: string)
    ensures Contains(text, TIMEOUT_MARKER) <==> SaysOverran(text)
  {
    if Contains(text, TIMEOUT_MARKER) {
      var i: nat :| i <= |text| && TIMEOUT_MARKER <= text[i..];
      assert text[i..i + 11] == text[i..][..11];
      assert SaysAt(text, i);
    }
    if SaysOverran(text) {
      var i: nat :| i <= |text| && SaysAt(text, i);
      assert text[i..][..11] == text[i..i + 11];
    }
  }

  /** The status and reason an outcome leads to. */
  predicate Decided(before: TaskRow, o: RunOutcome, after: TaskRow) {
    && (after.status == Canceled <==> before.cancellationRequestedAt.Some?)
    && (after.status == Completed <==> before.cancellationRequestedAt.None? && o.Returned?)
    && (after.status == Failed <==> before.cancellationRequestedAt.None? && !o.Returned?)
    && (after.status == Canceled ==> after.statusReason == Some(TaskCanceled))
    && (after.status == Completed ==> after.statusReason == None)
    && (after.status == Failed ==>
          && (after.statusReason == Some(InvalidInput) <==> o.Raised? && o.failure.ValueError?)
          && (after.statusReason == Some(TaskTimeout) <==>
                o.Raised? && o.failure.RuntimeError? && SaysOverran(o.failure.text))
          && (after.statusReason == Some(EngineError) <==>
                o.ReturnedNothing? || (o.Raised? && (o.failure.OtherError?
                  || (o.failure.RuntimeError? && !SaysOverran(o.failure.text))))))
  }

  /** One row was decided, closed at its finish, and its result stored if it
      completed; no other row moved. */
  ghost predicate OneRecorded(db: Db, i: TaskId, o: RunOutcome, finished: int, next: Db)
    requires i < |db.tasks|
  {
    && |next.tasks| == |db.tasks|
    && var before, after := db.tasks[i], next.tasks[i];
       && next.job == db.job && next.tasks == db.tasks[i := after]
       && after == before.(status := after.status, statusReason := after.statusReason, finishedAt := Some(finished))
       && Decided(before, o, after)
       && if o.Returned? && before.cancellationRequestedAt.None?
          then OneStored(db, i, o.result, finished, next) else next.results == db.results
  }

  ghost predicate OneStored(db: Db, i: TaskId, r: ModuleResult, finished: int, next: Db)
    requires i < |db.tasks|
  {
    && |next.results| == |db.results| + 1 && next.results[..|db.results|] == db.results
    && var row := next.results[|db.results|];
       && row.taskId == i && row.completedAt == finished
       && Stores(row, r, |db.results|, db.tasks[i].organizationId)
  }

  /** Over every run: what recording makes of the task a worker holds. A closed task
      is left alone and a cancelled one canceled. Otherwise it completes exactly
      when the module returned a result, which is stored once; else it fails, and
      the reason is the input exactly on a ValueError, the timeout exactly on a
      RuntimeError with the budget wording, and the engine for everything else. */
  lemma RecordingMeans(s: System, labels: seq<Label>, w: nat)
    requires Initial(s)
    requires var t := Run(s, labels); w < |t.workers| && t.workers[w].Recording?
    ensures var t := Run(s, labels);
      var p, next := t.workers[w], Apply(t, RecordStep(w)).db;
      p.task < |t.db.tasks| &&
      if TerminalTask(t.db.tasks[p.task].status) then next == t.db
      else OneRecorded(t.db, p.task, p.outcome, p.finished, next)
  {
    RunKeeps(s, labels);
    RecordStepMeans(Run(s, labels), w);
  }

  lemma RecordStepMeans(t: System, w: nat)
    requires Invariant(t) && w < |t.workers| && t.workers[w].Recording?
    ensures var p, next := t.workers[w], Apply(t, RecordStep(w)).db;
      p.task < |t.db.tasks| &&
      if TerminalTask(t.db.tasks[p.task].status) then next == t.db
      else OneRecorded(t.db, p.task, p.outcome, p.finished, next)
  {
    var p := t.workers[w];
    assert PhaseHolds(t.db, p);
    assert t.db.tasks[p.task].organizationId == t.db.job.organizationId;
    if !TerminalTask(t.db.tasks[p.task].status) {
      RecordMeans(t.db, p.task, p.context, p.outcome, p.finished);
    }
  }

  lemma RecordMeans(db: Db, i: TaskId, c: Context, o: RunOutcome, finished: int)
    requires i < |db.tasks| && Reaches(c, db.tasks[i].organizationId, db.job.id) && !TerminalTask(db.tasks[i].status)
    ensures Record(db, i, c, o, finished).Recorded?
    ensures OneRecorded(db, i, o, finished, Record(db, i, c, o, finished).db)
  {
    if o.Returned? {
      ResultsAreStored(db, i, o.result, finished);
    } else if o.Raised? && o.failure.RuntimeError? {
      MarkerIsTheWording(o.failure.text);
    }
  }

  /** The recording worker announces exactly the transition it committed, and then
      comes to close the job; when nothing was recorded it stops. */
  lemma ARecordingIsAnnounced(t: System, w: nat)
    requires Invariant(t) && w < |t.workers| && t.workers[w].Recording?
    ensures var p, next := t.workers[w], Apply(t, RecordStep(w));
      && p.task < |t.db.tasks| && p.task < |next.db.tasks|
      && var after := next.db.tasks[p.task];
         next.workers == t.workers[w :=
           if TerminalTask(t.db.tasks[p.task].status) then Stopped
           else Publishing([TaskEvent(p.task, after.status, after.statusReason, p.finished)], Finalizing(p.context, None))]
  {
    assert PhaseHolds(t.db, t.workers[w]);
  }

  // ------------------------------------------------------------------ dispatching

  /** What dispatch leaves of a task row: it is blocked as unavailable exactly when
      it was queued, uncancelled, and no installed module declares its key. */
  predicate Dispatched1(before: TaskRow, after: TaskRow, roster: Registry.Roster, now: int) {
    if before.status == Queued && before.cancellationRequestedAt.None? && roster.QueueFor(before.testKey).None?
    then after == before.(status := Blocked, statusReason := Some(ModuleUnavailable), finishedAt := Some(now))
    else after == before
  }

  /** The row a catalog test becomes: it carries the launch's tenant, its module's
      configuration and the one target that fits its kind, and is queued exactly
      when an installed module declares it, at the version that module declares. */
  predicate NewRow(j: JobRow, e: CatalogEntry, roster: Registry.Roster, now: int, t: TaskRow) {
    && t.testKey == e.testKey && t.scanModule == e.scanModule && t.classification == e.classification
    && t.organizationId == j.organizationId
    && (if e.scanModule == File
        then t.fileUploadId == j.fileUploadId && t.targetAssetId == None && t.targetDomain == None
        else t.fileUploadId == None && t.targetAssetId == j.assetId && t.targetDomain == j.targetDomain)
    && t.configuration == (if e.scanModule in j.configuration then j.configuration[e.scanModule] else "{}")
    && t.cancellationRequestedAt == None && t.createdAt == now && t.startedAt == None
    && (if roster.QueueFor(e.testKey).Some?
        then
          && t.status == Queued && t.statusReason == None && t.finishedAt == None
          && exists m, d :: m in roster.entries && d in m.descriptor.tests
               && d == Registry.TestDeclaration(t.testKey, t.testVersion)
        else
          t.status == Blocked && t.statusReason == Some(ModuleUnavailable) && t.finishedAt == Some(now)
          && t.testVersion == "unknown")
  }

  lemma NewRowsMean(j: JobRow, e: CatalogEntry, roster: Registry.Roster, now: int)
    ensures NewRow(j, e, roster, now, TaskFor(j, SpecFor(e, roster), now))
    ensures Routed(TaskFor(j, SpecFor(e, roster), now), roster, now) == TaskFor(j, SpecFor(e, roster), now)
  {
    if roster.ByTestKey(e.testKey).Success? {
      var m := roster.ByTestKey(e.testKey).value;
      var d := m.Declaration(e.testKey);
      assert m in roster.entries && d in m.descriptor.tests && d == Registry.TestDeclaration(e.testKey, d.testVersion);
    }
  }

  /** A dispatch that commits starts a queued job now and leaves a running one its
      start; it builds the rows of the requested tests when there are none, and
      otherwise only blocks what no module serves any more. */
  lemma ADispatchMeans(db: Db, roster: Registry.Roster, now: int)
    requires !TerminalJob(db.job.status) && Dispatch(db, roster, now).Dispatched?
    ensures var o := Dispatch(db, roster, now);
      && o.db.job == db.job.(status := JobRunning,
                             startedAt := if db.job.status == JobQueued then Some(now) else db.job.startedAt)
      && o.db.results == db.results
      && (o.announce <==> db.job.status == JobQueued)
      && if db.tasks == []
         then
           && |o.db.tasks| == |Requested(db.job.modules)|
           && forall i :: 0 <= i < |o.db.tasks| ==> NewRow(db.job, Requested(db.job.modules)[i], roster, now, o.db.tasks[i])
         else
           && |o.db.tasks| == |db.tasks|
           && forall i :: 0 <= i < |db.tasks| ==> Dispatched1(db.tasks[i], o.db.tasks[i], roster, now)
  {
    if db.tasks == [] {
      var requested := Requested(db.job.modules);
      forall i | 0 <= i < |requested|
        ensures NewRow(db.job, requested[i], roster, now, Dispatch(db, roster, now).db.tasks[i])
      {
        NewRowsMean(db.job, requested[i], roster, now);
      }
    }
  }

  lemma LastOfBoth<T>(a: seq<T>, b: seq<T>)
    requires b != []
    ensures (a + b)[..|a + b| - 1] == a + b[..|b| - 1] && (a + b)[|a + b| - 1] == b[|b| - 1]
  {
  }

  lemma Regrouped<T>(a: seq<T>, b: seq<T>, c: seq<T>)
    ensures (a + b) + c == a + (b + c)
  {
  }

  /** The launch order: modules one after the other, each with its own tests. */
  lemma {:induction false} RequestedInLaunchOrder(a: seq<ScanModule>, b: seq<ScanModule>)
    ensures Requested(a + b) == Requested(a) + Requested(b)
  {
    if b == [] {
      assert a + b == a;
    } else {
      RequestedInLaunchOrder(a, b[..|b| - 1]);
      RequestedInParts(a + b);
      RequestedInParts(b);
      LastOfBoth(a, b);
      Regrouped(Requested(a), Requested(b[..|b| - 1]), TestsForModule(b[|b| - 1]));
    }
  }

  /** The dispatching worker announces the start, if there was one, and then comes
      to close a job whose tasks are all blocked. */
  lemma ADispatchIsAnnounced(s: System, roster: Registry.Roster, now: int)
    ensures var o, t := Dispatch(s.db, roster, now), Apply(s, DeliverDispatch(roster, now));
      if !o.Dispatched? then t == s
      else
        && t.db == o.db && t.log == s.log
        && t.workers == s.workers + [Publishing(
             if s.db.job.status == JobQueued then [JobEvent(JobRunning, None, now)] else [], Finalizing(Platform, None))]
  {
    assert JobEvents(JobRunning, None, now) == [JobEvent(JobRunning, None, now)];
  }

  predicate InRowOrder(sent: seq<(TaskId, string)>, bound: nat) {
    && (forall a :: 0 <= a < |sent| ==> sent[a].0 < bound)
    && (forall a, b :: 0 <= a < b < |sent| ==> sent[a].0 < sent[b].0)
  }

  lemma OneMoreInRowOrder(sent: seq<(TaskId, string)>, n: nat, queue: string)
    requires InRowOrder(sent, n)
    ensures InRowOrder(sent, n + 1) && InRowOrder(sent + [(n, queue)], n + 1)
  {
  }

  /** Children are sent in row order, each at most once. */
  lemma {:induction false} SentInRowOrder(tasks: seq<TaskRow>, roster: Registry.Roster)
    ensures InRowOrder(ToPublish(tasks, roster), |tasks|)
  {
    if tasks != [] {
      var n := |tasks| - 1;
      SentInRowOrder(tasks[..n], roster);
      var queue := if Sendable(tasks[n], roster) then roster.QueueFor(tasks[n].testKey).value else "";
      OneMoreInRowOrder(ToPublish(tasks[..n], roster), n, queue);
    }
  }

  // ------------------------------------------------------- sweeping and finalizing

  /** A sweep fails exactly the live tasks, with the job timeout, and its worker then
      announces each of them and closes the job under that reason, or under none
      when it cut nothing short. */
  lemma ASweepMeans(s: System, w: nat, swept: int)
    requires w < |s.workers| && s.workers[w].Sweeping?
    ensures var t := Apply(s, Sweep(w, swept));
      && t.db.job == s.db.job && t.db.results == s.db.results && |t.db.tasks| == |s.db.tasks|
      && (forall i :: 0 <= i < |s.db.tasks| ==>
            if TerminalTask(s.db.tasks[i].status) then t.db.tasks[i] == s.db.tasks[i]
            else t.db.tasks[i] == s.db.tasks[i].(status := Failed, statusReason := Some(JobTimeout), finishedAt := Some(swept)))
      && t.workers[w].Publishing?
      && (forall i: nat :: TaskEvent(i, Failed, Some(JobTimeout), swept) in t.workers[w].events <==>
            i < |s.db.tasks| && !TerminalTask(s.db.tasks[i].status))
      && (forall e :: e in t.workers[w].events ==> e.TaskEvent? && e == TaskEvent(e.task, Failed, Some(JobTimeout), swept))
      && t.workers[w].next == Finalizing(Platform,
           if forall i :: 0 <= i < |s.db.tasks| ==> TerminalTask(s.db.tasks[i].status) then None else Some(JobTimeout))
  {
    var live := LiveTasks(s.db.tasks);
    forall i: nat ensures i in live <==> i < |s.db.tasks| && !TerminalTask(s.db.tasks[i].status) {
      LiveTasksMean(s.db.tasks, i);
    }
    var events := FailedEvents(live, swept);
    forall i: nat ensures TaskEvent(i, Failed, Some(JobTimeout), swept) in events <==> i in live {
      if i in live {
        var k :| 0 <= k < |live| && live[k] == i;
        assert events[k] == TaskEvent(i, Failed, Some(JobTimeout), swept);
      }
    }
    if live != [] {
      assert live[0] in live;
    }
  }

  /** A finalize closes the job exactly when it is open and every task of a
      non-empty matrix is done: now, and with a standing purge deadline kept. */
  lemma AFinalizeMeans(s: System, w: nat, now: int)
    requires Invariant(s) && w < |s.workers| && s.workers[w].Finalizing?
    ensures var t := Apply(s, FinalizeStep(w, now));
      if TerminalJob(s.db.job.status) || !AllDone(s.db.tasks) then t.db == s.db && t.workers == s.workers[w := Stopped]
      else
        && t.db == s.db.(job := t.db.job) && TerminalJob(t.db.job.status)
        && t.db.job == s.db.job.(status := t.db.job.status, statusReason := t.db.job.statusReason,
                                 finishedAt := Some(now), purgeAt := t.db.job.purgeAt)
        && t.db.job.purgeAt == (if s.db.job.purgeAt.Some? then s.db.job.purgeAt else Some(RetentionAfter(now)))
        && t.workers == s.workers[w := Publishing(
             [JobEvent(t.db.job.status, t.db.job.statusReason, now), EndEvent(t.db.job.status, now)], Stopped)]
  {
    var p := s.workers[w];
    assert PhaseHolds(s.db, p);
    StatusesAllDone(s.db.tasks, p.override);
    OutcomeMeans(Statuses(s.db.tasks), p.override);
    if !TerminalJob(s.db.job.status) && AllDone(s.db.tasks) {
      var job := Apply(s, FinalizeStep(w, now)).db.job;
      EndFollows(job.status, job.statusReason, now);
    }
  }

  lemma EndFollows(status: JobStatus, reason: Option<Reason>, now: int)
    requires TerminalJob(status)
    ensures JobEvents(status, reason, now) == [JobEvent(status, reason, now), EndEvent(status, now)]
  {
  }

  /** The reaper leaves alone what is closed or fresh. */
  lemma TheReaperSparesFreshJobs(db: Db, staleBefore: int, timeoutBefore: int)
    ensures TerminalJob(db.job.status) ==> !Stranded(db, staleBefore) && !Stuck(db, timeoutBefore)
    ensures db.job.createdAt >= staleBefore && (forall i :: 0 <= i < |db.tasks| ==> db.tasks[i].createdAt >= staleBefore)
      ==> !Stranded(db, staleBefore)
    ensures db.job.startedAt.Some? && db.job.startedAt.value >= timeoutBefore ==> !Stuck(db, timeoutBefore)
  {
  }

  /** A cancellation is recorded once, on a live task, and touches nothing else. */
  lemma ACancellationMeans(s: System, i: TaskId, now: int)
    ensures var t := Apply(s, RequestCancellation(i, now));
      if i < |s.db.tasks| && !TerminalTask(s.db.tasks[i].status) && s.db.tasks[i].cancellationRequestedAt.None?
      then t == s.(db := s.db.(tasks := s.db.tasks[i := s.db.tasks[i].(cancellationRequestedAt := Some(now))]))
      else t == s
  {
  }

  // --------------------------------------------------------------- between commits

  /** Publishing takes the first event a worker owes, delivered or lost, and then the
      worker comes to its next duty; no row moves. */
  lemma APublishMeans(s: System, w: nat, delivered: bool)
    requires w < |s.workers| && s.workers[w].Publishing?
    ensures var p, t := s.workers[w], Apply(s, Publish(w, delivered));
      && t.db == s.db && t.workers == s.workers[w := t.workers[w]]
      && (p.events == [] ==> t.workers[w] == p.next && t.log == s.log)
      && (p.events != [] ==>
            && t.workers[w] == Publishing(p.events[1..], p.next)
            && t.log == if delivered then s.log + [p.events[0]] else s.log)
  {
  }

  /** An engine run ends with the outcome and the instant it is recorded under. */
  lemma AnEngineRunMeans(s: System, w: nat, o: RunOutcome, finished: int)
    requires w < |s.workers| && s.workers[w].Engine?
    ensures Apply(s, EndEngine(w, o, finished))
         == s.(workers := s.workers[w := Recording(s.workers[w].task, s.workers[w].context, o, finished)])
  {
  }

  /** A beat and a sweep are taken up exactly for a running job, the sweep when it has
      overrun as well; a crash takes all a worker had left to do. */
  lemma TakingUpMeans(s: System, now: int, timeoutBefore: int, w: nat)
    ensures var t := Apply(s, Beat(now));
      t == if s.db.job.status == JobRunning
           then s.(workers := s.workers + [Publishing([HeartbeatEvent(now)], Stopped)]) else s
    ensures var t := Apply(s, SelectStuck(timeoutBefore));
      t == if s.db.job.status == JobRunning && s.db.job.startedAt.Some? && s.db.job.startedAt.value < timeoutBefore
           then s.(workers := s.workers + [Sweeping]) else s
    ensures w < |s.workers| ==> Apply(s, Crash(w)) == s.(workers := s.workers[w := Stopped])
  {
  }
}

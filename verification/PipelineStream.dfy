/** The end of a job's event stream. The stream contract says nothing follows
    `end`; the code keeps it only when every other worker, the heartbeat
    included, has finished publishing. */
module PipelineStream {
  import opened Options
  import opened Catalog
  import Registry
  import opened FailureReasons
  import opened Orchestration
  import opened Pipeline
  import opened PipelineSafety
  import opened PipelineEvents

  /** No worker has anything left to publish. */
  predicate Quiet(s: System) {
    forall w :: 0 <= w < |s.workers| ==> Pending(s.workers[w]) == []
  }

  lemma DoneMeansNoneLive(tasks: seq<TaskRow>)
    requires AllDone(tasks)
    ensures LiveTasks(tasks) == []
  {
    if LiveTasks(tasks) != [] {
      var i := LiveTasks(tasks)[0];
      assert i in LiveTasks(tasks);
      LiveTasksMean(tasks, i);
    }
  }

  /** A closed job gives a new or moving worker nothing to announce. */
  lemma QuietStep(s: System, l: Label)
    requires Invariant(s) && TerminalJob(s.db.job.status) && Quiet(s)
    ensures Apply(s, l).log == s.log && Quiet(Apply(s, l))
  {
    match l {
      case RecordStep(w) => if w < |s.workers| && s.workers[w].Recording? { ClosedRecordIsSilent(s, w); }
      case Sweep(w, swept) => if w < |s.workers| && s.workers[w].Sweeping? { ClosedSweepIsSilent(s, w, swept); }
      case Publish(w, delivered) =>
        if w < |s.workers| && s.workers[w].Publishing? { assert Pending(s.workers[w]) == []; }
      case DeliverTask(i, c, worker, now) => ClosedTaskIsNotClaimed(s.db, i, c, worker, now);
      case _ =>
    }
  }

  lemma ClosedTaskIsNotClaimed(db: Db, i: TaskId, c: Context, worker: Worker, now: int)
    requires AllDone(db.tasks)
    ensures var o := Claim(db, i, c, worker, now); o.Missing? || o.Duplicate?
  {
  }

  lemma ClosedRecordIsSilent(s: System, w: nat)
    requires Invariant(s) && TerminalJob(s.db.job.status) && Quiet(s) && w < |s.workers| && s.workers[w].Recording?
    ensures AfterRecord(s, w, s.workers[w]) == Move(s, s.db, w, Stopped)
  {
    assert PhaseHolds(s.db, s.workers[w]);
  }

  lemma ClosedSweepIsSilent(s: System, w: nat, swept: int)
    requires Invariant(s) && TerminalJob(s.db.job.status) && Quiet(s) && w < |s.workers|
    ensures AfterSweep(s, w, swept).log == s.log && Quiet(AfterSweep(s, w, swept))
  {
    DoneMeansNoneLive(s.db.tasks);
    assert Pending(SweepPhase([], swept)) == [];
  }

  lemma {:induction false} QuietForGood(s: System, more: seq<Label>)
    requires Invariant(s) && TerminalJob(s.db.job.status) && Quiet(s)
    ensures Run(s, more).log == s.log && Quiet(Run(s, more))
  {
    if more != [] {
      var n := |more| - 1;
      QuietForGood(s, more[..n]);
      RunKeeps(s, more[..n]);
      QuietStep(Run(s, more[..n]), more[n]);
    }
  }

  /** A worker that owes an announcement can still make it. */
  lemma {:induction false} PendingCanBePublished(s: System, w: nat, p: Phase) returns (more: seq<Label>)
    requires w < |s.workers| && s.workers[w] == p && Pending(p) != []
    ensures |Run(s, more).log| > |s.log|
    decreases p
  {
    var l := Publish(w, true);
    assert Run(s, [l]) == Apply(s, l) by {
      assert [l][..0] == [] && Run(s, []) == s;
    }
    if p.events != [] {
      more := [l];
    } else {
      assert Pending(p) == Pending(p.next);
      var rest := PendingCanBePublished(Apply(s, l), w, p.next);
      RunSplit(s, [l], rest);
      more := [l] + rest;
    }
  }

  /** Whether anything can ever be published again. */
  ghost predicate StreamIsOver(s: System) {
    forall more :: Run(s, more).log == s.log
  }

  /** Once the job is closed, and so whenever `end` has been published, nothing
      more is ever published exactly when no worker still owes an event. */
  lemma NothingFollowsExactlyWhen(s: System, labels: seq<Label>)
    requires Initial(s) && TerminalJob(Run(s, labels).db.job.status)
    ensures StreamIsOver(Run(s, labels)) <==> Quiet(Run(s, labels))
  {
    RunKeeps(s, labels);
    var t := Run(s, labels);
    if Quiet(t) {
      forall more ensures Run(t, more).log == t.log {
        QuietForGood(t, more);
      }
    } else {
      var w :| 0 <= w < |t.workers| && Pending(t.workers[w]) != [];
      var more := PendingCanBePublished(t, w, t.workers[w]);
      assert Run(t, more).log != t.log;
    }
  }

  // ------------------------------------------------------ two runs that break it

  /** The no-op module's task as the seeding tool creates it. */
  function SeededTask(): TaskRow {
    TaskRow(None, Web, "web.noop", "1.0.0", NonIntrusive, None, Some("example.com"), None, "{}",
            Queued, None, None, 0, None, None)
  }

  /** The guest job it commits beside the task. */
  function SeededJob(): JobRow {
    JobRow(0, None, None, Some("example.com"), None, [Web], map[], true, JobQueued, None, Some(At(86400)), 0, None, None)
  }

  function Seeded(): System {
    System(Db(SeededJob(), [SeededTask()], []), [], [])
  }

  lemma SeededIsInitial()
    ensures Initial(Seeded())
  {
    assert TaskChecks(SeededTask()) && JobChecks(SeededJob());
  }

  lemma RunOne(s: System, a: Label)
    ensures Run(s, [a]) == Apply(s, a)
  {
    assert [a][..0] == [];
  }

  lemma RunTwo(s: System, a: Label, b: Label)
    ensures Run(s, [a, b]) == Apply(Apply(s, a), b)
  {
    assert [a, b][..1] == [a];
    RunOne(s, a);
  }

  lemma RunFour(s: System, a: Label, b: Label, c: Label, d: Label)
    ensures Run(s, [a, b] + [c, d]) == Apply(Apply(Apply(Apply(s, a), b), c), d)
  {
    RunTwo(s, a, b);
    RunTwo(Run(s, [a, b]), c, d);
    RunSplit(s, [a, b], [c, d]);
  }

  /** Over finished rows, worker 0 has announced what it had to and will close the
      job next, while worker 1 has an announcement of its own. */
  predicate TwoSpeakers(s: System, late: Phase) {
    && |s.workers| >= 2 && s.workers[0] == Publishing([], Finalizing(Platform, None)) && s.workers[1] == late
    && late.Publishing? && late.events != []
    && !TerminalJob(s.db.job.status) && Statuses(s.db.tasks) == [Blocked]
  }

  lemma FirstCloses(s: System, late: Phase) returns (status: JobStatus, reason: Option<Reason>)
    requires |s.workers| >= 2 && s.workers[0] == Finalizing(Platform, None) && s.workers[1] == late
    requires !TerminalJob(s.db.job.status) && Statuses(s.db.tasks) == [Blocked]
    ensures TerminalJob(status)
    ensures var t := Apply(s, FinalizeStep(0, 2));
      t.workers == s.workers[0 := Publishing(JobEvents(status, reason, 2), Stopped)] && t.log == s.log
  {
    var statuses := Statuses(s.db.tasks);
    CountCompletedMeans(statuses);
    OutcomeMeans(statuses, None);
    status, reason := JobFailed, Some(NoUsableResults);
  }

  /** Worker 0 closes the job and ends the stream. */
  lemma FirstEndsTheStream(s: System, late: Phase) returns (job: Event, end: Event)
    requires TwoSpeakers(s, late)
    ensures end.EndEvent?
    ensures var s1 := Apply(Apply(s, Publish(0, true)), FinalizeStep(0, 2));
      var s2 := Apply(Apply(s1, Publish(0, true)), Publish(0, true));
      |s2.workers| >= 2 && s2.workers[1] == late && s2.log == s.log + [job, end]
  {
    var standing := System(s.db, s.workers[0 := Finalizing(Platform, None)], s.log);
    assert Apply(s, Publish(0, true)) == standing;
    var status, reason := FirstCloses(standing, late);
    job, end := JobEvent(status, reason, 2), EndEvent(status, 2);
    assert JobEvents(status, reason, 2) == [job, end];
    assert s.log + [job] + [end] == s.log + [job, end];
  }

  /** What worker 1 still had to say comes after the end. */
  predicate SpokeAfterEnd(log: seq<Event>, late: Event) {
    |log| >= 2 && log[|log| - 2].EndEvent? && log[|log| - 1] == late
  }

  lemma SecondSpeaksAfterEnd(s: System, late: Phase) returns (labels: seq<Label>)
    requires TwoSpeakers(s, late)
    ensures SpokeAfterEnd(Run(s, labels).log, late.events[0])
  {
    var job, end := FirstEndsTheStream(s, late);
    var p := Publish(0, true);
    RunFour(s, p, FinalizeStep(0, 2), p, p);
    var four := [p, FinalizeStep(0, 2)] + [p, p];
    RunOne(Run(s, four), Publish(1, true));
    RunSplit(s, four, [Publish(1, true)]);
    labels := four + [Publish(1, true)];
    LastWord(Run(s, four), s.log + [job, end], late);
  }

  lemma LastWord(s: System, log: seq<Event>, late: Phase)
    requires |s.workers| >= 2 && s.workers[1] == late && late.Publishing? && late.events != [] && s.log == log
    ensures Apply(s, Publish(1, true)).log == log + [late.events[0]]
  {
  }

  lemma Continues(s: System, first: seq<Label>, rest: seq<Label>, late: Event)
    requires SpokeAfterEnd(Run(Run(s, first), rest).log, late)
    ensures SpokeAfterEnd(Run(s, first + rest).log, late)
  {
    RunSplit(s, first, rest);
  }

  // ------------------------------------------------------- the steps they share

  /** A roster with the no-op module, as the dispatcher has it. */
  function WithNoop(): Registry.Roster {
    Registry.Roster([Registry.LoadedModule("noop",
      Registry.Descriptor("non-intrusive-scan", [Registry.TestDeclaration("web.noop", "1.0.0")]))])
  }

  lemma NoopIsRouted()
    ensures WithNoop().QueueFor("web.noop") == Some("non-intrusive-scan")
  {
    var m := WithNoop().entries[0];
    assert m.descriptor.tests[0].testKey == "web.noop";
    assert m.Declares("web.noop");
  }

  function RunningEvent(): Event {
    JobEvent(JobRunning, None, 1)
  }

  /** The dispatcher, with the running event and the close still to come. */
  function Dispatcher(): Phase {
    Publishing([RunningEvent()], Finalizing(Platform, None))
  }

  /** Dispatch keeps the pre-created row, starts the job and sends the task. */
  lemma DispatchSends(s: System)
    requires s == Seeded()
    ensures Apply(s, DeliverDispatch(WithNoop(), 1))
         == System(Db(RunningJob(SeededJob(), 1), [SeededTask()], []), [Dispatcher()], [])
    ensures Dispatch(s.db, WithNoop(), 1).Dispatched? && Dispatch(s.db, WithNoop(), 1).publish == [(0, "non-intrusive-scan")]
  {
    NoopIsRouted();
    assert RoutedTasks(s.db.tasks, WithNoop(), 1) == [SeededTask()];
    assert TaskChecks(SeededTask()) && JobChecks(RunningJob(SeededJob(), 1));
    SentAlone(s.db.tasks);
    assert JobEvents(JobRunning, None, 1) == [RunningEvent()];
  }

  lemma SentAlone(tasks: seq<TaskRow>)
    requires tasks == [SeededTask()]
    ensures ToPublish(tasks, WithNoop()) == [(0, "non-intrusive-scan")]
  {
    NoopIsRouted();
    assert tasks[..0] == [];
  }

  /** A scan worker of that queue whose image lost the module refuses the delivery;
      it acts under the guest hint the message carries. */
  function Bare(): Worker {
    Worker("non-intrusive-scan", Registry.Roster([]))
  }

  function Hint(): Context {
    Hinted(None, Some(0))
  }

  function Refuser(): Phase {
    Publishing([TaskEvent(0, Blocked, Some(ModuleUnavailable), 1)], Finalizing(Hint(), None))
  }

  lemma DeliveryIsRefused(s: System)
    requires s.db == Db(RunningJob(SeededJob(), 1), [SeededTask()], [])
    ensures Apply(s, DeliverTask(0, Hint(), Bare(), 1))
         == Spawn(s, SetTask(s.db, 0, Closed(SeededTask(), Blocked, Some(ModuleUnavailable), 1)), Refuser())
  {
    assert Refusal(Bare(), "web.noop") == Some(ModuleUnavailable);
    assert Reaches(Hint(), None, 0);
  }

  lemma OneBlocked(db: Db)
    requires db.tasks == [SeededTask()]
    ensures Statuses(SetTask(db, 0, Closed(SeededTask(), Blocked, Some(ModuleUnavailable), 1)).tasks) == [Blocked]
  {
  }

  // --------------------------------------------------------------- the two runs

  /** The dispatcher has announced the running job, and only then sent the task. */
  function Sent(): System {
    System(Db(RunningJob(SeededJob(), 1), [SeededTask()], []), [Publishing([], Finalizing(Platform, None))],
           [RunningEvent()])
  }

  lemma DispatchThenAnnounce()
    ensures Apply(Apply(Seeded(), DeliverDispatch(WithNoop(), 1)), Publish(0, true)) == Sent()
  {
    DispatchSends(Seeded());
  }

  lemma OpensWithARefusal() returns (first: seq<Label>)
    ensures TwoSpeakers(Run(Seeded(), first), Refuser())
  {
    var deliver := DeliverTask(0, Hint(), Bare(), 1);
    var start := [DeliverDispatch(WithNoop(), 1), Publish(0, true)];
    DispatchThenAnnounce();
    RunTwo(Seeded(), start[0], start[1]);
    RunSplit(Seeded(), start, [deliver]);
    RunOne(Sent(), deliver);
    RefusalFollows(Sent());
    first := start + [deliver];
  }

  lemma RefusalFollows(s: System)
    requires s == Sent()
    ensures TwoSpeakers(Apply(s, DeliverTask(0, Hint(), Bare(), 1)), Refuser())
  {
    DeliveryIsRefused(s);
    OneBlocked(s.db);
  }

  /** A worker refuses the task it was sent; the dispatcher, coming to finalize,
      finds every task done, closes the job and ends the stream before the refusal
      is announced. */
  lemma ATaskEventCanFollowEnd() returns (s: System, labels: seq<Label>, late: Event)
    ensures Initial(s) && late.TaskEvent? && SpokeAfterEnd(Run(s, labels).log, late)
  {
    s, late := Seeded(), Refuser().events[0];
    SeededIsInitial();
    var first := OpensWithARefusal();
    var rest := SecondSpeaksAfterEnd(Run(s, first), Refuser());
    Continues(s, first, rest, late);
    labels := first + rest;
  }

  function Beating(): Phase {
    Publishing([HeartbeatEvent(1)], Stopped)
  }

  lemma BeatThenRefusal(s: System)
    requires s == Sent()
    ensures TwoSpeakers(Apply(Apply(s, Beat(1)), DeliverTask(0, Hint(), Bare(), 1)), Beating())
  {
    var s1 := Apply(s, Beat(1));
    assert s1 == Spawn(s, s.db, Beating());
    DeliveryIsRefused(s1);
    OneBlocked(s1.db);
  }

  lemma OpensWithABeat() returns (first: seq<Label>)
    ensures TwoSpeakers(Run(Seeded(), first), Beating())
  {
    var deliver := DeliverTask(0, Hint(), Bare(), 1);
    DispatchThenAnnounce();
    BeatThenRefusal(Sent());
    RunFour(Seeded(), DeliverDispatch(WithNoop(), 1), Publish(0, true), Beat(1), deliver);
    first := [DeliverDispatch(WithNoop(), 1), Publish(0, true)] + [Beat(1), deliver];
  }

  /** The same launch with a heartbeat that selects the job while it runs and is
      published after the dispatcher has ended the stream. */
  lemma AHeartbeatCanFollowEnd() returns (s: System, labels: seq<Label>, late: Event)
    ensures Initial(s) && late.HeartbeatEvent? && SpokeAfterEnd(Run(s, labels).log, late)
  {
    s, late := Seeded(), Beating().events[0];
    SeededIsInitial();
    var first := OpensWithABeat();
    var rest := SecondSpeaksAfterEnd(Run(s, first), Beating());
    Continues(s, first, rest, late);
    labels := first + rest;
  }
}

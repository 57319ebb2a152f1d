/** The pipeline settles: it commits finitely often, and one dispatch and one
    overdue sweep close any open job. */
module PipelineProgress {
  import opened Options
  import Registry
  import opened FailureReasons
  import opened Orchestration
  import opened Pipeline
  import opened PipelineSafety

  // ------------------------------------------------------ finitely many commits

  function Ranks(tasks: seq<TaskRow>): nat {
    if tasks == [] then 0 else Ranks(tasks[..|tasks| - 1]) + TaskRank(tasks[|tasks| - 1].status)
  }

  /** How far a job is from rest: the matrix still to build, the job's own rank
      and the ranks of its tasks. */
  function Measure(db: Db): nat {
    JobRank(db.job.status) + if db.tasks == [] then 2 * |Requested(db.job.modules)| + 1 else Ranks(db.tasks)
  }

  lemma {:induction false} RanksFall(a: seq<TaskRow>, b: seq<TaskRow>)
    requires |a| == |b| && forall i :: 0 <= i < |a| ==> TaskRank(b[i].status) <= TaskRank(a[i].status)
    ensures Ranks(b) <= Ranks(a)
    ensures forall i :: 0 <= i < |a| && TaskRank(b[i].status) < TaskRank(a[i].status) ==> Ranks(b) < Ranks(a)
  {
    if a != [] {
      var n := |a| - 1;
      RanksFall(a[..n], b[..n]);
      forall i | 0 <= i < |a| && TaskRank(b[i].status) < TaskRank(a[i].status) ensures Ranks(b) < Ranks(a) {
        if i < n { assert TaskRank(b[..n][i].status) < TaskRank(a[..n][i].status); }
      }
    }
  }

  lemma {:induction false} RanksAreBounded(tasks: seq<TaskRow>)
    ensures Ranks(tasks) <= 2 * |tasks|
  {
    if tasks != [] { RanksAreBounded(tasks[..|tasks| - 1]); }
  }

  /** A pipeline commit changes rows only by lowering some rank. */
  predicate LowersARank(a: Db, b: Db) {
    || JobRank(b.job.status) < JobRank(a.job.status)
    || (a.tasks == [] && b.tasks != [] && |b.tasks| == |Requested(a.job.modules)|)
    || (|a.tasks| == |b.tasks| && exists i :: 0 <= i < |a.tasks| && TaskRank(b.tasks[i].status) < TaskRank(a.tasks[i].status))
  }

  lemma LoweredRankLowersMeasure(a: Db, b: Db)
    requires Advances(a, b) && LowersARank(a, b)
    requires a.tasks == [] && b.tasks != [] ==> |b.tasks| == |Requested(a.job.modules)|
    ensures Measure(b) < Measure(a)
  {
    RanksAreBounded(b.tasks);
    if a.tasks != [] {
      forall i | 0 <= i < |a.tasks| ensures TaskRank(b.tasks[i].status) <= TaskRank(a.tasks[i].status) {
        assert TaskAdvances(a.tasks[i], b.tasks[i]);
      }
      RanksFall(a.tasks, b.tasks);
    }
  }

  lemma DispatchLowers(db: Db, roster: Registry.Roster, now: int)
    requires RowsHold(db)
    ensures var next := Dispatch(db, roster, now).After(db);
      && (next != db ==> LowersARank(db, next))
      && (db.tasks == [] && next.tasks != [] ==> |next.tasks| == |Requested(db.job.modules)|)
  {
    var o := Dispatch(db, roster, now);
    if o.Dispatched? && o.db != db && db.job.status != JobQueued && db.tasks != [] {
      assert o.db.tasks != db.tasks;
      var i :| 0 <= i < |db.tasks| && o.db.tasks[i] != db.tasks[i];
      assert o.db.tasks[i] == Routed(db.tasks[i], roster, now);
    }
  }

  lemma TaskCommitLowers(db: Db, i: TaskId, u: TaskRow, results: seq<ResultRow>)
    requires i < |db.tasks| && TaskRank(u.status) < TaskRank(db.tasks[i].status)
    ensures LowersARank(db, SetTask(db, i, u).(results := results))
  {
    var next := SetTask(db, i, u).(results := results);
    assert TaskRank(next.tasks[i].status) < TaskRank(db.tasks[i].status);
  }

  lemma ReapLowers(db: Db, swept: int)
    requires ReapTasks(db, swept) != db
    ensures LowersARank(db, ReapTasks(db, swept))
  {
    var next := ReapTasks(db, swept);
    assert next.tasks != db.tasks;
    var i :| 0 <= i < |db.tasks| && next.tasks[i] != db.tasks[i];
    assert next.tasks[i] == Reaped(db.tasks[i], swept);
  }

  lemma FinalizeLowers(db: Db, c: Context, now: int, override: Option<Reason>)
    requires Finalize(db, c, now, override).Finalized?
    ensures LowersARank(db, Finalize(db, c, now, override).db)
  {
    OutcomeMeans(Statuses(db.tasks), override);
  }

  /** Every pipeline commit that changes a row lowers the measure; redeliveries,
      which change nothing, leave it; a cancellation request keeps it. */
  lemma StepMeasure(s: System, l: Label)
    requires Invariant(s)
    ensures Measure(Apply(s, l).db) <= Measure(s.db)
    ensures Apply(s, l).db != s.db && !l.RequestCancellation? ==> Measure(Apply(s, l).db) < Measure(s.db)
  {
    StepKeeps(s, l);
    var t := Apply(s, l);
    if l.RequestCancellation? {
      if t.db != s.db {
        RanksFall(s.db.tasks, t.db.tasks);
        RanksFall(t.db.tasks, s.db.tasks);
      }
    } else if t.db != s.db {
      StepLowers(s, l);
      LoweredRankLowersMeasure(s.db, t.db);
    }
  }

  lemma StepLowers(s: System, l: Label)
    requires Invariant(s) && Apply(s, l).db != s.db && !l.RequestCancellation?
    ensures LowersARank(s.db, Apply(s, l).db)
    ensures s.db.tasks == [] && Apply(s, l).db.tasks != [] ==> |Apply(s, l).db.tasks| == |Requested(s.db.job.modules)|
  {
    match l {
      case DeliverDispatch(roster, now) => DispatchLowers(s.db, roster, now);
      case DeliverTask(i, c, worker, now) => ClaimLowers(s.db, i, c, worker, now);
      case RecordStep(w) => RecordLowers(s.db, s.workers[w].task, s.workers[w].context, s.workers[w].outcome, s.workers[w].finished);
      case Sweep(w, swept) => ReapLowers(s.db, swept);
      case FinalizeStep(w, now) => FinalizeLowers(s.db, s.workers[w].context, now, s.workers[w].override);
    }
  }

  lemma ClaimLowers(db: Db, i: TaskId, c: Context, worker: Worker, now: int)
    ensures var next := Claim(db, i, c, worker, now).After(db);
      (next != db ==> LowersARank(db, next)) && |next.tasks| == |db.tasks|
  {
    var o := Claim(db, i, c, worker, now);
    if o.ClosedAtClaim? || o.Claimed? {
      TaskCommitLowers(db, i, o.db.tasks[i], db.results);
    }
  }

  lemma RecordLowers(db: Db, i: TaskId, c: Context, o: RunOutcome, finished: int)
    ensures var next := Record(db, i, c, o, finished).After(db);
      (next != db ==> LowersARank(db, next)) && |next.tasks| == |db.tasks|
  {
    var r := Record(db, i, c, o, finished);
    if r.Recorded? {
      TaskCommitLowers(db, i, r.db.tasks[i], r.db.results);
    }
  }

  /** How many pipeline commits of a run changed a row. */
  function Changes(s: System, labels: seq<Label>): nat {
    if labels == [] then 0
    else
      var n := |labels| - 1;
      var before := Run(s, labels[..n]);
      Changes(s, labels[..n]) + if Apply(before, labels[n]).db != before.db && !labels[n].RequestCancellation? then 1 else 0
  }

  /** Every run, however long and however many redeliveries it holds, makes at
      most three commits more than twice the number of planned tasks. */
  lemma {:induction false} FinitelyManyChanges(s: System, labels: seq<Label>)
    requires Initial(s)
    ensures Changes(s, labels) + Measure(Run(s, labels).db) <= Measure(s.db)
    ensures s.db.tasks == [] ==> Changes(s, labels) <= 3 + 2 * |Requested(s.db.job.modules)|
  {
    if labels != [] {
      var n := |labels| - 1;
      FinitelyManyChanges(s, labels[..n]);
      RunKeeps(s, labels[..n]);
      StepMeasure(Run(s, labels[..n]), labels[n]);
    }
  }

  // --------------------------------------------------------- every job closes

  /** A sweep, anything in between, then a finalize: the job is closed. */
  lemma ClosesAfterSweep(before: System, w: nat, swept: int, between: seq<Label>, v: nat, now: int)
    requires Invariant(before) && before.db.tasks != []
    requires w < |before.workers| && before.workers[w].Sweeping?
    requires var t := Run(AfterSweep(before, w, swept), between); v < |t.workers| && t.workers[v].Finalizing?
    ensures var t := Run(AfterSweep(before, w, swept), between);
      Invariant(t) && TerminalJob(Apply(t, FinalizeStep(v, now)).db.job.status)
  {
    SweepKeeps(before, w, swept);
    SweptIsDone(before.db, swept);
    var swept' := AfterSweep(before, w, swept);
    RunKeeps(swept', between);
    DoneStaysDone(swept'.db, Run(swept', between).db);
    FinalizeCloses(Run(swept', between), v, now);
  }

  /** Once the matrix exists, a sweep that runs and a finalize that runs after it
      close the job, whatever is interleaved between and after the two. */
  lemma SweepThenFinalizeCloses(s: System, labels: seq<Label>, w: nat, swept: int,
                                between: seq<Label>, v: nat, now: int, after: seq<Label>)
    requires Initial(s) && Run(s, labels).db.tasks != []
    requires w < |Run(s, labels).workers| && Run(s, labels).workers[w].Sweeping?
    requires var t := Run(s, labels + [Sweep(w, swept)] + between); v < |t.workers| && t.workers[v].Finalizing?
    ensures TerminalJob(Run(s, labels + [Sweep(w, swept)] + between + [FinalizeStep(v, now)] + after).db.job.status)
  {
    RunKeeps(s, labels);
    OneMore(s, labels, Sweep(w, swept));
    RunSplit(s, labels + [Sweep(w, swept)], between);
    ClosesAfterSweep(Run(s, labels), w, swept, between, v, now);
    FinalizedStaysClosed(s, labels + [Sweep(w, swept)] + between, v, now, after);
  }

  lemma FinalizedStaysClosed(s: System, middle: seq<Label>, v: nat, now: int, after: seq<Label>)
    requires Initial(s) && TerminalJob(Apply(Run(s, middle), FinalizeStep(v, now)).db.job.status)
    ensures TerminalJob(Run(s, middle + [FinalizeStep(v, now)] + after).db.job.status)
  {
    OneMore(s, middle, FinalizeStep(v, now));
    StaysClosed(s, middle + [FinalizeStep(v, now)], after);
  }

  lemma StaysClosed(s: System, labels: seq<Label>, after: seq<Label>)
    requires Initial(s) && TerminalJob(Run(s, labels).db.job.status)
    ensures TerminalJob(Run(s, labels + after).db.job.status)
  {
    ClosedForGood(s, labels, after);
  }

  lemma OneMore(s: System, labels: seq<Label>, l: Label)
    ensures Run(s, labels + [l]) == Apply(Run(s, labels), l)
  {
    assert (labels + [l])[..|labels|] == labels;
  }

  lemma OneStep(s: System, l: Label)
    ensures Run(s, [l]) == Apply(s, l)
  {
    assert [l][..0] == [];
    assert Run(s, []) == s;
  }

  lemma SweptIsDone(db: Db, swept: int)
    requires db.tasks != []
    ensures AllDone(ReapTasks(db, swept).tasks)
  {
    forall i | 0 <= i < |db.tasks| ensures TerminalTask(ReapTasks(db, swept).tasks[i].status) {
      assert ReapTasks(db, swept).tasks[i] == Reaped(db.tasks[i], swept);
    }
  }

  lemma DoneStaysDone(a: Db, b: Db)
    requires Advances(a, b) && AllDone(a.tasks)
    ensures AllDone(b.tasks)
  {
    forall i | 0 <= i < |b.tasks| ensures TerminalTask(b.tasks[i].status) {
      assert TaskAdvances(a.tasks[i], b.tasks[i]);
    }
  }

  /** A finalize over terminal children closes the job or finds it closed. */
  lemma FinalizeCloses(s: System, v: nat, now: int)
    requires Invariant(s) && AllDone(s.db.tasks) && v < |s.workers| && s.workers[v].Finalizing?
    ensures TerminalJob(Apply(s, FinalizeStep(v, now)).db.job.status)
  {
    var p := s.workers[v];
    assert PhaseHolds(s.db, p);
    StatusesAllDone(s.db.tasks, p.override);
    OutcomeMeans(Statuses(s.db.tasks), p.override);
  }

  /** The steps of a worker that publishes what it owes and then finalizes. */
  function DrainAndFinalize(w: nat, events: nat, now: int): seq<Label>
    decreases events
  {
    if events == 0 then [Publish(w, true), FinalizeStep(w, now)]
    else [Publish(w, true)] + DrainAndFinalize(w, events - 1, now)
  }

  lemma {:induction false} DrainReachesFinalize(s: System, w: nat, now: int)
    requires w < |s.workers| && s.workers[w].Publishing? && s.workers[w].next.Finalizing?
    requires Invariant(s) && AllDone(s.db.tasks)
    ensures TerminalJob(Run(s, DrainAndFinalize(w, |s.workers[w].events|, now)).db.job.status)
    decreases |s.workers[w].events|
  {
    var n := |s.workers[w].events|;
    var first := Apply(s, Publish(w, true));
    StepKeeps(s, Publish(w, true));
    var rest := if n == 0 then [FinalizeStep(w, now)] else DrainAndFinalize(w, n - 1, now);
    assert DrainAndFinalize(w, n, now) == [Publish(w, true)] + rest;
    RunSplit(s, [Publish(w, true)], rest);
    OneStep(s, Publish(w, true));
    if n == 0 {
      OneStep(first, FinalizeStep(w, now));
      FinalizeCloses(first, w, now);
    } else {
      DrainReachesFinalize(first, w, now);
    }
  }

  /** The steps that close an open job: dispatch it, find it overdue, sweep it,
      and let the sweeper publish and finalize. */
  function ClosingScript(w: nat, events: nat, roster: Registry.Roster, now: int,
                         timeoutBefore: int, swept: int, finished: int): seq<Label>
  {
    [DeliverDispatch(roster, now)] + ([SelectStuck(timeoutBefore)] + ([Sweep(w, swept)] + DrainAndFinalize(w, events, finished)))
  }

  lemma FirstStep(s: System, l: Label, rest: seq<Label>)
    ensures Run(s, [l] + rest) == Run(Apply(s, l), rest)
  {
    RunSplit(s, [l], rest);
    OneStep(s, l);
  }

  lemma DispatchBuildsTheMatrix(open: System, roster: Registry.Roster, now: int)
    requires Invariant(open) && !TerminalJob(open.db.job.status)
    requires open.db.tasks == [] ==> WellFormedLaunch(open.db.job)
    ensures Apply(open, DeliverDispatch(roster, now)).db.tasks != []
  {
    RefusedExactlyWhen(open.db, roster, now);
    MatrixChecksExactlyWhen(open.db.job, roster, now);
  }

  lemma SweepAndDrainClose(picked: System, w: nat, swept: int, finished: int) returns (events: nat)
    requires Invariant(picked) && picked.db.tasks != [] && w < |picked.workers| && picked.workers[w].Sweeping?
    ensures TerminalJob(Run(picked, [Sweep(w, swept)] + DrainAndFinalize(w, events, finished)).db.job.status)
  {
    var reaped := AfterSweep(picked, w, swept);
    SweepKeeps(picked, w, swept);
    SweptIsDone(picked.db, swept);
    events := |reaped.workers[w].events|;
    DrainReachesFinalize(reaped, w, finished);
    FirstStep(picked, Sweep(w, swept), DrainAndFinalize(w, events, finished));
  }

  lemma OverdueJobCloses(begun: System, timeoutBefore: int, swept: int, finished: int) returns (w: nat, events: nat)
    requires Invariant(begun) && begun.db.tasks != [] && Stuck(begun.db, timeoutBefore)
    ensures TerminalJob(
      Run(begun, [SelectStuck(timeoutBefore)] + ([Sweep(w, swept)] + DrainAndFinalize(w, events, finished))).db.job.status)
  {
    var picked := Spawn(begun, begun.db, Sweeping);
    SelectKeeps(begun);
    w := |begun.workers|;
    events := SweepAndDrainClose(picked, w, swept, finished);
    FirstStep(begun, SelectStuck(timeoutBefore), [Sweep(w, swept)] + DrainAndFinalize(w, events, finished));
  }

  /** From any reachable open job of a well-formed launch, one dispatch followed by
      one sweep that finds it overdue closes it. */
  lemma OneDispatchOneSweepCloses(s: System, labels: seq<Label>, roster: Registry.Roster, now: int,
                                  timeoutBefore: int, swept: int, finished: int)
    returns (w: nat, events: nat)
    requires Initial(s) && !TerminalJob(Run(s, labels).db.job.status)
    requires s.db.tasks == [] ==> WellFormedLaunch(s.db.job)
    requires Stuck(Apply(Run(s, labels), DeliverDispatch(roster, now)).db, timeoutBefore)
    ensures TerminalJob(
      Run(s, labels + ClosingScript(w, events, roster, now, timeoutBefore, swept, finished)).db.job.status)
  {
    var open := Run(s, labels);
    RunKeeps(s, labels);
    DispatchBuildsTheMatrix(open, roster, now);
    var begun := Apply(open, DeliverDispatch(roster, now));
    StepKeeps(open, DeliverDispatch(roster, now));
    w, events := OverdueJobCloses(begun, timeoutBefore, swept, finished);
    FirstStep(open, DeliverDispatch(roster, now),
              [SelectStuck(timeoutBefore)] + ([Sweep(w, swept)] + DrainAndFinalize(w, events, finished)));
    RunSplit(s, labels, ClosingScript(w, events, roster, now, timeoutBefore, swept, finished));
  }

  /** The reaper's two queries have no third hole: from some moment on, every open
      job is picked up, either re-published or swept. */
  lemma ReaperCoversEveryOpenJob(s: System, labels: seq<Label>, staleBefore: int, timeoutBefore: int)
    requires Initial(s)
    requires var j := Run(s, labels).db.job;
      j.createdAt < staleBefore && (j.startedAt.Some? ==> j.startedAt.value < timeoutBefore)
    ensures var db := Run(s, labels).db;
      !TerminalJob(db.job.status) ==> Stranded(db, staleBefore) || Stuck(db, timeoutBefore)
  {
    RunKeeps(s, labels);
  }
}

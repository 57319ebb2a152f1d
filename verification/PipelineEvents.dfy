/** What subscribers of a job's channel can rely on. */
module PipelineEvents {
  import opened Options
  import Registry
  import opened FailureReasons
  import opened Orchestration
  import opened Pipeline
  import opened PipelineSafety

  /** The events a worker has still to publish. */
  function Pending(p: Phase): seq<Event> {
    match p
    case Publishing(events, next) => events + Pending(next)
    case Engine(_, _) => []
    case Recording(_, _, _, _) => []
    case Sweeping => []
    case Finalizing(_, _) => []
    case Stopped => []
  }

  /** The rows carry the transition an event announces, with its reason and instant. */
  predicate Names(db: Db, e: Event) {
    match e
    case TaskEvent(i, status, reason, at) =>
      && i < |db.tasks| && db.tasks[i].status == status
      && (status == Running ==> reason.None? && db.tasks[i].startedAt == Some(at))
      && (TerminalTask(status) ==> db.tasks[i].statusReason == reason && db.tasks[i].finishedAt == Some(at))
    case JobEvent(status, reason, at) =>
      && db.job.status == status
      && (status == JobRunning ==> reason.None? && db.job.startedAt == Some(at))
      && (TerminalJob(status) ==> db.job.statusReason == reason && db.job.finishedAt == Some(at))
    case EndEvent(status, at) =>
      TerminalJob(status) && db.job.status == status && db.job.finishedAt == Some(at)
    case HeartbeatEvent(_) => db.job.status == JobRunning
  }

  /** Published already, or waiting to be. */
  ghost predicate Announced(s: System, e: Event) {
    e in s.log || exists w :: 0 <= w < |s.workers| && e in Pending(s.workers[w])
  }

  lemma NewPhaseNames(s: System, l: Label, w: nat, e: Event)
    requires w < |Apply(s, l).workers| && e in Pending(Apply(s, l).workers[w])
    requires w < |s.workers| ==> e !in Pending(s.workers[w])
    ensures Names(Apply(s, l).db, e)
  {
    match l {
      case DeliverDispatch(roster, now) => DispatchNames(s, roster, now, e);
      case DeliverTask(i, c, worker, now) => ClaimNames(s, i, c, worker, now, e);
      case RecordStep(v) => RecordNames(s, v, e);
      case Sweep(v, swept) => SweepNames(s.db, swept, e);
      case FinalizeStep(v, now) => FinalizeNames(s, v, now, e);
      case Publish(v, delivered) => PublishOnlyDrops(s, v, delivered, e);
      case EndEngine(_, _, _) =>
      case SelectStuck(_) =>
      case Beat(now) => BeatNames(s, now, e);
      case Crash(_) =>
      case RequestCancellation(_, _) =>
    }
  }

  lemma DispatchNames(s: System, roster: Registry.Roster, now: int, e: Event)
    requires var o := Dispatch(s.db, roster, now); o.Dispatched? && o.announce && e in JobEvents(JobRunning, None, now)
    ensures Names(Dispatch(s.db, roster, now).After(s.db), e)
  {
  }

  lemma BeatNames(s: System, now: int, e: Event)
    requires s.db.job.status == JobRunning && e in Pending(Publishing([HeartbeatEvent(now)], Stopped))
    ensures Names(s.db, e)
  {
    assert e == HeartbeatEvent(now);
  }

  lemma ClaimNames(s: System, i: TaskId, c: Context, worker: Worker, now: int, e: Event)
    requires var o := Claim(s.db, i, c, worker, now);
      && (o.ClosedAtClaim? || o.Claimed?)
      && e in Pending(AfterClaim(s, i, c, o, now).workers[|s.workers|])
    ensures Names(Claim(s.db, i, c, worker, now).After(s.db), e)
  {
    ClaimAnnounces(s, i, c, Claim(s.db, i, c, worker, now), now, e);
  }

  lemma ClaimAnnounces(s: System, i: TaskId, c: Context, o: ClaimOutcome, now: int, e: Event)
    requires o.ClosedAtClaim? || o.Claimed?
    requires e in Pending(AfterClaim(s, i, c, o, now).workers[|s.workers|])
    ensures e == if o.Claimed? then TaskEvent(i, Running, None, now) else TaskEvent(i, o.status, Some(o.reason), now)
  {
    var p := AfterClaim(s, i, c, o, now).workers[|s.workers|];
    assert Pending(p) == p.events;
  }

  lemma RecordNames(s: System, w: nat, e: Event)
    requires w < |s.workers| && s.workers[w].Recording?
    requires e in Pending(AfterRecord(s, w, s.workers[w]).workers[w])
    ensures Names(AfterRecord(s, w, s.workers[w]).db, e)
  {
    var p := AfterRecord(s, w, s.workers[w]).workers[w];
    assert Pending(p) == if p.Publishing? then p.events else [];
  }

  lemma FinalizeNames(s: System, w: nat, now: int, e: Event)
    requires w < |s.workers| && s.workers[w].Finalizing?
    requires e in Pending(AfterFinalize(s, w, s.workers[w], now).workers[w])
    ensures Names(AfterFinalize(s, w, s.workers[w], now).db, e)
  {
    OutcomeMeans(Statuses(s.db.tasks), s.workers[w].override);
    var p := AfterFinalize(s, w, s.workers[w], now).workers[w];
    assert Pending(p) == if p.Publishing? then p.events else [];
  }

  lemma SweepNames(db: Db, swept: int, e: Event)
    requires e in FailedEvents(LiveTasks(db.tasks), swept)
    ensures Names(ReapTasks(db, swept), e)
  {
    var failed := LiveTasks(db.tasks);
    var k :| 0 <= k < |failed| && e == TaskEvent(failed[k], Failed, Some(JobTimeout), swept);
    assert failed[k] in failed;
    LiveTasksMean(db.tasks, failed[k]);
  }

  lemma PublishOnlyDrops(s: System, w: nat, delivered: bool, e: Event)
    requires w < |s.workers| && s.workers[w].Publishing?
    requires e in Pending(AfterPublish(s, w, s.workers[w], delivered).workers[w])
    ensures e in Pending(s.workers[w])
  {
    var p := s.workers[w];
    if p.events == [] {
      assert Pending(p) == Pending(p.next);
    } else {
      assert Pending(p) == [p.events[0]] + (p.events[1..] + Pending(p.next));
    }
  }

  /** A step announces only what the rows it committed carry. */
  lemma StepAnnounces(s: System, l: Label, e: Event)
    requires Invariant(s) && Announced(Apply(s, l), e)
    ensures Announced(s, e) || Names(Apply(s, l).db, e)
  {
    var t := Apply(s, l);
    if e in t.log {
      if e !in s.log {
        assert e in Pending(s.workers[l.w]);
      }
    } else {
      var w :| 0 <= w < |t.workers| && e in Pending(t.workers[w]);
      if w >= |s.workers| || e !in Pending(s.workers[w]) {
        NewPhaseNames(s, l, w, e);
      }
    }
  }

  /** In every run, whatever is published (or about to be) names a state that was
      already committed: some prefix of the run ends in rows that carry it. */
  lemma {:induction false} EventsFollowCommits(s: System, labels: seq<Label>, e: Event) returns (k: nat)
    requires Initial(s) && Announced(Run(s, labels), e)
    ensures k <= |labels| && Names(Run(s, labels[..k]).db, e)
  {
    k := 0;
    if labels != [] {
      var n := |labels| - 1;
      var before := Run(s, labels[..n]);
      RunKeeps(s, labels[..n]);
      StepAnnounces(before, labels[n], e);
      if Announced(before, e) {
        k := EventsFollowCommits(s, labels[..n], e);
        assert labels[..n][..k] == labels[..k];
      } else {
        k := n + 1;
        assert labels[..k] == labels;
      }
    }
  }

  // ------------------------------------------------------------ at most once

  datatype Kind = RunningKind | EndKind

  predicate Is(e: Event, k: Kind) {
    match k
    case RunningKind => e.JobEvent? && e.status == JobRunning
    case EndKind => e.EndEvent?
  }

  function Count(events: seq<Event>, k: Kind): nat {
    if events == [] then 0 else (if Is(events[0], k) then 1 else 0) + Count(events[1..], k)
  }

  function CountPending(workers: seq<Phase>, k: Kind): nat {
    if workers == [] then 0
    else CountPending(workers[..|workers| - 1], k) + Count(Pending(workers[|workers| - 1]), k)
  }

  function Total(s: System, k: Kind): nat {
    Count(s.log, k) + CountPending(s.workers, k)
  }

  /** How many announcements of a kind the rows account for. */
  function Due(db: Db, k: Kind): nat {
    match k
    case RunningKind => if db.job.status == JobQueued then 0 else 1
    case EndKind => if TerminalJob(db.job.status) then 1 else 0
  }

  lemma {:induction false} CountSplit(a: seq<Event>, b: seq<Event>, k: Kind)
    ensures Count(a + b, k) == Count(a, k) + Count(b, k)
  {
    if a == [] {
      assert a + b == b;
    } else {
      assert (a + b)[1..] == a[1..] + b;
      CountSplit(a[1..], b, k);
    }
  }

  lemma {:induction false} CountPendingUpdate(workers: seq<Phase>, w: nat, p: Phase, k: Kind)
    requires w < |workers|
    ensures CountPending(workers[w := p], k) + Count(Pending(workers[w]), k)
         == CountPending(workers, k) + Count(Pending(p), k)
  {
    var n := |workers| - 1;
    if w < n {
      CountPendingUpdate(workers[..n], w, p, k);
      assert workers[w := p][..n] == workers[..n][w := p];
    } else {
      assert workers[w := p][..n] == workers[..n];
    }
  }

  lemma CountPendingAppend(workers: seq<Phase>, p: Phase, k: Kind)
    ensures CountPending(workers + [p], k) == CountPending(workers, k) + Count(Pending(p), k)
  {
    assert (workers + [p])[..|workers|] == workers;
  }

  lemma TaskEventsDoNotCount(events: seq<Event>, k: Kind)
    requires forall i :: 0 <= i < |events| ==> events[i].TaskEvent?
    ensures Count(events, k) == 0
  {
  }

  /** A step that moves or adds one worker changes the total by that worker alone. */
  lemma TotalAfterSpawn(s: System, db: Db, p: Phase, k: Kind)
    ensures Total(Spawn(s, db, p), k) == Total(s, k) + Count(Pending(p), k)
  {
    CountPendingAppend(s.workers, p, k);
  }

  lemma TotalAfterMove(s: System, db: Db, w: nat, p: Phase, k: Kind)
    requires w < |s.workers|
    ensures Total(Move(s, db, w, p), k) + Count(Pending(s.workers[w]), k) == Total(s, k) + Count(Pending(p), k)
  {
    CountPendingUpdate(s.workers, w, p, k);
  }

  lemma TotalAfterPublish(s: System, w: nat, delivered: bool, k: Kind)
    requires w < |s.workers| && s.workers[w].Publishing?
    ensures Total(AfterPublish(s, w, s.workers[w], delivered), k) <= Total(s, k)
  {
    var p := s.workers[w];
    if p.events == [] {
      assert Pending(p) == Pending(p.next);
      TotalAfterMove(s, s.db, w, p.next, k);
    } else {
      var q := Publishing(p.events[1..], p.next);
      assert Pending(p) == [p.events[0]] + Pending(q);
      CountSplit([p.events[0]], Pending(q), k);
      CountSplit(s.log, [p.events[0]], k);
      CountPendingUpdate(s.workers, w, q, k);
    }
  }

  /** The announcements of a job event list: one running, or one end. */
  lemma JobEventsCount(status: JobStatus, reason: Option<Reason>, at: int, k: Kind)
    requires status != JobQueued
    ensures Count(JobEvents(status, reason, at), k)
         == if (k == RunningKind && status == JobRunning) || (k == EndKind && TerminalJob(status)) then 1 else 0
  {
    var events := JobEvents(status, reason, at);
    if TerminalJob(status) {
      var tail := [EndEvent(status, at)];
      assert events[1..] == tail && tail[1..] == [];
      assert Count(tail, k) == if k == EndKind then 1 else 0;
    } else {
      assert events[1..] == [];
    }
  }

  lemma StepTotals(s: System, l: Label, k: Kind)
    ensures Total(Apply(s, l), k) <= Total(s, k) + Due(Apply(s, l).db, k) - Due(s.db, k)
  {
    match l {
      case DeliverDispatch(roster, now) => DispatchTotal(s, roster, now, k);
      case DeliverTask(i, c, worker, now) => ClaimTotal(s, i, c, worker, now, k);
      case RecordStep(w) => if w < |s.workers| && s.workers[w].Recording? { RecordTotal(s, w, k); }
      case Sweep(w, swept) => if w < |s.workers| && s.workers[w].Sweeping? { SweepTotal(s, w, swept, k); }
      case FinalizeStep(w, now) => if w < |s.workers| && s.workers[w].Finalizing? { FinalizeTotal(s, w, now, k); }
      case _ => LocalTotal(s, l, k);
    }
  }

  /** The steps that leave every row alone, or only ask for a cancellation. */
  lemma LocalTotal(s: System, l: Label, k: Kind)
    requires l.SelectStuck? || l.Beat? || l.EndEngine? || l.Publish? || l.Crash? || l.RequestCancellation?
    ensures Total(Apply(s, l), k) <= Total(s, k) && Apply(s, l).db.job == s.db.job
  {
    match l {
      case SelectStuck(_) => TotalAfterSpawn(s, s.db, Sweeping, k);
      case Beat(now) => BeatTotal(s, now, k);
      case RequestCancellation(_, _) =>
      case _ => MovingTotal(s, l, k);
    }
  }

  /** One worker moves on without a commit. */
  lemma MovingTotal(s: System, l: Label, k: Kind)
    requires l.EndEngine? || l.Publish? || l.Crash?
    ensures Total(Apply(s, l), k) <= Total(s, k) && Apply(s, l).db == s.db
  {
    if l.w < |s.workers| {
      var p := s.workers[l.w];
      match l {
        case EndEngine(w, o, finished) => if p.Engine? { TotalAfterMove(s, s.db, w, Recording(p.task, p.context, o, finished), k); }
        case Publish(w, delivered) => if p.Publishing? { TotalAfterPublish(s, w, delivered, k); }
        case Crash(w) => TotalAfterMove(s, s.db, w, Stopped, k);
      }
    }
  }

  lemma BeatTotal(s: System, now: int, k: Kind)
    ensures Total(Apply(s, Beat(now)), k) == Total(s, k) && Apply(s, Beat(now)).db == s.db
  {
    var p := Publishing([HeartbeatEvent(now)], Stopped);
    assert Pending(p) == p.events && p.events[1..] == [];
    TotalAfterSpawn(s, s.db, p, k);
  }

  lemma DispatchTotal(s: System, roster: Registry.Roster, now: int, k: Kind)
    ensures var t := Apply(s, DeliverDispatch(roster, now));
      Total(t, k) <= Total(s, k) + Due(t.db, k) - Due(s.db, k)
  {
    var o := Dispatch(s.db, roster, now);
    if o.Dispatched? {
      var events := if o.announce then JobEvents(JobRunning, None, now) else [];
      var p := Publishing(events, Finalizing(Platform, None));
      assert Pending(p) == events;
      TotalAfterSpawn(s, o.db, p, k);
      JobEventsCount(JobRunning, None, now, k);
    }
  }

  lemma ClaimTotal(s: System, i: TaskId, c: Context, worker: Worker, now: int, k: Kind)
    ensures var t := Apply(s, DeliverTask(i, c, worker, now)); Total(t, k) == Total(s, k) && t.db.job == s.db.job
  {
    var o := Claim(s.db, i, c, worker, now);
    if o.ClosedAtClaim? || o.Claimed? {
      var p := AfterClaim(s, i, c, o, now).workers[|s.workers|];
      assert Pending(p) == p.events;
      TaskEventsDoNotCount(p.events, k);
      TotalAfterSpawn(s, o.db, p, k);
    }
  }

  lemma RecordTotal(s: System, w: nat, k: Kind)
    requires w < |s.workers| && s.workers[w].Recording?
    ensures var t := AfterRecord(s, w, s.workers[w]); Total(t, k) == Total(s, k) && t.db.job == s.db.job
  {
    var t := AfterRecord(s, w, s.workers[w]);
    var p := t.workers[w];
    assert Pending(p) == if p.Publishing? then p.events else [];
    TaskEventsDoNotCount(Pending(p), k);
    TotalAfterMove(s, t.db, w, p, k);
  }

  lemma SweepTotal(s: System, w: nat, swept: int, k: Kind)
    requires w < |s.workers| && s.workers[w].Sweeping?
    ensures var t := AfterSweep(s, w, swept); Total(t, k) == Total(s, k) && t.db.job == s.db.job
  {
    var t := AfterSweep(s, w, swept);
    var p := t.workers[w];
    assert Pending(p) == p.events;
    TaskEventsDoNotCount(p.events, k);
    TotalAfterMove(s, t.db, w, p, k);
  }

  lemma FinalizeTotal(s: System, w: nat, now: int, k: Kind)
    requires w < |s.workers| && s.workers[w].Finalizing?
    ensures var t := AfterFinalize(s, w, s.workers[w], now);
      Total(t, k) <= Total(s, k) + Due(t.db, k) - Due(s.db, k)
  {
    var o := Finalize(s.db, s.workers[w].context, now, s.workers[w].override);
    if o.Finalized? {
      OutcomeMeans(Statuses(s.db.tasks), s.workers[w].override);
      var p := Publishing(JobEvents(o.status, o.reason, now), Stopped);
      assert Pending(p) == p.events;
      JobEventsCount(o.status, o.reason, now, k);
      TotalAfterMove(s, o.db, w, p, k);
    } else {
      TotalAfterMove(s, s.db, w, Stopped, k);
    }
  }

  lemma {:induction false} TotalsStayDue(s: System, labels: seq<Label>, k: Kind)
    requires Initial(s)
    ensures Total(Run(s, labels), k) <= Due(Run(s, labels).db, k)
  {
    if labels != [] {
      var n := |labels| - 1;
      TotalsStayDue(s, labels[..n], k);
      StepTotals(Run(s, labels[..n]), labels[n], k);
    }
  }

  /** Per job at most one `running` event and at most one `end` are ever
      published, and none of them before its commit. */
  lemma AtMostOneRunningAndOneEnd(s: System, labels: seq<Label>)
    requires Initial(s)
    ensures var t := Run(s, labels);
      && Count(t.log, RunningKind) <= 1 && Count(t.log, EndKind) <= 1
      && (t.db.job.status == JobQueued ==> Count(t.log, RunningKind) == 0)
      && (!TerminalJob(t.db.job.status) ==> Count(t.log, EndKind) == 0)
  {
    TotalsStayDue(s, labels, RunningKind);
    TotalsStayDue(s, labels, EndKind);
  }

  /** An `end` carries the state the database keeps forever. */
  lemma EndIsFinal(s: System, labels: seq<Label>, more: seq<Label>, status: JobStatus, at: int)
    requires Initial(s) && EndEvent(status, at) in Run(s, labels).log
    ensures var job := Run(s, labels + more).db.job;
      TerminalJob(status) && job.status == status && job.finishedAt == Some(at)
  {
    var k := EventsFollowCommits(s, labels, EndEvent(status, at));
    NeverReopens(s, labels, more, k);
  }

  lemma Regroup<T>(a: seq<T>, b: seq<T>, k: nat)
    requires k <= |a|
    ensures a + b == a[..k] + (a[k..] + b)
  {
  }

  lemma NeverReopens(s: System, labels: seq<Label>, more: seq<Label>, k: nat)
    requires Initial(s) && k <= |labels| && TerminalJob(Run(s, labels[..k]).db.job.status)
    ensures Run(s, labels + more).db == Run(s, labels[..k]).db
  {
    Regroup(labels, more, k);
    ClosedForGood(s, labels[..k], labels[k..] + more);
  }
}

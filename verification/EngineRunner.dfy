/** The parent side of one engine run: the message loop over the child's pipe. */
module EngineRunner {
  import opened Options

  /** What one pipe line decodes to. `Other` is a number, boolean or array,
      carried as the text it renders to. */
  datatype Json = Null | Text(text: string) | Object(fields: map<string, Json>, shown: string) | Other(shown: string)

  function Shown(j: Json): string {
    match j
    case Null => "None"
    case Text(t) => t
    case Object(_, t) => t
    case Other(t) => t
  }

  /** What the pipe offers within the remaining budget: nothing, the end of the
      stream, a message that is not JSON, or one that is. */
  datatype Pipe = Silent | Closed | NotJson | Line(message: Json)

  /** One turn of the loop: the clock it reads and what the pipe then yields. */
  datatype Turn = Turn(now: real, pipe: Pipe)

  /** How the loop reads one line. A result whose report is null leaves the
      loop's condition as it was, so the loop goes round again. */
  datatype Reading =
    | Relay(message: Json, channel: Json)
    | Report(report: Json)
    | NullReport
    | Fault(text: string)
    | Malformed

  predicate Has(j: Json, field: string) {
    j.Object? && field in j.fields
  }

  function Read(j: Json): Reading {
    if !Has(j, "kind") then Malformed
    else if j.fields["kind"] == Text("progress") then
      if Has(j, "message") && Has(j, "channel") then Relay(j.fields["message"], j.fields["channel"]) else Malformed
    else if j.fields["kind"] == Text("result") then
      if !Has(j, "report") then Malformed
      else if j.fields["report"] == Null then NullReport else Report(j.fields["report"])
    else if Has(j, "type") && Has(j, "message") then
      Fault(Shown(j.fields["type"]) + ": " + Shown(j.fields["message"]))
    else Malformed
  }

  datatype EngineOutcome = EngineOutcome(report: Option<Json>, timedOut: bool, error: Option<string>) {
    predicate Ok() {
      report.Some? && error.None? && !timedOut
    }
  }

  /** The error texts of the three ways a run ends without the child's word. */
  function OverrunText(budgetText: string): string { "engine overran its " + budgetText + "s budget and was killed." }
  function ExitText(exitCode: string): string { ExitPreamble() + exitCode + ")." }
  function ExitPreamble(): string { "engine process exited " + ("without a result " + "(exit code ") }
  function MalformedText(j: Json): string { "engine sent a malformed message: " + Shown(j) }

  /** The turn reached the pipe before the deadline and the pipe had something. */
  predicate InBudget(t: Turn, deadline: real) {
    t.now < deadline && !t.pipe.Silent?
  }

  /** The turn leaves the run undecided: a progress line or a null report. */
  predicate Undecided(t: Turn, deadline: real) {
    InBudget(t, deadline) && t.pipe.Line? && (Read(t.pipe.message).Relay? || Read(t.pipe.message).NullReport?)
  }

  predicate Relays(t: Turn, deadline: real) {
    InBudget(t, deadline) && t.pipe.Line? && Read(t.pipe.message).Relay?
  }

  /** The turn carries a well-formed result in time. */
  predicate Delivers(t: Turn, deadline: real) {
    InBudget(t, deadline) && t.pipe.Line? && Read(t.pipe.message).Report?
  }

  /** The progress lines of a trace, in order. */
  function Progress(trace: seq<Turn>, deadline: real): seq<(Json, Json)> {
    if trace == [] then []
    else
      var rest := Progress(trace[..|trace| - 1], deadline);
      var t := trace[|trace| - 1];
      if Relays(t, deadline) then rest + [(Read(t.pipe.message).message, Read(t.pipe.message).channel)] else rest
  }

  /** The position that decides a trace: the first turn that does not leave the
      run undecided, or the end of the trace when the pipe stays silent. */
  function Decision(trace: seq<Turn>, deadline: real): (n: nat)
    ensures n <= |trace|
    ensures forall i :: 0 <= i < n ==> Undecided(trace[i], deadline)
    ensures n < |trace| ==> !Undecided(trace[n], deadline)
  {
    if trace == [] || !Undecided(trace[0], deadline) then 0 else 1 + Decision(trace[1..], deadline)
  }

  /** The error of a run that was decided by `t` and delivered no report. */
  function FailureText(t: Turn, exitCode: string): string
    requires t.pipe.Closed? || t.pipe.Line?
  {
    match t.pipe
    case Closed => ExitText(exitCode)
    case Line(j) => if Read(j).Fault? then Read(j).text else MalformedText(j)
  }

  /** The message that decides the run in time cannot be decoded, and the error
      of the decoder escapes the loop. */
  predicate Undecodable(trace: seq<Turn>, deadline: real) {
    var n := Decision(trace, deadline);
    n < |trace| && InBudget(trace[n], deadline) && trace[n].pipe.NotJson?
  }

  /** What a run must end with: the deciding turn sets everything. */
  ghost predicate EndsAs(trace: seq<Turn>, deadline: real, budgetText: string, exitCode: string,
                         o: EngineOutcome, relayed: seq<(Json, Json)>)
  {
    var n := Decision(trace, deadline);
    && !Undecodable(trace, deadline)
    && relayed == Progress(trace[..n], deadline)
    && (o.timedOut <==> n == |trace| || !InBudget(trace[n], deadline))
    && (o.report.Some? <==> n < |trace| && Delivers(trace[n], deadline))
    && (o.report.Some? ==> o.report.value == Read(trace[n].pipe.message).report)
    && (o.error.None? <==> o.report.Some?)
    && (o.timedOut ==> o.error == Some(OverrunText(budgetText)))
    && (!o.timedOut && o.error.Some? ==> o.error.value == FailureText(trace[n], exitCode))
  }

  datatype RunResult =
    | BadBudget
    | Raised(relayed: seq<(Json, Json)>)
    | Finished(outcome: EngineOutcome, relayed: seq<(Json, Json)>)

  /** Run the loop over a pipe trace. It raises on a budget that is none, and
      exactly when an undecodable message decides the run; otherwise the outcome is
      set by the first turn that is neither progress nor a null report: exactly
      one of report and error comes back, the run succeeds exactly when that
      turn delivers a well-formed result in budget, and the progress relayed is
      precisely what came before it. */
  method RunEngine(start: real, budget: real, budgetText: string, exitCode: string, trace: seq<Turn>)
    returns (r: RunResult)
    ensures r.BadBudget? <==> budget <= 0.0
    ensures r.Raised? <==> budget > 0.0 && Undecodable(trace, start + budget)
    ensures r.Raised? ==> r.relayed == Progress(trace[..Decision(trace, start + budget)], start + budget)
    ensures r.Finished? ==> EndsAs(trace, start + budget, budgetText, exitCode, r.outcome, r.relayed)
    ensures r.Finished? ==> (r.outcome.Ok() <==>
      var n := Decision(trace, start + budget); n < |trace| && Delivers(trace[n], start + budget))
  {
    if budget <= 0.0 {
      return BadBudget;
    }
    var deadline := start + budget;
    var report: Option<Json>, error: Option<string>, timedOut := None, None, false;
    var relayed: seq<(Json, Json)> := [];
    var i := 0;
    while report.None? && error.None?
      invariant 0 <= i <= Decision(trace, deadline)
      invariant report.None? && error.None? ==> !timedOut && relayed == Progress(trace[..i], deadline)
      invariant report.Some? || error.Some? ==>
        EndsAs(trace, deadline, budgetText, exitCode, EngineOutcome(report, timedOut, error), relayed)
      decreases if report.None? && error.None? then |trace| - i + 1 else 0
    {
      ghost var n := Decision(trace, deadline);
      assert i == |trace| || !Undecided(trace[i], deadline) ==> i == n;
      if i == |trace| || deadline - trace[i].now <= 0.0 || trace[i].pipe.Silent? {
        timedOut := true;
        error := Some(OverrunText(budgetText));
      } else {
        match trace[i].pipe {
          case Closed =>
            error := Some(ExitText(exitCode));
          case NotJson =>
            return Raised(relayed);
          case Line(message) =>
            assert trace[..i + 1][..i] == trace[..i];
            match Read(message) {
              case Relay(text, channel) => relayed := relayed + [(text, channel)];
              case Report(payload) => report := Some(payload);
              case NullReport =>
              case Fault(text) => error := Some(text);
              case Malformed => error := Some(MalformedText(message));
            }
        }
        if report.None? && error.None? { i := i + 1; }
      }
    }
    r := Finished(EngineOutcome(report, timedOut, error), relayed);
  }

  // ------------------------------------------------- what the module runner sees

  datatype Unwrapped = Payload(report: Json) | Raises(text: string)

  /** `unwrap`: the report, or the error a module lets propagate. */
  function Unwrap(o: EngineOutcome): Unwrapped {
    if o.Ok() then Payload(o.report.value)
    else Raises(GetOr(o.error, "the engine produced no result."))
  }

  /** How a message is read: by its kind, and only with the fields that kind needs;
      anything else is malformed. */
  lemma ReadingMeans(j: Json)
    ensures var fields := if j.Object? then j.fields else map[];
      var kind := "kind" in fields;
      var progress, result := kind && fields["kind"] == Text("progress"), kind && fields["kind"] == Text("result");
      && (Read(j).Relay? <==> progress && "message" in fields && "channel" in fields)
      && (Read(j).Relay? ==> Read(j) == Relay(fields["message"], fields["channel"]))
      && (Read(j).Report? <==> result && "report" in fields && fields["report"] != Null)
      && (Read(j).Report? ==> Read(j) == Report(fields["report"]))
      && (Read(j).NullReport? <==> result && "report" in fields && fields["report"] == Null)
      && (Read(j).Fault? <==> kind && !progress && !result && "type" in fields && "message" in fields)
      && (Read(j).Fault? ==> Read(j).text == Shown(fields["type"]) + ": " + Shown(fields["message"]))
  {
    assert "progress" != "result" by {
      assert "progress"[0] != "result"[0];
    }
  }

  /** A module sees the report of a clean run, and an error otherwise. */
  lemma UnwrappingMeans(o: EngineOutcome)
    ensures Unwrap(o).Payload? <==> o.report.Some? && o.error.None? && !o.timedOut
    ensures Unwrap(o).Payload? ==> Unwrap(o).report == o.report.value
    ensures Unwrap(o).Raises? && o.error.Some? ==> Unwrap(o).text == o.error.value
  {
  }

  /** The progress of a trace is that of its turns, one after the other: a turn gives
      its line exactly when it came in time and was progress. */
  lemma {:induction false} ProgressGoesTurnByTurn(a: seq<Turn>, b: seq<Turn>, deadline: real)
    ensures Progress(a + b, deadline) == Progress(a, deadline) + Progress(b, deadline)
  {
    if b == [] {
      assert a + b == a;
    } else {
      var n := |b| - 1;
      ProgressGoesTurnByTurn(a, b[..n], deadline);
      assert (a + b)[..|a + b| - 1] == a + b[..n];
      assert (a + b)[|a + b| - 1] == b[n];
    }
  }

  lemma ProgressOfATurn(t: Turn, deadline: real)
    ensures Progress([t], deadline)
         == if t.now < deadline && t.pipe.Line? && Read(t.pipe.message).Relay?
            then [(Read(t.pipe.message).message, Read(t.pipe.message).channel)] else []
  {
    assert [t][..0] == [];
  }

  /** How a run that does not raise ends, at the first turn that is neither progress
      nor a null report in time: late or silent, it is a timeout; a report in time is
      the result; and the end of the stream, a fault and a malformed message each
      give their error. */
  lemma EndingMeans(trace: seq<Turn>, deadline: real, budgetText: string, exitCode: string,
                    o: EngineOutcome, relayed: seq<(Json, Json)>)
    requires EndsAs(trace, deadline, budgetText, exitCode, o, relayed)
    ensures var n := Decision(trace, deadline);
      var inTime := n < |trace| && trace[n].now < deadline && trace[n].pipe != Silent;
      && relayed == Progress(trace[..n], deadline)
      && (forall i :: 0 <= i < n ==>
            && trace[i].now < deadline && trace[i].pipe.Line?
            && (Read(trace[i].pipe.message).Relay? || Read(trace[i].pipe.message).NullReport?))
      && (o.timedOut <==> !inTime)
      && (!inTime ==> o.report == None && o.error == Some("engine overran its " + budgetText + "s budget and was killed."))
      && (inTime ==> trace[n].pipe.Closed? || trace[n].pipe.Line?)
      && (inTime && trace[n].pipe.Closed? ==> o.report == None && o.error == Some(ExitText(exitCode)))
      && (inTime && trace[n].pipe.Line? ==>
            match Read(trace[n].pipe.message)
            case Report(r) => o.report == Some(r) && o.error == None
            case Fault(text) => o.report == None && o.error == Some(text)
            case Malformed => o.report == None && o.error == Some(MalformedText(trace[n].pipe.message))
            case _ => false)
  {
  }
}

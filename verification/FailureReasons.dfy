/** The `status_reason` vocabulary, and how a failed module run is classified. */
module FailureReasons {
  import opened Options
  import EngineRunner

  /** The reasons stored on a task (`task.*`) and on a job (`job.*`). */
  datatype Reason =
    | TaskTimeout | EngineError | InvalidInput | ModuleUnavailable | Misrouted | TaskCanceled
    | JobTimeout | JobCancellation | NoUsableResults | TasksIncomplete

  const TIMEOUT_MARKER := "overran its"

  /** What a module run raises. */
  datatype Failure = ValueError | RuntimeError(text: string) | OtherError

  predicate Contains(text: string, part: string) {
    exists i :: 0 <= i <= |text| && part <= text[i..]
  }

  function ClassifyFailure(f: Failure): Reason {
    match f
    case ValueError => InvalidInput
    case RuntimeError(text) => if Contains(text, TIMEOUT_MARKER) then TaskTimeout else EngineError
    case OtherError => EngineError
  }

  /** How a run that unwrapped to an error is recorded. */
  function ReasonOf(o: EngineRunner.EngineOutcome): Option<Reason> {
    match EngineRunner.Unwrap(o)
    case Payload(_) => None
    case Raises(text) => Some(ClassifyFailure(RuntimeError(text)))
  }

  lemma MarkerIsFound(before: string, after: string)
    ensures Contains(before + TIMEOUT_MARKER + after, TIMEOUT_MARKER)
  {
    var text := before + TIMEOUT_MARKER + after;
    assert text[|before|..] == TIMEOUT_MARKER + after;
  }

  /** A budget kill is recorded as `task.timeout`, whatever the budget and the
      trace: the marker survives from the runner's wording to the task row. */
  lemma BudgetKillIsATimeout(trace: seq<EngineRunner.Turn>, deadline: real, budgetText: string, exitCode: string,
                             o: EngineRunner.EngineOutcome, relayed: seq<(EngineRunner.Json, EngineRunner.Json)>)
    requires EngineRunner.EndsAs(trace, deadline, budgetText, exitCode, o, relayed) && o.timedOut
    ensures ReasonOf(o) == Some(TaskTimeout)
  {
    OverrunTextCarriesTheMarker(budgetText);
  }

  lemma OverrunTextCarriesTheMarker(budgetText: string)
    ensures Contains(EngineRunner.OverrunText(budgetText), TIMEOUT_MARKER)
  {
    assert "engine overran its " == "engine " + TIMEOUT_MARKER + " ";
    assert EngineRunner.OverrunText(budgetText)
        == "engine " + TIMEOUT_MARKER + (" " + budgetText + "s budget and was killed.");
    MarkerIsFound("engine ", " " + budgetText + "s budget and was killed.");
  }

  /** The marker's first two letters tell where it can begin. */
  lemma MarkerBegins(text: string, i: nat)
    requires i <= |text| && TIMEOUT_MARKER <= text[i..]
    ensures i + 1 < |text| && text[i] == 'o' && text[i + 1] == 'v'
  {
    assert TIMEOUT_MARKER[0] == 'o' && TIMEOUT_MARKER[1] == 'v';
    assert text[i] == text[i..][0] && text[i + 1] == text[i..][1];
  }

  /** A text in front that has no `v`, and does not end in `o`, adds no occurrence. */
  lemma MarkerIsNotInFront(front: string, text: string)
    requires 'v' !in front && (front == "" || front[|front| - 1] != 'o')
    ensures Contains(front + text, TIMEOUT_MARKER) ==> Contains(text, TIMEOUT_MARKER)
  {
    var whole := front + text;
    if Contains(whole, TIMEOUT_MARKER) {
      var i: nat :| i <= |whole| && TIMEOUT_MARKER <= whole[i..];
      MarkerBegins(whole, i);
      assert i >= |front|;
      assert whole[i..] == text[i - |front|..];
    }
  }

  lemma MarkerStaysBehind(front: string, text: string)
    requires Contains(text, TIMEOUT_MARKER)
    ensures Contains(front + text, TIMEOUT_MARKER)
  {
    var i :| 0 <= i <= |text| && TIMEOUT_MARKER <= text[i..];
    assert (front + text)[|front| + i..] == text[i..];
  }

  lemma MarkerBringsItsLetter(text: string)
    ensures Contains(text, TIMEOUT_MARKER) ==> 'v' in text
  {
    if Contains(text, TIMEOUT_MARKER) {
      var i: nat :| i <= |text| && TIMEOUT_MARKER <= text[i..];
      MarkerBegins(text, i);
    }
  }

  /** How an exit code is written: a number, or no code at all. */
  predicate IsExitCode(text: string) {
    text == "None" || forall c :: c in text ==> c == '-' || '0' <= c <= '9'
  }

  /** The engine's own words carry the marker: in the fault it reports, or in a
      line it garbles. */
  predicate Misworded(t: EngineRunner.Turn) {
    t.pipe.Line? &&
    match EngineRunner.Read(t.pipe.message)
    case Fault(text) => Contains(text, TIMEOUT_MARKER)
    case Malformed => Contains(EngineRunner.Shown(t.pipe.message), TIMEOUT_MARKER)
    case _ => false
  }

  /** The text of a failed run carries the marker only in the engine's words: the
      exit text never does, and the platform's preamble adds none. */
  lemma FailureTextCarriesTheMarkerExactlyWhen(t: EngineRunner.Turn, exitCode: string)
    requires (t.pipe.Closed? || t.pipe.Line?) && IsExitCode(exitCode)
    requires t.pipe.Line? ==> EngineRunner.Read(t.pipe.message).Fault? || EngineRunner.Read(t.pipe.message).Malformed?
    ensures Contains(EngineRunner.FailureText(t, exitCode), TIMEOUT_MARKER) <==> Misworded(t)
  {
    match t.pipe {
      case Closed => ExitTextHasNoMarker(exitCode);
      case Line(j) => if EngineRunner.Read(j).Malformed? { MalformedTextCarriesOnlyTheLine(j); }
    }
  }

  lemma ExitTextHasNoMarker(exitCode: string)
    requires IsExitCode(exitCode)
    ensures !Contains(EngineRunner.ExitText(exitCode), TIMEOUT_MARKER)
  {
    var front, code := EngineRunner.ExitPreamble(), exitCode + ").";
    assert EngineRunner.ExitText(exitCode) == front + code;
    PreambleIsClear();
    MarkerIsNotInFront(front, code);
    MarkerBringsItsLetter(code);
  }

  lemma PreambleIsClear()
    ensures var front := EngineRunner.ExitPreamble(); 'v' !in front && front != "" && front[|front| - 1] != 'o'
  {
    assert 'v' !in "engine process exited ";
    assert 'v' !in "without a result ";
    assert 'v' !in "(exit code ";
  }

  lemma MalformedTextCarriesOnlyTheLine(j: EngineRunner.Json)
    ensures Contains(EngineRunner.MalformedText(j), TIMEOUT_MARKER) <==> Contains(EngineRunner.Shown(j), TIMEOUT_MARKER)
  {
    var front := "engine sent a malformed message: ";
    MarkerIsNotInFront(front, EngineRunner.Shown(j));
    if Contains(EngineRunner.Shown(j), TIMEOUT_MARKER) {
      MarkerStaysBehind(front, EngineRunner.Shown(j));
    }
  }

  /** A run is recorded as a timeout exactly when its deciding turn came out of
      budget, or came in time with the marker in the engine's own words. */
  lemma TimeoutReasonExactlyWhen(trace: seq<EngineRunner.Turn>, deadline: real, budgetText: string, exitCode: string,
                                 o: EngineRunner.EngineOutcome, relayed: seq<(EngineRunner.Json, EngineRunner.Json)>)
    requires EngineRunner.EndsAs(trace, deadline, budgetText, exitCode, o, relayed) && IsExitCode(exitCode)
    ensures ReasonOf(o) == Some(TaskTimeout) <==>
      var n := EngineRunner.Decision(trace, deadline);
      n == |trace| || !EngineRunner.InBudget(trace[n], deadline) || Misworded(trace[n])
  {
    TimeoutTextExactlyWhen(trace, deadline, budgetText, exitCode, o, relayed);
    var n := EngineRunner.Decision(trace, deadline);
    if !o.timedOut && o.error.Some? {
      FailureTextCarriesTheMarkerExactlyWhen(trace[n], exitCode);
    }
  }

  /** In terms of the outcome: the run was killed, or its error carries the marker. */
  lemma TimeoutTextExactlyWhen(trace: seq<EngineRunner.Turn>, deadline: real, budgetText: string, exitCode: string,
                                 o: EngineRunner.EngineOutcome, relayed: seq<(EngineRunner.Json, EngineRunner.Json)>)
    requires EngineRunner.EndsAs(trace, deadline, budgetText, exitCode, o, relayed)
    ensures ReasonOf(o) == Some(TaskTimeout) <==>
      o.timedOut || (o.error.Some? && Contains(o.error.value, TIMEOUT_MARKER))
  {
    if o.timedOut {
      BudgetKillIsATimeout(trace, deadline, budgetText, exitCode, o, relayed);
    }
  }

  /** An engine that fails in time with the marker in its own message. */
  lemma EngineWordingCanClaimATimeout(start: real)
    returns (trace: seq<EngineRunner.Turn>, o: EngineRunner.EngineOutcome)
    ensures EngineRunner.EndsAs(trace, start + 1.0, "1", "0", o, [])
    ensures !o.timedOut && ReasonOf(o) == Some(TaskTimeout)
  {
    var line := ReportedFault();
    trace := [EngineRunner.Turn(start, EngineRunner.Line(line))];
    o := EngineRunner.EngineOutcome(None, false, Some(EngineRunner.Read(line).text));
  }

  /** A well-formed error message of the engine that carries the marker. */
  lemma ReportedFault() returns (line: EngineRunner.Json)
    ensures EngineRunner.Read(line).Fault? && Contains(EngineRunner.Read(line).text, TIMEOUT_MARKER)
  {
    line := EngineRunner.Object(map["kind" := EngineRunner.Text("error"), "type" := EngineRunner.Text("E"),
                                    "message" := EngineRunner.Text(TIMEOUT_MARKER)], "");
    KindsDiffer();
    assert EngineRunner.Read(line) == EngineRunner.Fault("E" + ": " + TIMEOUT_MARKER);
    MarkerIsFound("E" + ": ", "");
    assert "E" + ": " + TIMEOUT_MARKER + "" == "E" + ": " + TIMEOUT_MARKER;
  }

  lemma KindsDiffer()
    ensures "error" != "progress" && "error" != "result"
    ensures "kind" != "type" && "kind" != "message" && "type" != "message"
  {
    assert "error"[0] == 'e' && "progress"[0] == 'p' && "result"[0] == 'r';
    assert "kind"[0] == 'k' && "type"[0] == 't' && "message"[0] == 'm';
  }
}

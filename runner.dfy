/** The sequential check runner of dist/index.js: one pass over the steps, then the overall row. */
module SuiteRunner {
  import opened Wrappers
  import opened Text
  import opened Failures
  import Helpers

  /** The states a step's status moves through. */
  datatype StepState = Pending | Running | Success | Failure

  /** A row's status: its state and the message shown next to it. */
  datatype Status = Status(state: StepState, message: string)

  /** A configured step, `title` being its label; `parse` is absent when no parser is registered for its tool. */
  datatype Step = Step(title: string, tool: string, command: string, parse: Option<string -> Option<ParsedFailure>>)

  /** What running a step's command produced; `status` is absent when the process had no exit code. */
  datatype CommandResult = CommandResult(status: Option<int>, stdout: string, stderr: string)

  /**
   * What is kept for a failing step: its label (`title`) and its combined output, of which
   * the report shows the trimmed text.
   */
  datatype FailureDetail = FailureDetail(title: string, combined: string)
  {
    /** `combined.trim()`, the `output` of the record. */
    function Output(): string
    {
      Trim(combined)
    }
  }

  /** One call of `updateStatus`: which row and the state it was given. */
  datatype Transition = Transition(index: nat, state: StepState)

  const DefaultDetail := "Failed - see output below for details"

  /** `[stdout, stderr].filter(Boolean).join("\n")`, then the escape sequences stripped. */
  function Combined(result: CommandResult): string
  {
    var joined :=
      if result.stdout != "" && result.stderr != "" then result.stdout + "\n" + result.stderr
      else if result.stdout != "" then result.stdout
      else result.stderr;
    Helpers.StripAnsi(joined)
  }

  /** `step.parseFailure?.(combined)` */
  function ParseWith(parse: Option<string -> Option<ParsedFailure>>, text: string): Option<ParsedFailure>
  {
    match parse
    case None => None
    case Some(f) => f(text)
  }

  function Parsed(step: Step, result: CommandResult): Option<ParsedFailure>
  {
    ParseWith(step.parse, Combined(result))
  }

  /** A step passes when its command exits with 0 and its parser reports nothing. */
  predicate Passes(step: Step, result: CommandResult)
  {
    result.status == Some(0) && Parsed(step, result).None?
  }

  /** The final status of a step. */
  function StepOutcome(step: Step, result: CommandResult): (s: Status)
    ensures s.state == Success || s.state == Failure
  {
    if Passes(step, result) then Status(Success, "Passed")
    else
      var p := Parsed(step, result);
      Status(Failure, if p.Some? then p.value.message else DefaultDetail)
  }

  /** What `recordIssueCounts` adds to the error and warning totals. */
  function IssueDelta(p: Option<ParsedFailure>): (nat, nat)
  {
    match p
    case None => (1, 0)
    case Some(f) =>
      var errors, warnings := f.errors.GetOr(0), f.warnings.GetOr(0);
      if errors == 0 && warnings == 0 then (1, 0) else (errors, warnings)
  }

  /** The failure record a step leaves: none when it passes, else its label and output. */
  function StepFailure(step: Step, result: CommandResult): seq<FailureDetail>
  {
    if Passes(step, result) then [] else [FailureDetail(step.title, Combined(result))]
  }

  /** What a step adds to the error and warning totals. */
  function StepDelta(step: Step, result: CommandResult): (nat, nat)
  {
    if Passes(step, result) then (0, 0) else IssueDelta(Parsed(step, result))
  }

  /** The failure records of the first `n` steps, in order. */
  function FailuresUpTo(steps: seq<Step>, results: seq<CommandResult>, n: nat): (r: seq<FailureDetail>)
    requires n <= |steps| == |results|
    ensures |r| <= n
  {
    if n == 0 then []
    else
      var i := n - 1;
      FailuresUpTo(steps, results, i) + StepFailure(steps[i], results[i])
  }

  /** The error and warning totals after the first `n` steps. */
  function TotalsUpTo(steps: seq<Step>, results: seq<CommandResult>, n: nat): (nat, nat)
    requires n <= |steps| == |results|
  {
    if n == 0 then (0, 0)
    else
      var i := n - 1;
      var t := TotalsUpTo(steps, results, i);
      var d := StepDelta(steps[i], results[i]);
      (t.0 + d.0, t.1 + d.1)
  }

  /** The `updateStatus` calls of the first `n` steps: running, then the final state, step after step. */
  function TraceUpTo(steps: seq<Step>, results: seq<CommandResult>, n: nat): (r: seq<Transition>)
    requires n <= |steps| == |results|
    ensures |r| == 2 * n
  {
    if n == 0 then []
    else
      var i := n - 1;
      TraceUpTo(steps, results, i) + [Transition(i, Running), Transition(i, StepOutcome(steps[i], results[i]).state)]
  }

  /** The state the runner keeps between renders. */
  class SuiteRun {
    const steps: seq<Step>
    var statuses: seq<Status>
    var durations: seq<Option<nat>>
    var failures: seq<FailureDetail>
    var totalErrors: nat
    var totalWarnings: nat
    var suiteFinished: bool
    /** How many times the table has been rendered. */
    var renders: nat
    /** The `updateStatus` calls made so far. */
    var transitions: seq<Transition>

    /** Every row pending with no message or duration, nothing counted, and the first render done. */
    constructor(steps: seq<Step>)
      ensures this.steps == steps
      ensures statuses == Pendings(|steps|) && durations == NoDurations(|steps|)
      ensures failures == [] && totalErrors == 0 && totalWarnings == 0 && !suiteFinished
      ensures renders == 1 && transitions == []
    {
      this.steps := steps;
      statuses := Pendings(|steps|);
      durations := NoDurations(|steps|);
      failures := [];
      totalErrors, totalWarnings := 0, 0;
      suiteFinished := false;
      renders := 1;
      transitions := [];
    }

    /** `updateStatus`: replaces one row's status and renders. */
    method UpdateStatus(index: nat, state: StepState, message: string)
      requires index < |statuses|
      modifies this
      ensures statuses == old(statuses)[index := Status(state, message)]
      ensures renders == old(renders) + 1 && transitions == old(transitions) + [Transition(index, state)]
      ensures durations == old(durations) && failures == old(failures) && suiteFinished == old(suiteFinished)
      ensures totalErrors == old(totalErrors) && totalWarnings == old(totalWarnings)
    {
      statuses := statuses[index := Status(state, message)];
      transitions := transitions + [Transition(index, state)];
      renders := renders + 1;
    }

    /** `recordIssueCounts` */
    method RecordIssueCounts(parsed: Option<ParsedFailure>)
      modifies this
      ensures totalErrors == old(totalErrors) + IssueDelta(parsed).0
      ensures totalWarnings == old(totalWarnings) + IssueDelta(parsed).1
      ensures statuses == old(statuses) && durations == old(durations) && failures == old(failures)
      ensures suiteFinished == old(suiteFinished) && renders == old(renders) && transitions == old(transitions)
    {
      if parsed.None? {
        totalErrors := totalErrors + 1;
        return;
      }
      var errors := parsed.value.errors.GetOr(0);
      var warnings := parsed.value.warnings.GetOr(0);
      if errors == 0 && warnings == 0 {
        totalErrors := totalErrors + 1;
        return;
      }
      totalErrors := totalErrors + errors;
      totalWarnings := totalWarnings + warnings;
    }

    /** The state the constructor leaves. */
    predicate Initial()
      reads this
    {
      statuses == Pendings(|steps|) && durations == NoDurations(|steps|) &&
      failures == [] && totalErrors == 0 && totalWarnings == 0 && !suiteFinished
    }

    /** One turn of the `forEach`: run, time, classify and, for a failure, record and count. */
    method RunStep(i: nat, result: CommandResult, time: nat)
      requires i < |steps| && |statuses| == |steps| && |durations| == |steps|
      modifies this
      ensures statuses == old(statuses)[i := StepOutcome(steps[i], result)]
      ensures durations == old(durations)[i := Some(time)]
      ensures failures == old(failures) + StepFailure(steps[i], result)
      ensures totalErrors == old(totalErrors) + StepDelta(steps[i], result).0
      ensures totalWarnings == old(totalWarnings) + StepDelta(steps[i], result).1
      ensures transitions == old(transitions) + [Transition(i, Running), Transition(i, StepOutcome(steps[i], result).state)]
      ensures renders == old(renders) + 2 && suiteFinished == old(suiteFinished)
    {
      UpdateStatus(i, Running, "Running...");
      durations := durations[i := Some(time)];
      var combined := Combined(result);
      var parsed := ParseWith(steps[i].parse, combined);
      if result.status == Some(0) && parsed.None? {
        UpdateStatus(i, Success, "Passed");
      } else {
        var detail := if parsed.Some? then parsed.value.message else DefaultDetail;
        UpdateStatus(i, Failure, detail);
        failures := failures + [FailureDetail(steps[i].title, combined)];
        RecordIssueCounts(parsed);
      }
    }

    /**
     * The `forEach` over the steps, given each command's result and how long it took, and the
     * final render.
     */
    method Run(results: seq<CommandResult>, times: seq<nat>)
      requires |results| == |steps| && |times| == |steps|
      requires Initial()
      modifies this
      ensures statuses == Finals(steps, results, |steps|) && durations == Timed(times, |steps|)
      ensures failures == FailuresUpTo(steps, results, |steps|)
      ensures (totalErrors, totalWarnings) == TotalsUpTo(steps, results, |steps|)
      ensures suiteFinished
      ensures renders == old(renders) + 2 * |steps| + 1
      ensures transitions == old(transitions) + TraceUpTo(steps, results, |steps|)
    {
      for i := 0 to |steps|
        invariant RanUpTo(steps, results, times, i, statuses, durations, failures, totalErrors, totalWarnings, old(transitions), transitions)
        invariant !suiteFinished
        invariant renders == old(renders) + 2 * i
      {
        ghost var s0, d0, f0, e0, w0, t0 := statuses, durations, failures, totalErrors, totalWarnings, transitions;
        RunStep(i, results[i], times[i]);
        RanNext(steps, results, times, i, s0, d0, f0, e0, w0, old(transitions), t0);
      }
      assert Pendings(0) == [] && NoDurations(0) == [];
      suiteFinished := true;
      renders := renders + 1;
    }

    /** `process.exit(failures.length > 0 ? 1 : 0)` */
    function ExitCode(): (code: nat)
      reads this
      ensures code == 1 <==> |failures| > 0
      ensures code == 0 || code == 1
    {
      if |failures| > 0 then 1 else 0
    }
  }

  /** A step succeeds exactly when its command exits with 0 and the parser reports nothing; a failure shows the parser's message or the default. */
  lemma StepOutcomeCases(step: Step, result: CommandResult)
    ensures StepOutcome(step, result).state == Success <==> result.status == Some(0) && Parsed(step, result).None?
    ensures StepOutcome(step, result).state == Failure ==>
      StepOutcome(step, result).message ==
        if Parsed(step, result).Some? then Parsed(step, result).value.message else DefaultDetail
  {
  }

  /** No parse result, or one with no errors and no warnings, adds one error; otherwise both counts are added as reported. */
  lemma IssueDeltaCases(p: Option<ParsedFailure>)
    ensures p.None? ==> IssueDelta(p) == (1, 0)
    ensures p.Some? && p.value.errors.GetOr(0) == 0 && p.value.warnings.GetOr(0) == 0 ==> IssueDelta(p) == (1, 0)
    ensures p.Some? && (p.value.errors.GetOr(0) > 0 || p.value.warnings.GetOr(0) > 0) ==>
      IssueDelta(p) == (p.value.errors.GetOr(0), p.value.warnings.GetOr(0))
    ensures IssueDelta(p).0 + IssueDelta(p).1 > 0
  {
  }

  /** A warnings-only result raises the warnings and leaves the errors as they were. */
  lemma WarningsOnly(f: ParsedFailure)
    requires f.errors.GetOr(0) == 0 && f.warnings.GetOr(0) > 0
    ensures IssueDelta(Some(f)) == (0, f.warnings.value)
  {
  }

  /** Once the steps have run, there are issues exactly when some step failed. */
  lemma {:induction false} IssuesIffFailures(steps: seq<Step>, results: seq<CommandResult>, n: nat)
    requires n <= |steps| == |results|
    ensures var t := TotalsUpTo(steps, results, n); t.0 + t.1 > 0 <==> |FailuresUpTo(steps, results, n)| > 0
  {
    if n > 0 {
      IssuesIffFailures(steps, results, n - 1);
      IssueDeltaCases(Parsed(steps[n - 1], results[n - 1]));
    }
  }

  /** There is no failure record exactly when every step passed. */
  lemma {:induction false} FailuresOfFailing(steps: seq<Step>, results: seq<CommandResult>, n: nat)
    requires n <= |steps| == |results|
    ensures (forall i :: 0 <= i < n ==> Passes(steps[i], results[i])) <==> FailuresUpTo(steps, results, n) == []
  {
    if n > 0 {
      FailuresOfFailing(steps, results, n - 1);
      var prev := FailuresUpTo(steps, results, n - 1);
      var last := StepFailure(steps[n - 1], results[n - 1]);
      assert FailuresUpTo(steps, results, n) == prev + last;
      assert prev + last == [] <==> prev == [] && last == [];
      if forall i :: 0 <= i < n - 1 ==> Passes(steps[i], results[i]) {
        if Passes(steps[n - 1], results[n - 1]) {
          assert forall i :: 0 <= i < n ==> Passes(steps[i], results[i]) by {
            forall i | 0 <= i < n
              ensures Passes(steps[i], results[i])
            {
              if i < n - 1 {
              }
            }
          }
        }
      }
    }
  }

  /** The final statuses of the first `n` steps. */
  function Finals(steps: seq<Step>, results: seq<CommandResult>, n: nat): (r: seq<Status>)
    requires n <= |steps| == |results|
    ensures |r| == n
  {
    if n == 0 then [] else Finals(steps, results, n - 1) + [StepOutcome(steps[n - 1], results[n - 1])]
  }

  /** The durations of the first `n` steps. */
  function Timed(times: seq<nat>, n: nat): (r: seq<Option<nat>>)
    requires n <= |times|
    ensures |r| == n
  {
    if n == 0 then [] else Timed(times, n - 1) + [Some(times[n - 1])]
  }

  function Pendings(n: nat): seq<Status>
  {
    seq(n, _ => Status(Pending, ""))
  }

  /**
   * The runner's state after the first `i` steps: those rows hold their final status and
   * duration, the later rows are still pending, and the failures, totals and transitions
   * are those of the first `i` steps.
   */
  ghost predicate RanUpTo(steps: seq<Step>, results: seq<CommandResult>, times: seq<nat>, i: nat,
      statuses: seq<Status>, durations: seq<Option<nat>>, failures: seq<FailureDetail>, errors: nat, warnings: nat,
      trace0: seq<Transition>, trace: seq<Transition>)
  {
    i <= |steps| == |results| == |times| &&
    statuses == Finals(steps, results, i) + Pendings(|steps| - i) &&
    durations == Timed(times, i) + NoDurations(|steps| - i) &&
    failures == FailuresUpTo(steps, results, i) &&
    errors == TotalsUpTo(steps, results, i).0 && warnings == TotalsUpTo(steps, results, i).1 &&
    trace == trace0 + TraceUpTo(steps, results, i)
  }

  /** Updating the first pending row of "done rows, then pending rows" appends to the done rows. */
  lemma UpdateFirst<T>(done: seq<T>, x: T, y: T, rest: seq<T>)
    ensures (done + ([y] + rest))[|done| := x] == done + [x] + rest
  {
    var u := (done + ([y] + rest))[|done| := x];
    assert forall j :: 0 <= j < |u| ==> u[j] == (done + [x] + rest)[j];
  }

  /** Running step `i` as `RunStep` does takes the state after `i` steps to the state after `i + 1`. */
  lemma RanNext(steps: seq<Step>, results: seq<CommandResult>, times: seq<nat>, i: nat,
      statuses: seq<Status>, durations: seq<Option<nat>>, failures: seq<FailureDetail>, errors: nat, warnings: nat,
      trace0: seq<Transition>, trace: seq<Transition>)
    requires i < |steps|
    requires RanUpTo(steps, results, times, i, statuses, durations, failures, errors, warnings, trace0, trace)
    ensures RanUpTo(steps, results, times, i + 1,
      statuses[i := StepOutcome(steps[i], results[i])], durations[i := Some(times[i])],
      failures + StepFailure(steps[i], results[i]),
      errors + StepDelta(steps[i], results[i]).0, warnings + StepDelta(steps[i], results[i]).1,
      trace0, trace + [Transition(i, Running), Transition(i, StepOutcome(steps[i], results[i]).state)])
  {
    var k := |steps| - i - 1;
    assert Pendings(k + 1) == [Status(Pending, "")] + Pendings(k);
    UpdateFirst(Finals(steps, results, i), StepOutcome(steps[i], results[i]), Status(Pending, ""), Pendings(k));
    assert NoDurations(k + 1) == [None] + NoDurations(k);
    UpdateFirst(Timed(times, i), Some(times[i]), None, NoDurations(k));
    assert TraceUpTo(steps, results, i + 1) ==
      TraceUpTo(steps, results, i) + [Transition(i, Running), Transition(i, StepOutcome(steps[i], results[i]).state)];
  }

  /** After all steps, row i holds step i's final status and its duration. */
  lemma {:induction false} FinalsAt(steps: seq<Step>, results: seq<CommandResult>, n: nat, i: nat)
    requires n <= |steps| == |results| && i < n
    ensures Finals(steps, results, n)[i] == StepOutcome(steps[i], results[i])
  {
    if i < n - 1 {
      FinalsAt(steps, results, n - 1, i);
    }
  }

  lemma {:induction false} TimedAt(times: seq<nat>, n: nat, i: nat)
    requires n <= |times| && i < n
    ensures Timed(times, n)[i] == Some(times[i])
  {
    if i < n - 1 {
      TimedAt(times, n - 1, i);
    }
  }

  /** Row i is set running, then to its final state, before row i + 1 is touched. */
  lemma {:induction false} TraceOrder(steps: seq<Step>, results: seq<CommandResult>, n: nat, i: nat)
    requires n <= |steps| == |results| && i < n
    ensures TraceUpTo(steps, results, n)[2 * i] == Transition(i, Running)
    ensures TraceUpTo(steps, results, n)[2 * i + 1] == Transition(i, StepOutcome(steps[i], results[i]).state)
  {
    if i < n - 1 {
      TraceOrder(steps, results, n - 1, i);
    }
  }

  /** The overall icon: running until the suite finishes, then success iff there are no issues. */
  function OverallIcon(suiteFinished: bool, issues: nat): (s: StepState)
    ensures s == Running <==> !suiteFinished
    ensures suiteFinished ==> (s == Success <==> issues == 0)
  {
    if suiteFinished then (if issues == 0 then Success else Failure) else Running
  }

  /** The icons of dist/index.js. */
  function Icon(s: StepState): string
  {
    match s
    case Pending => "  "
    case Running => "\U{23F3}"
    case Success => "\U{2705}"
    case Failure => "\U{274C}"
  }

  /** "N error(s)" and "N warning(s)" for the positive counts only. */
  function BreakdownParts(errors: nat, warnings: nat): (r: seq<string>)
    ensures |r| == (if errors > 0 then 1 else 0) + (if warnings > 0 then 1 else 0)
  {
    (if errors > 0 then [ErrorPart(errors)] else []) + (if warnings > 0 then [WarningPart(warnings)] else [])
  }

  function ErrorPart(errors: nat): string
  {
    NatToString(errors) + " " + Noun(errors, "error")
  }

  function WarningPart(warnings: nat): string
  {
    NatToString(warnings) + " " + Noun(warnings, "warning")
  }

  function Breakdown(errors: nat, warnings: nat): string
  {
    var parts := BreakdownParts(errors, warnings);
    if |parts| > 0 then " (" + Join(parts, ", ") + ")" else ""
  }

  /** The overall row's status text: "N issue(s)" and the breakdown. */
  function OverallMessage(errors: nat, warnings: nat): string
  {
    var issues := errors + warnings;
    NatToString(issues) + (" " + (Noun(issues, "issue") + Breakdown(errors, warnings)))
  }

  /**
   * The overall row's text reads back the number of issues, errors and warnings together, with
   * "issue" singular exactly for one, followed by the breakdown.
   */
  lemma OverallMessageCases(errors: nat, warnings: nat)
    ensures var m, n, d := OverallMessage(errors, warnings), errors + warnings, NatToString(errors + warnings);
      |d| <= |m| && NumberOf(m[..|d|]) == n
      && m[|d|..] == " " + ((if n == 1 then "issue" else "issues") + Breakdown(errors, warnings))
  {
    var n, d := errors + warnings, NatToString(errors + warnings);
    var word: string := if n == 1 then "issue" else "issues";
    var rest := " " + (word + Breakdown(errors, warnings));
    var m := OverallMessage(errors, warnings);
    assert Noun(n, "issue") == word;
    assert m == d + rest;
    CountedPrefix(n, rest);
  }

  /** A count's digits at the head of a text read back the count, and the rest follows them. */
  lemma CountedPrefix(n: nat, rest: string)
    ensures var d := NatToString(n); NumberOf((d + rest)[..|d|]) == n && (d + rest)[|d|..] == rest
  {
    var d := NatToString(n);
    assert (d + rest)[..|d|] == d;
    NumberOfNatToString(n);
  }

  /** No issues at all: "0 issues", without a breakdown. */
  lemma OverallNoIssues()
    ensures OverallMessage(0, 0) == "0 issues"
  {
    assert Breakdown(0, 0) == "" by {
      BreakdownCases(0, 0);
    }
    assert NatToString(0) == "0";
  }

  /** One error alone: "1 issue (1 error)". */
  lemma OverallOneError()
    ensures OverallMessage(1, 0) == "1 issue" + " (1 error)"
  {
    assert Breakdown(1, 0) == " (1 error)" by {
      BreakdownCases(1, 0);
      assert ErrorPart(1) == "1 error" by {
        assert NatToString(1) == "1";
      }
    }
    assert NatToString(1) == "1";
  }

  /** Two errors and a warning: "3 issues (2 errors, 1 warning)". */
  lemma OverallErrorsAndWarning()
    ensures OverallMessage(2, 1) == "3 issues" + " (2 errors, 1 warning)"
  {
    BreakdownTwoOne();
    assert NatToString(3) == "3" && Noun(3, "issue") == "issues";
  }

  lemma BreakdownTwoOne()
    ensures Breakdown(2, 1) == " (2 errors, 1 warning)"
  {
    TwoErrorsOneWarning();
  }

  lemma TwoErrorsOneWarning()
    ensures Breakdown(2, 1) == " (" + ("2 errors" + ", " + "1 warning") + ")"
  {
    BreakdownCases(2, 1);
    assert ErrorPart(2) == "2 errors" by {
      assert NatToString(2) == "2";
    }
    assert WarningPart(1) == "1 warning" by {
      assert NatToString(1) == "1";
    }
  }

  /** The breakdown is empty without issues, names only a positive count, and names both with ", " between. */
  lemma BreakdownCases(errors: nat, warnings: nat)
    ensures errors == 0 && warnings == 0 ==> Breakdown(errors, warnings) == ""
    ensures errors > 0 && warnings == 0 ==> Breakdown(errors, warnings) == " (" + ErrorPart(errors) + ")"
    ensures errors == 0 && warnings > 0 ==> Breakdown(errors, warnings) == " (" + WarningPart(warnings) + ")"
    ensures errors > 0 && warnings > 0 ==>
      Breakdown(errors, warnings) == " (" + (ErrorPart(errors) + ", " + WarningPart(warnings)) + ")"
  {
    var parts := BreakdownParts(errors, warnings);
    if errors > 0 && warnings > 0 {
      assert parts == [ErrorPart(errors), WarningPart(warnings)];
      assert parts[1..] == [WarningPart(warnings)];
      assert Join(parts, ", ") == ErrorPart(errors) + ", " + WarningPart(warnings);
    }
  }

  /** Each part carries its count and the noun, singular exactly for 1. */
  lemma PartsCount(n: nat)
    ensures NumberOf(ErrorPart(n)[..|NatToString(n)|]) == n && ErrorPart(n)[|NatToString(n)|..] == " " + Noun(n, "error")
    ensures NumberOf(WarningPart(n)[..|NatToString(n)|]) == n && WarningPart(n)[|NatToString(n)|..] == " " + Noun(n, "warning")
  {
    CountThenNoun(n, "error");
    CountThenNoun(n, "warning");
  }

  lemma CountThenNoun(n: nat, word: string)
    ensures var d := NatToString(n); var p := d + " " + Noun(n, word);
      NumberOf(p[..|d|]) == n && p[|d|..] == " " + Noun(n, word)
  {
    var d := NatToString(n);
    var tail := " " + Noun(n, word);
    assert d + " " + Noun(n, word) == d + tail;
    assert (d + tail)[..|d|] == d;
    assert (d + tail)[|d|..] == tail;
    NumberOfNatToString(n);
  }

  /** The `reduce` over the durations, with a missing duration counted as 0. */
  function OverallDuration(durations: seq<Option<nat>>): nat
  {
    if durations == [] then 0 else OverallDuration(durations[..|durations| - 1]) + durations[|durations| - 1].GetOr(0)
  }

  /** Durations add up across a split of the rows, and rows without a duration add nothing. */
  lemma {:induction false} OverallDurationConcat(a: seq<Option<nat>>, b: seq<Option<nat>>)
    ensures OverallDuration(a + b) == OverallDuration(a) + OverallDuration(b)
    decreases |b|
  {
    if b == [] {
      assert a + b == a;
    } else {
      assert (a + b)[..|a + b| - 1] == a + b[..|b| - 1];
      OverallDurationConcat(a, b[..|b| - 1]);
    }
  }

  function NoDurations(n: nat): seq<Option<nat>>
  {
    seq(n, _ => None)
  }

  lemma {:induction false} OverallDurationPending(n: nat)
    ensures OverallDuration(NoDurations(n)) == 0
  {
    if n > 0 {
      assert NoDurations(n)[..n - 1] == NoDurations(n - 1);
      OverallDurationPending(n - 1);
    }
  }

  /** A pending row shows no message; any other row shows its status message. */
  function RowMessage(s: Status): (m: string)
    ensures s.state == Pending ==> m == ""
    ensures s.state != Pending ==> m == s.message
  {
    if s.state == Pending then "" else s.message
  }

  /** The first cell of a row: the state's icon, a space and the label. */
  function RowLabel(s: Status, step: Step): string
  {
    Icon(s.state) + " " + step.title
  }

  /** Each state has its own icon: two blanks while pending, a single glyph otherwise. */
  lemma IconsDistinct(a: StepState, b: StepState)
    ensures Icon(a) == Icon(b) <==> a == b
    ensures |Icon(a)| == (if a == Pending then 2 else 1)
    ensures a == Pending ==> Icon(a) == "  "
  {
    if a != b {
      assert |Icon(a)| != |Icon(b)| || Icon(a)[0] != Icon(b)[0];
    }
  }

  /**
   * A row's first cell is its icon, a space and the step's label, so for one step the cell
   * tells the states apart.
   */
  lemma RowLabelReads(s: Status, t: Status, step: Step)
    ensures var cell, icon := RowLabel(s, step), Icon(s.state);
      |cell| == |icon| + 1 + |step.title| && cell[..|icon|] == icon && cell[|icon|..] == " " + step.title
    ensures RowLabel(s, step) == RowLabel(t, step) <==> s.state == t.state
  {
    var icon, tail := Icon(s.state), " " + step.title;
    assert RowLabel(s, step) == icon + tail;
    assert (icon + tail)[..|icon|] == icon && (icon + tail)[|icon|..] == tail;
    IconsDistinct(s.state, t.state);
    if RowLabel(s, step) == RowLabel(t, step) {
      var other := Icon(t.state);
      assert RowLabel(t, step) == other + tail;
      assert |icon| == |other|;
      assert icon == (icon + tail)[..|icon|] == (other + tail)[..|other|] == other;
    }
  }

  /** Both outputs are kept, stdout first, with one newline between, and an empty one is dropped. */
  lemma CombinedCases(result: CommandResult)
    requires Helpers.Esc !in result.stdout && Helpers.Esc !in result.stderr
    ensures result.stdout != "" && result.stderr != "" ==> Combined(result) == result.stdout + "\n" + result.stderr
    ensures result.stdout == "" ==> Combined(result) == result.stderr
    ensures result.stderr == "" ==> Combined(result) == result.stdout
  {
    var joined := result.stdout + "\n" + result.stderr;
    assert Helpers.Esc !in joined by {
      assert forall k :: 0 <= k < |joined| ==> joined[k] != Helpers.Esc by {
        forall k | 0 <= k < |joined|
          ensures joined[k] != Helpers.Esc
        {
          if k < |result.stdout| {
            assert joined[k] == result.stdout[k];
          } else if k > |result.stdout| {
            assert joined[k] == result.stderr[k - |result.stdout| - 1];
          }
        }
      }
    }
    Helpers.StripAnsiPlain(joined);
    Helpers.StripAnsiPlain(result.stdout);
    Helpers.StripAnsiPlain(result.stderr);
  }
}

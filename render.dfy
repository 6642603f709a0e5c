/**
 * The failure report and the status colouring (src/renderers/render.ts): the headline of a
 * failed task, the lines `printFailureDetails` logs, and `colorStatusMessage`.
 */
module Renderer {
  import opened Wrappers
  import opened Text
  import opened RunOptionsParser
  import Helpers
  import SuiteRunner

  /** The chalk styles the renderers use. */
  datatype Style = Red | Yellow | BlueUnderline | Bold

  /** The sequences a style opens with. */
  function Open(style: Style): string
  {
    match style
    case Red => Helpers.Sgr("31")
    case Yellow => Helpers.Sgr("33")
    case BlueUnderline => Helpers.Sgr("34") + Helpers.Sgr("4")
    case Bold => Helpers.Sgr("1")
  }

  /** The sequences a style closes with, innermost first. */
  function Close(style: Style): string
  {
    match style
    case Red => Helpers.Sgr("39")
    case Yellow => Helpers.Sgr("39")
    case BlueUnderline => Helpers.Sgr("24") + Helpers.Sgr("39")
    case Bold => Helpers.Sgr("22")
  }

  /**
   * A chalk style applied at colour level `level`: nothing changes at level 0 or on the empty
   * text; otherwise the text is wrapped in the style's sequences.
   */
  function Paint(style: Style, text: string, level: nat): string
  {
    if level == 0 || text == [] then text else Open(style) + (text + Close(style))
  }

  /** `colorStatusMessage`: "" for no message, red for a failure, else the message as it is. */
  function ColorStatusMessage(message: string, state: SuiteRunner.StepState, level: nat): string
  {
    if message == [] then ""
    else if state == SuiteRunner.Failure then Paint(Red, message, level)
    else message
  }

  /**
   * `FailureDetails`: a failed task's identity, its output and what its parser found. `title` is
   * the record's `label` field (`label` is a reserved word in Dafny).
   */
  datatype FailureDetails = FailureDetails(
    title: string, tool: string, command: string, output: string, rawOutput: string,
    errors: Option<nat>, warnings: Option<nat>, summary: Option<string>)

  /** `breakdownParts`: the error count whenever there is one (0 included), then the warning count. */
  function BreakdownParts(errors: Option<nat>, warnings: Option<nat>, level: nat): (r: seq<string>)
    ensures |r| == (if errors.Some? then 1 else 0) + (if warnings.Some? then 1 else 0)
  {
    (if errors.Some? then [Paint(Red, SuiteRunner.ErrorPart(errors.value), level)] else []) +
    (if warnings.Some? then [Paint(Yellow, SuiteRunner.WarningPart(warnings.value), level)] else [])
  }

  /** The text in the headline's parentheses: the counts, else the summary, else "See output". */
  function Detail(failure: FailureDetails, level: nat): string
  {
    var parts := BreakdownParts(failure.errors, failure.warnings, level);
    if |parts| > 0 then Join(parts, ", ") else failure.summary.GetOr("See output")
  }

  /** `formatFailureHeadline` */
  function Headline(failure: FailureDetails, level: nat): string
  {
    Paint(BlueUnderline, failure.title, level) + (" - " + (failure.tool + (" [" + (Paint(Yellow, failure.command, level) +
      ("] (" + (Paint(Red, Detail(failure, level), level) + ")"))))))
  }

  /** `failure.rawOutput || failure.output || "(no output)"` */
  function Body(failure: FailureDetails): string
  {
    if failure.rawOutput != [] then failure.rawOutput
    else if failure.output != [] then failure.output
    else "(no output)"
  }

  const SilentHint := "Some checks failed. Run without --silent to see details."

  /** The two `console.log` calls of the `forEach` body: the headline after a line break, then the body. */
  function Entry(failure: FailureDetails, level: nat): seq<string>
  {
    ["\n" + Headline(failure, level), Body(failure)]
  }

  /** The lines `entry` logs for each of the items, in order. */
  function EachEntry<T>(items: seq<T>, entry: T -> seq<string>): seq<string>
  {
    if items == [] then [] else EachEntry(items[..|items| - 1], entry) + entry(items[|items| - 1])
  }

  /** The two `console.log` calls for each of the failures, in order. */
  function Entries(failures: seq<FailureDetails>, level: nat): (r: seq<string>)
    ensures |r| == 2 * |failures|
  {
    EachEntryLength(failures, f => Entry(f, level));
    EachEntry(failures, f => Entry(f, level))
  }

  /** What `printFailureDetails` logs, one string per `console.log` call; `console.log()` logs "". */
  function FailureLog(failures: seq<FailureDetails>, options: RunOptions, level: nat): seq<string>
  {
    if failures == [] then []
    else if options.isSilentMode then [SilentHint]
    else ["Details:"] + Entries(failures, level) + [""]
  }

  /** `printFailureDetails`: the guard, the silent hint, then "Details:", the `forEach` and the closing `console.log()`. */
  method PrintFailureDetails(failures: seq<FailureDetails>, options: RunOptions, level: nat) returns (logs: seq<string>)
    ensures logs == FailureLog(failures, options, level)
  {
    logs := [];
    if |failures| > 0 {
      if options.isSilentMode {
        logs := logs + [SilentHint];
        return;
      }
      logs := logs + ["Details:"];
      for i := 0 to |failures|
        invariant logs == ["Details:"] + Entries(failures[..i], level)
      {
        assert failures[..i + 1][..i] == failures[..i];
        var headline := Headline(failures[i], level);
        logs := logs + ["\n" + headline];
        logs := logs + [Body(failures[i])];
      }
      assert failures[..|failures|] == failures;
      logs := logs + [""];
    }
  }

  // ---------------------------------------------------------------------------------------
  // Properties

  /** Colouring changes only a failure's message, and removing the colour sequences gives it back. */
  lemma ColorStatusCases(message: string, state: SuiteRunner.StepState, level: nat)
    ensures ColorStatusMessage("", state, level) == ""
    ensures state != SuiteRunner.Failure ==> ColorStatusMessage(message, state, level) == message
    ensures level == 0 ==> ColorStatusMessage(message, state, level) == message
    ensures state == SuiteRunner.Failure && level > 0 && message != [] ==>
      ColorStatusMessage(message, state, level) == Helpers.Sgr("31") + (message + Helpers.Sgr("39"))
    ensures Helpers.Esc !in message ==> Helpers.StripAnsi(ColorStatusMessage(message, state, level)) == message
  {
    if Helpers.Esc !in message {
      Helpers.StripAnsiPlain(message);
      if state == SuiteRunner.Failure && level > 0 && message != [] {
        PaintStripped(Red, message, level);
      }
    }
  }

  /** Removing the colour sequences from a painted text without escapes gives the text back. */
  lemma PaintStripped(style: Style, text: string, level: nat)
    requires Helpers.Esc !in text
    ensures Helpers.StripAnsi(Paint(style, text, level)) == text
  {
    Helpers.ClosedPlain(text);
    Helpers.StripAnsiPlain(text);
    PaintClosed(style, text, level);
  }

  /** A style's sequences are complete and strip to nothing. */
  lemma StyleSequences(style: Style)
    ensures Helpers.Closed(Open(style)) && Helpers.StripAnsi(Open(style)) == []
    ensures Helpers.Closed(Close(style)) && Helpers.StripAnsi(Close(style)) == []
  {
    match style
    case Red =>
      Helpers.ClosedSgr("31");
      Helpers.ClosedSgr("39");
    case Yellow =>
      Helpers.ClosedSgr("33");
      Helpers.ClosedSgr("39");
    case Bold =>
      Helpers.ClosedSgr("1");
      Helpers.ClosedSgr("22");
    case BlueUnderline =>
      SgrPair("34", "4");
      SgrPair("24", "39");
  }

  lemma SgrPair(p: string, q: string)
    requires forall j :: 0 <= j < |p| ==> p[j] != 'm' && !IsLineTerminator(p[j])
    requires forall j :: 0 <= j < |q| ==> q[j] != 'm' && !IsLineTerminator(q[j])
    ensures Helpers.Closed(Helpers.Sgr(p) + Helpers.Sgr(q)) && Helpers.StripAnsi(Helpers.Sgr(p) + Helpers.Sgr(q)) == []
  {
    Helpers.ClosedSgr(p);
    Helpers.ClosedSgr(q);
    Helpers.ClosedConcat(Helpers.Sgr(p), Helpers.Sgr(q));
    Helpers.StripAnsiClosed(Helpers.Sgr(p), Helpers.Sgr(q));
  }

  /**
   * Painting keeps a text's escapes complete and adds nothing visible: the stripped text is
   * what it was before.
   */
  lemma PaintClosed(style: Style, text: string, level: nat)
    requires Helpers.Closed(text)
    ensures Helpers.Closed(Paint(style, text, level))
    ensures Helpers.StripAnsi(Paint(style, text, level)) == Helpers.StripAnsi(text)
  {
    if level > 0 && text != [] {
      var o, c := Open(style), Close(style);
      StyleSequences(style);
      Helpers.ClosedConcat(text, c);
      Helpers.ClosedConcat(o, text + c);
      Helpers.StripAnsiClosed(text, c);
      Helpers.StripAnsiClosed(o, text + c);
    }
  }

  /** A coloured status message keeps its sequences complete and strips to the message's own text. */
  lemma ColorStatusClosed(message: string, state: SuiteRunner.StepState, level: nat)
    requires Helpers.Closed(message)
    ensures Helpers.Closed(ColorStatusMessage(message, state, level))
    ensures Helpers.StripAnsi(ColorStatusMessage(message, state, level)) == Helpers.StripAnsi(message)
  {
    if message != [] && state == SuiteRunner.Failure {
      PaintClosed(Red, message, level);
    }
  }

  /** A count with its noun holds no escape character. */
  lemma CountPartPlain(n: nat, noun: string)
    requires Helpers.Esc !in noun
    ensures Helpers.Esc !in NatToString(n) + " " + Noun(n, noun)
  {
    NatToStringDigits(n);
    var d := NatToString(n);
    assert forall k :: 0 <= k < |d| ==> d[k] != Helpers.Esc;
  }

  /**
   * The detail at any colour level keeps its sequences complete and strips to the same text as
   * the detail printed without colour.
   */
  lemma DetailStripped(failure: FailureDetails, level: nat)
    requires failure.summary.Some? ==> Helpers.Closed(failure.summary.value)
    ensures Helpers.Closed(Detail(failure, level))
    ensures Helpers.StripAnsi(Detail(failure, level)) == Helpers.StripAnsi(Detail(failure, 0))
  {
    if failure.errors.Some? && failure.warnings.Some? {
      DetailBothStripped(failure, level);
    } else if failure.errors.Some? || failure.warnings.Some? {
      DetailOneStripped(failure, level);
    } else {
      DetailSummaryStripped(failure, level);
    }
  }

  /** Without counts, the detail is the summary or "See output", the same at every colour level. */
  lemma DetailSummaryStripped(failure: FailureDetails, level: nat)
    requires failure.errors.None? && failure.warnings.None?
    requires failure.summary.Some? ==> Helpers.Closed(failure.summary.value)
    ensures Helpers.Closed(Detail(failure, level))
    ensures Detail(failure, level) == Detail(failure, 0)
  {
    assert |BreakdownParts(failure.errors, failure.warnings, level)| == 0;
    assert |BreakdownParts(failure.errors, failure.warnings, 0)| == 0;
    if failure.summary.None? {
      Helpers.ClosedPlain("See output");
    }
  }

  /** With one count, the detail is that count's painted part, which strips to the plain part. */
  lemma DetailOneStripped(failure: FailureDetails, level: nat)
    requires failure.errors.Some? != failure.warnings.Some?
    ensures Helpers.Closed(Detail(failure, level))
    ensures Helpers.StripAnsi(Detail(failure, level)) == Helpers.StripAnsi(Detail(failure, 0))
  {
    var style := if failure.errors.Some? then Red else Yellow;
    var n := if failure.errors.Some? then failure.errors.value else failure.warnings.value;
    var noun := if failure.errors.Some? then "error" else "warning";
    var part := NatToString(n) + " " + Noun(n, noun);
    PartPainted(style, n, noun, level);
    assert Detail(failure, level) == Paint(style, part, level) by {
      DetailCases(failure, level);
    }
    assert Detail(failure, 0) == Paint(style, part, 0) by {
      DetailCases(failure, 0);
    }
  }

  /** With both counts, the detail is two painted parts that strip to the plain parts. */
  lemma DetailBothStripped(failure: FailureDetails, level: nat)
    requires failure.errors.Some? && failure.warnings.Some?
    ensures Helpers.Closed(Detail(failure, level))
    ensures Helpers.StripAnsi(Detail(failure, level)) == Helpers.StripAnsi(Detail(failure, 0))
  {
    var e := SuiteRunner.ErrorPart(failure.errors.value);
    var w := SuiteRunner.WarningPart(failure.warnings.value);
    PartPainted(Red, failure.errors.value, "error", level);
    PartPainted(Yellow, failure.warnings.value, "warning", level);
    PairStripped(Paint(Red, e, level), e, Paint(Yellow, w, level), w);
    assert Detail(failure, level) == Paint(Red, e, level) + ", " + Paint(Yellow, w, level) by {
      DetailCases(failure, level);
    }
    assert Detail(failure, 0) == e + ", " + w by {
      DetailCases(failure, 0);
    }
  }

  /** A painted count part has complete sequences and strips to the plain part. */
  lemma PartPainted(style: Style, n: nat, noun: string, level: nat)
    requires noun == "error" || noun == "warning"
    ensures var part := NatToString(n) + " " + Noun(n, noun);
      Helpers.Closed(part) && Helpers.Closed(Paint(style, part, level))
      && Helpers.StripAnsi(Paint(style, part, level)) == Helpers.StripAnsi(part)
      && Paint(style, part, 0) == part
  {
    var part := NatToString(n) + " " + Noun(n, noun);
    CountPartPlain(n, noun);
    Helpers.ClosedPlain(part);
    PaintClosed(style, part, level);
  }

  /** Two pieces joined by ", " strip like their plain forms joined the same way. */
  lemma PairStripped(pe: string, e: string, pw: string, w: string)
    requires Helpers.Closed(pe) && Helpers.Closed(e) && Helpers.Closed(pw) && Helpers.Closed(w)
    requires Helpers.StripAnsi(pe) == Helpers.StripAnsi(e) && Helpers.StripAnsi(pw) == Helpers.StripAnsi(w)
    ensures Helpers.Closed(pe + ", " + pw)
    ensures Helpers.StripAnsi(pe + ", " + pw) == Helpers.StripAnsi(e + ", " + w)
  {
    Helpers.ClosedPlain(", ");
    Helpers.ClosedConcat(pe, ", ");
    Helpers.ClosedConcat(pe + ", ", pw);
    Helpers.ClosedConcat(e, ", ");
    Helpers.StripAnsiClosed(pe, ", ");
    Helpers.StripAnsiClosed(pe + ", ", pw);
    Helpers.StripAnsiClosed(e, ", ");
    Helpers.StripAnsiClosed(e + ", ", w);
  }

  /** Two texts with complete sequences that strip alike, before two that strip alike, strip alike. */
  lemma StripBefore(a: string, a0: string, r: string, r0: string)
    requires Helpers.Closed(a) && Helpers.Closed(a0) && Helpers.StripAnsi(a) == Helpers.StripAnsi(a0)
    requires Helpers.StripAnsi(r) == Helpers.StripAnsi(r0)
    ensures Helpers.StripAnsi(a + r) == Helpers.StripAnsi(a0 + r0)
  {
    Helpers.StripAnsiClosed(a, r);
    Helpers.StripAnsiClosed(a0, r0);
  }

  /** The headline's frame around pieces that strip alike strips alike. */
  lemma HeadlineFrame(title: string, title0: string, tool: string, command: string, command0: string, detail: string, detail0: string)
    requires Helpers.Closed(title) && Helpers.Closed(title0) && Helpers.StripAnsi(title) == Helpers.StripAnsi(title0)
    requires Helpers.Closed(tool)
    requires Helpers.Closed(command) && Helpers.Closed(command0) && Helpers.StripAnsi(command) == Helpers.StripAnsi(command0)
    requires Helpers.Closed(detail) && Helpers.Closed(detail0) && Helpers.StripAnsi(detail) == Helpers.StripAnsi(detail0)
    ensures Helpers.StripAnsi(title + (" - " + (tool + (" [" + (command + ("] (" + (detail + ")"))))))) ==
      Helpers.StripAnsi(title0 + (" - " + (tool + (" [" + (command0 + ("] (" + (detail0 + ")")))))))
  {
    Helpers.ClosedPlain(" - ");
    Helpers.ClosedPlain(" [");
    Helpers.ClosedPlain("] (");
    StripBefore(detail, detail0, ")", ")");
    StripBefore("] (", "] (", detail + ")", detail0 + ")");
    StripBefore(command, command0, "] (" + (detail + ")"), "] (" + (detail0 + ")"));
    var r3, r03 := command + ("] (" + (detail + ")")), command0 + ("] (" + (detail0 + ")"));
    StripBefore(" [", " [", r3, r03);
    StripBefore(tool, tool, " [" + r3, " [" + r03);
    StripBefore(" - ", " - ", tool + (" [" + r3), tool + (" [" + r03));
    StripBefore(title, title0, " - " + (tool + (" [" + r3)), " - " + (tool + (" [" + r03)));
  }

  /**
   * Colour changes nothing visible in the headline: whatever the level, it strips to the same
   * text as the headline printed without colour.
   */
  lemma HeadlineStripped(failure: FailureDetails, level: nat)
    requires Helpers.Closed(failure.title) && Helpers.Closed(failure.tool) && Helpers.Closed(failure.command)
    requires failure.summary.Some? ==> Helpers.Closed(failure.summary.value)
    ensures Helpers.StripAnsi(Headline(failure, level)) == Helpers.StripAnsi(Headline(failure, 0))
  {
    var title, command := Paint(BlueUnderline, failure.title, level), Paint(Yellow, failure.command, level);
    var detail, detail0 := Paint(Red, Detail(failure, level), level), Detail(failure, 0);
    assert Headline(failure, level) == title + (" - " + (failure.tool + (" [" + (command + ("] (" + (detail + ")"))))));
    assert Headline(failure, 0) == failure.title + (" - " + (failure.tool + (" [" + (failure.command + ("] (" + (detail0 + ")"))))));
    assert Helpers.Closed(title) && Helpers.StripAnsi(title) == Helpers.StripAnsi(failure.title) by {
      PaintClosed(BlueUnderline, failure.title, level);
    }
    assert Helpers.Closed(command) && Helpers.StripAnsi(command) == Helpers.StripAnsi(failure.command) by {
      PaintClosed(Yellow, failure.command, level);
    }
    assert Helpers.Closed(detail) && Helpers.Closed(detail0) && Helpers.StripAnsi(detail) == Helpers.StripAnsi(detail0) by {
      DetailStripped(failure, level);
      DetailStripped(failure, 0);
      PaintClosed(Red, Detail(failure, level), level);
    }
    HeadlineFrame(title, failure.title, failure.tool, command, failure.command, detail, detail0);
  }

  /**
   * The counts are listed whenever they are present, zero included: errors, then warnings,
   * joined by ", "; with neither, the detail is the summary (even an empty one), else "See output".
   */
  lemma DetailCases(failure: FailureDetails, level: nat)
    ensures failure.errors.None? && failure.warnings.None? ==>
      Detail(failure, level) == (if failure.summary.Some? then failure.summary.value else "See output")
    ensures failure.errors.Some? && failure.warnings.None? ==>
      Detail(failure, level) == Paint(Red, SuiteRunner.ErrorPart(failure.errors.value), level)
    ensures failure.errors.None? && failure.warnings.Some? ==>
      Detail(failure, level) == Paint(Yellow, SuiteRunner.WarningPart(failure.warnings.value), level)
    ensures failure.errors.Some? && failure.warnings.Some? ==>
      Detail(failure, level) == Paint(Red, SuiteRunner.ErrorPart(failure.errors.value), level) + ", " +
        Paint(Yellow, SuiteRunner.WarningPart(failure.warnings.value), level)
  {
    var parts := BreakdownParts(failure.errors, failure.warnings, level);
    if failure.errors.Some? && failure.warnings.Some? {
      var e := Paint(Red, SuiteRunner.ErrorPart(failure.errors.value), level);
      var w := Paint(Yellow, SuiteRunner.WarningPart(failure.warnings.value), level);
      assert parts == [e, w];
      assert parts[1..] == [w];
      assert Join(parts, ", ") == e + ", " + w;
    }
  }

  /** Zero errors are still reported: "0 errors". */
  lemma ZeroErrorsListed(failure: FailureDetails)
    requires failure.errors == Some(0) && failure.warnings.None?
    ensures Detail(failure, 0) == "0 errors"
  {
    DetailCases(failure, 0);
  }

  /** Two errors and one warning read "2 errors, 1 warning". */
  lemma DetailExample(failure: FailureDetails)
    requires failure.errors == Some(2) && failure.warnings == Some(1)
    ensures Detail(failure, 0) == "2 errors, 1 warning"
  {
    assert SuiteRunner.ErrorPart(2) == "2 errors" by {
      assert NatToString(2) == "2";
    }
    assert SuiteRunner.WarningPart(1) == "1 warning" by {
      assert NatToString(1) == "1";
    }
    DetailCases(failure, 0);
  }

  /** Without colour the headline reads "label - tool [command] (detail)". */
  lemma HeadlineText(failure: FailureDetails, detail: string)
    requires Detail(failure, 0) == detail
    ensures Headline(failure, 0) == failure.title + (" - " + (failure.tool + (" [" + (failure.command + ("] (" + (detail + ")"))))))
  {
  }

  /** The body is the raw output, else the parsed output, else "(no output)"; it is never empty. */
  lemma BodyCases(failure: FailureDetails)
    ensures failure.rawOutput != [] ==> Body(failure) == failure.rawOutput
    ensures failure.rawOutput == [] && failure.output != [] ==> Body(failure) == failure.output
    ensures failure.rawOutput == [] && failure.output == [] ==> Body(failure) == "(no output)"
    ensures Body(failure) != []
  {
  }

  lemma {:induction false} EachEntryLength<T>(items: seq<T>, entry: T -> seq<string>)
    requires forall x :: |entry(x)| == 2
    ensures |EachEntry(items, entry)| == 2 * |items|
  {
    if items != [] {
      EachEntryLength(items[..|items| - 1], entry);
    }
  }

  /** Item `k`'s two lines sit at `2 k` and `2 k + 1` when every item logs two. */
  lemma {:induction false} EachEntryAt<T>(items: seq<T>, entry: T -> seq<string>, k: nat)
    requires forall x :: |entry(x)| == 2
    requires k < |items|
    ensures |EachEntry(items, entry)| == 2 * |items|
    ensures EachEntry(items, entry)[2 * k] == entry(items[k])[0]
    ensures EachEntry(items, entry)[2 * k + 1] == entry(items[k])[1]
  {
    var n := |items| - 1;
    var init := items[..n];
    assert EachEntry(items, entry) == EachEntry(init, entry) + entry(items[n]);
    EachEntryLength(items, entry);
    EachEntryLength(init, entry);
    if k < n {
      EachEntryAt(init, entry, k);
      assert init[k] == items[k];
    }
  }

  lemma EntriesAt(failures: seq<FailureDetails>, level: nat, k: nat)
    requires k < |failures|
    ensures Entries(failures, level)[2 * k] == "\n" + Headline(failures[k], level)
    ensures Entries(failures, level)[2 * k + 1] == Body(failures[k])
  {
    EachEntryAt(failures, f => Entry(f, level), k);
  }

  /** Past "Details:", the log holds the entries one place further on, then the closing empty line. */
  lemma LogAt(failures: seq<FailureDetails>, options: RunOptions, level: nat, k: nat)
    requires !options.isSilentMode && k < |failures|
    ensures |FailureLog(failures, options, level)| == 2 * |failures| + 2
    ensures FailureLog(failures, options, level)[0] == "Details:"
    ensures FailureLog(failures, options, level)[2 * |failures| + 1] == ""
    ensures FailureLog(failures, options, level)[2 * k + 1] == Entries(failures, level)[2 * k]
    ensures FailureLog(failures, options, level)[2 * k + 2] == Entries(failures, level)[2 * k + 1]
  {
    FramedAt(Entries(failures, level), k);
  }

  lemma FramedAt(entries: seq<string>, k: nat)
    requires 2 * k + 1 < |entries|
    ensures var framed := ["Details:"] + entries + [""];
      |framed| == |entries| + 2 && framed[0] == "Details:" && framed[|entries| + 1] == "" &&
      framed[2 * k + 1] == entries[2 * k] && framed[2 * k + 2] == entries[2 * k + 1]
  {
  }

  /**
   * Nothing is logged without failures; in silent mode only the hint; otherwise "Details:",
   * then for each failure its headline after a line break and its body, then an empty line.
   */
  lemma FailureLogCases(failures: seq<FailureDetails>, options: RunOptions, level: nat)
    ensures failures == [] ==> FailureLog(failures, options, level) == []
    ensures failures != [] && options.isSilentMode ==> FailureLog(failures, options, level) == [SilentHint]
    ensures failures != [] && !options.isSilentMode ==>
      var logs := FailureLog(failures, options, level);
      |logs| == 2 * |failures| + 2 && logs[0] == "Details:" && logs[|logs| - 1] == "" &&
      forall k :: 0 <= k < |failures| ==>
        logs[2 * k + 1] == "\n" + Headline(failures[k], level) && logs[2 * k + 2] == Body(failures[k])
  {
    if failures != [] && !options.isSilentMode {
      var logs := FailureLog(failures, options, level);
      forall k | 0 <= k < |failures|
        ensures logs[2 * k + 1] == "\n" + Headline(failures[k], level)
        ensures logs[2 * k + 2] == Body(failures[k])
      {
        LogAt(failures, options, level, k);
        EntriesAt(failures, level, k);
      }
    }
  }

  /** The body of failure `k` is the log's element 2k + 2. */
  lemma BodyAt(failures: seq<FailureDetails>, options: RunOptions, level: nat, k: nat)
    requires !options.isSilentMode && k < |failures|
    ensures |FailureLog(failures, options, level)| == 2 * |failures| + 2
    ensures FailureLog(failures, options, level)[2 * k + 2] == Body(failures[k])
  {
    LogAt(failures, options, level, k);
    EntriesAt(failures, level, k);
  }

  /** The test's two failures without raw output: the third call logs the parsed output, the fifth "(no output)". */
  lemma FallbackExample(a: FailureDetails, b: FailureDetails, options: RunOptions, level: nat)
    requires !options.isSilentMode
    requires a.rawOutput == [] && a.output != [] && b.rawOutput == [] && b.output == []
    ensures FailureLog([a, b], options, level)[2] == a.output
    ensures FailureLog([a, b], options, level)[4] == "(no output)"
  {
    var failures := [a, b];
    BodyAt(failures, options, level, 0);
    BodyAt(failures, options, level, 1);
    assert failures[0] == a && failures[1] == b;
  }
}

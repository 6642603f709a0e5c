/** The markdownlint output parser (src/config/parsers/markdownlint/parser.ts). */
module MarkdownLintParser {
  import opened Wrappers
  import opened Text
  import opened Scan
  import opened Failures

  /** `/Summary:\s*(\d+)\s*error\(s\)/i` tried at the start of `t`: the count it captures. */
  function SummaryAt(t: string): Option<nat>
  {
    var a :- LitI(t, "Summary:");
    CountAt(Ws0(a))
  }

  /** The `(\d+)\s*error\(s\)` part. */
  function CountAt(t: string): Option<nat>
  {
    var n :- Digits1(t);
    var b :- LitI(Ws0(n.rest), "error(s)");
    Some(n.Value())
  }

  /** The count of the leftmost summary in the output. */
  function FindSummary(output: string): Option<nat>
  {
    Search(output, SummaryAt)
  }

  function ParseMarkdownLint(output: string): Option<ParsedFailure>
  {
    match FindSummary(output)
    case None => None
    case Some(n) =>
      if n == 0 then None
      else Some(ParsedFailure("Failed - " + NatToString(n) + " " + Noun(n, "error"), Some(n), None))
  }

  /** The summary line markdownlint prints for n errors. */
  function SummaryText(n: nat): string
  {
    "Summary: " + NatToString(n) + " error(s)"
  }

  /**
   * A failure is reported exactly when there is a summary with a positive count N; it then has
   * N errors, no warnings, and the message "Failed - N error" or "Failed - N errors".
   */
  lemma MarkdownLintVerdict(output: string)
    ensures ParseMarkdownLint(output).Some? <==> FindSummary(output).Some? && FindSummary(output).value > 0
    ensures ParseMarkdownLint(output).Some? ==>
      var n := FindSummary(output).value;
      var f := ParseMarkdownLint(output).value;
      f.errors == Some(n) && f.warnings.None? &&
      f.message == "Failed - " + NatToString(n) + " " + Noun(n, "error")
  {
  }

  /** The summary line the tool prints matches at its start and yields its count. */
  lemma {:induction false} SummaryAtText(n: nat, rest: string)
    ensures SummaryAt(SummaryText(n) + rest) == Some(n)
  {
    NatToStringDigits(n);
    var t1 := NatToString(n) + (" " + ("error(s)" + rest));
    assert SummaryText(n) + rest == "Summary:" + (" " + t1);
    LitIOf("Summary:", " " + t1);
    Ws0Of(" ", t1);
    CountAtText(n, rest);
  }

  lemma {:induction false} CountAtText(n: nat, rest: string)
    ensures CountAt(NatToString(n) + (" " + ("error(s)" + rest))) == Some(n)
  {
    NumberRoundTrip(n, " " + ("error(s)" + rest));
    Ws0Of(" ", "error(s)" + rest);
    LitIOf("error(s)", rest);
  }

  /** The summary line the tool prints is read back: N > 0 errors fail with that count, 0 passes. */
  lemma MarkdownLintRoundTrip(n: nat, rest: string)
    ensures FindSummary(SummaryText(n) + rest) == Some(n)
    ensures ParseMarkdownLint(SummaryText(n) + rest) ==
      if n == 0 then None else Some(ParsedFailure("Failed - " + NatToString(n) + " " + Noun(n, "error"), Some(n), None))
  {
    SummaryAtText(n, rest);
    SearchAtStart(SummaryText(n) + rest, SummaryAt);
  }

  /** Empty output has no summary and reports nothing. */
  lemma MarkdownLintEmpty()
    ensures ParseMarkdownLint("") == None
  {
    SearchSpec("", SummaryAt);
    assert forall k :: 0 <= k <= 0 ==> ""[k..] == "";
  }
}

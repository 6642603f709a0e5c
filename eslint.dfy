/** The ESLint output parser (src/config/parsers/eslint/parser.ts). */
module EslintParser {
  import opened Wrappers
  import opened Text
  import opened Scan
  import opened Failures

  /** The error and warning digits of a summary, as captured; a missing warning count reads "0". */
  datatype Summary = Summary(errors: string, warnings: string)
  {
    function ErrorCount(): nat
    {
      NumberOf(errors)
    }

    function WarningCount(): nat
    {
      NumberOf(warnings)
    }
  }

  /** `(\d+)\s+problems?\s+\(`, case-insensitively: the rest after the parenthesis. */
  function ProblemsAt(t: string): Option<string>
  {
    var p :- CountWord(t, "problem");
    OpenParen(p.rest)
  }

  /** `\s+\(` */
  function OpenParen(t: string): Option<string>
  {
    var a :- Ws1(t);
    Lit(a, "(")
  }

  /** `,\s+(\d+)\s+warnings?`: the warning digits. */
  function WarningsAt(t: string): Option<string>
  {
    var a :- Lit(t, ",");
    var b :- Ws1(a);
    var w :- CountWord(b, "warning");
    Some(w.digits)
  }

  /** `/(\d+)\s+problems?\s+\((\d+)\s+errors?(?:,\s+(\d+)\s+warnings?)?/i` at the start of `t`. */
  function SummaryAt(t: string): Option<Summary>
  {
    var a :- ProblemsAt(t);
    var e :- CountWord(a, "error");
    Some(Summary(e.digits, WarningsAt(e.rest).GetOr("0")))
  }

  /** The message parts for a positive error count: the errors, then the warnings when there are any. */
  function Parts(s: Summary): seq<string>
  {
    if s.WarningCount() > 0 then [s.errors + " errors", s.warnings + " warnings"] else [s.errors + " errors"]
  }

  function ParseEslint(output: string): (r: Option<ParsedFailure>)
    ensures r.Some? ==> (r.value.errors.Some? && r.value.errors.value > 0) || (r.value.errors.None? && r.value.warnings.Some?)
    ensures r.Some? && r.value.warnings.Some? ==> r.value.warnings.value > 0
  {
    match Search(output, SummaryAt)
    case None => None
    case Some(s) => Verdict(s)
  }

  /** The verdict for the leftmost summary. */
  function Verdict(s: Summary): (r: Option<ParsedFailure>)
    ensures r.Some? ==> (r.value.errors.Some? && r.value.errors.value > 0) || (r.value.errors.None? && r.value.warnings.Some?)
    ensures r.Some? && r.value.warnings.Some? ==> r.value.warnings.value > 0
  {
    var errors, warnings := s.ErrorCount(), s.WarningCount();
    if errors == 0 && warnings == 0 then None
    else if errors == 0 && warnings > 0 then
      Some(ParsedFailure("Failed - " + NatToString(warnings) + " " + Noun(warnings, "warning"), None, Some(warnings)))
    else
      Some(ParsedFailure("Failed - " + Join(Parts(s), " and "), Some(errors), if warnings > 0 then Some(warnings) else None))
  }

  /** No summary reports nothing; otherwise the leftmost summary decides, and reports nothing iff both counts are 0. */
  lemma EslintClean(output: string)
    ensures Search(output, SummaryAt).None? ==> ParseEslint(output).None?
    ensures Search(output, SummaryAt).Some? ==> ParseEslint(output) == Verdict(Search(output, SummaryAt).value)
    ensures forall s: Summary :: Verdict(s).None? <==> s.ErrorCount() == 0 && s.WarningCount() == 0
  {
  }

  /** Warnings alone give "Failed - W warning(s)" with the warnings and no error field. */
  lemma EslintWarningsOnly(s: Summary)
    requires s.ErrorCount() == 0 && s.WarningCount() > 0
    ensures Verdict(s) == Some(ParsedFailure(
      "Failed - " + NatToString(s.WarningCount()) + " " + Noun(s.WarningCount(), "warning"), None, Some(s.WarningCount())))
  {
  }

  /**
   * Errors give their count and the warnings only when positive; the message joins the
   * captured digits with the plural nouns, "E errors" and " and W warnings".
   */
  lemma EslintErrors(s: Summary)
    requires s.ErrorCount() > 0
    ensures Verdict(s).Some?
    ensures Verdict(s).value.errors == Some(s.ErrorCount())
    ensures Verdict(s).value.warnings == if s.WarningCount() > 0 then Some(s.WarningCount()) else None
    ensures Verdict(s).value.message ==
      "Failed - " + s.errors + " errors" + (if s.WarningCount() > 0 then " and " + s.warnings + " warnings" else "")
  {
    if s.WarningCount() > 0 {
      JoinTwo(s.errors + " errors", s.warnings + " warnings", " and ");
    }
  }

  lemma JoinTwo(a: string, b: string, sep: string)
    ensures Join([a, b], sep) == a + sep + b
  {
    assert [a, b][1..] == [b];
  }

  /** The summary ESLint prints: "P problem(s) (E error(s), W warning(s))" from `rest` on. */
  function SummaryText(p: nat, e: nat, w: nat, rest: string): string
  {
    Counted(p, "problem") + (" " + ("(" + (Counted(e, "error") + WarningsText(w, rest))))
  }

  function WarningsText(w: nat, rest: string): string
  {
    "," + (" " + (Counted(w, "warning") + rest))
  }

  lemma WarningsAtText(w: nat, rest: string)
    requires NotS(rest)
    ensures WarningsAt(WarningsText(w, rest)) == Some(NatToString(w))
  {
    var c := Counted(w, "warning") + rest;
    assert Lit(WarningsText(w, rest), ",") == Some(" " + c) by {
      LitOf(",", " " + c);
    }
    assert Ws1(" " + c) == Some(c) by {
      NatToStringDigits(w);
      assert c[0] == NatToString(w)[0];
      Ws1Of(" ", c);
    }
    CountWordOf(w, "warning", rest);
  }

  lemma OpenParenText(t: string)
    ensures OpenParen(" " + ("(" + t)) == Some(t)
  {
    Ws1Of(" ", "(" + t);
    LitOf("(", t);
  }

  lemma ProblemsAtText(p: nat, t: string)
    ensures ProblemsAt(Counted(p, "problem") + (" " + ("(" + t))) == Some(t)
  {
    var u := " " + ("(" + t);
    CountWordOf(p, "problem", u);
    OpenParenText(t);
  }

  lemma SummaryAtText(p: nat, e: nat, w: nat, rest: string)
    requires NotS(rest)
    ensures SummaryAt(SummaryText(p, e, w, rest)) == Some(Summary(NatToString(e), NatToString(w)))
  {
    var t := Counted(e, "error") + WarningsText(w, rest);
    ProblemsAtText(p, t);
    assert CountWord(t, "error") == Some(Num(NatToString(e), WarningsText(w, rest))) by {
      CountWordOf(e, "error", WarningsText(w, rest));
    }
    WarningsAtText(w, rest);
  }

  /** The printed summary is read back with the counts ESLint printed. */
  lemma EslintRoundTrip(p: nat, e: nat, w: nat, rest: string)
    requires NotS(rest)
    ensures Search(SummaryText(p, e, w, rest), SummaryAt) == Some(Summary(NatToString(e), NatToString(w)))
    ensures Summary(NatToString(e), NatToString(w)).ErrorCount() == e
    ensures Summary(NatToString(e), NatToString(w)).WarningCount() == w
  {
    SummaryAtText(p, e, w, rest);
    SearchAtStart(SummaryText(p, e, w, rest), SummaryAt);
    NumberOfNatToString(e);
    NumberOfNatToString(w);
  }

  /** Without a warnings part the warning count is "0". */
  lemma {:induction false} EslintWarningsDefault(p: nat, e: nat, rest: string)
    requires rest == [] || (rest[0] != ',' && Lower(rest[0]) != 's')
    ensures SummaryAt(Counted(p, "problem") + (" " + ("(" + (Counted(e, "error") + rest)))) == Some(Summary(NatToString(e), "0"))
  {
    var t := Counted(e, "error") + rest;
    ProblemsAtText(p, t);
    assert CountWord(t, "error") == Some(Num(NatToString(e), rest)) by {
      CountWordOf(e, "error", rest);
    }
    assert WarningsAt(rest).None?;
  }

  /** One error is still "1 errors": both nouns of the error message are always plural. */
  lemma EslintOneError()
    ensures Verdict(Summary("1", "1")) == Some(ParsedFailure("Failed - 1 errors and 1 warnings", Some(1), Some(1)))
  {
    assert NumberOf("1") == 1 by {
      assert "1"[..0] == [];
    }
    EslintErrors(Summary("1", "1"));
    OneErrorMessage();
  }

  lemma OneErrorMessage()
    ensures "Failed - " + "1" + " errors" + (" and " + "1" + " warnings") == "Failed - 1 errors and 1 warnings"
  {
    var head := "Failed - " + "1" + " errors";
    assert head == "Failed - 1 errors";
    var tail := " and " + "1" + " warnings";
    assert tail == " and 1 warnings";
  }
}

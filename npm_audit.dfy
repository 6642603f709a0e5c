/** The `npm audit` output parser (src/task/parsers/npm-audit/parser.ts). */
module NpmAuditParser {
  import opened Wrappers
  import opened Text
  import opened Scan
  import opened Failures

  /** The vulnerability count of a summary, and the text of its parenthesised breakdown when present. */
  datatype Summary = Summary(total: nat, breakdown: Option<string>)

  /** `found\s+`, case-insensitively. */
  function FoundPrefix(t: string): Option<string>
  {
    var a :- LitI(t, "found");
    Ws1(a)
  }

  /** `vulnerabilit(?:y|ies)`, case-insensitively; the first alternative is tried first. */
  function VulnWord(t: string): Option<string>
  {
    var a :- LitI(t, "vulnerabilit");
    match LitI(a, "y")
    case Some(b) => Some(b)
    case None => LitI(a, "ies")
  }

  /** `\s+\(([^)]+)\)`: the non-empty text between the `(` and the first `)` after it. */
  function BreakdownAt(t: string): (r: Option<string>)
    ensures r.Some? ==> r.value != [] && ')' !in r.value
  {
    var a :- Ws1(t);
    var b :- Lit(a, "(");
    var k := IndexOf(b, ')');
    if k == 0 || k == |b| then None
    else
      assert forall j :: 0 <= j < k ==> b[..k][j] == b[j];
      Some(b[..k])
  }

  /** `(\d+)\s+vulnerabilit(?:y|ies)(?:\s+\(([^)]+)\))?` */
  function CoreAt(t: string): Option<Summary>
  {
    var n :- Digits1(t);
    var a :- Ws1(n.rest);
    var b :- VulnWord(a);
    Some(Summary(n.Value(), BreakdownAt(b)))
  }

  /**
   * `/(?:found\s+)?(\d+)\s+vulnerabilit(?:y|ies)(?:\s+\(([^)]+)\))?/gi` at the start of `t`:
   * the optional prefix is tried first, and the match without it when the rest then fails.
   */
  function SummaryAt(t: string): Option<Summary>
  {
    match FoundPrefix(t)
    case Some(a) => if CoreAt(a).Some? then CoreAt(a) else CoreAt(t)
    case None => CoreAt(t)
  }

  /** `/0\s+vulnerabilities?/i` at the start of `t`. */
  function ZeroAt(t: string): Option<string>
  {
    var a :- Lit(t, "0");
    var b :- Ws1(a);
    LitI(b, "vulnerabilitie")
  }

  /** `/npm err!/i` at the start of `t`. */
  function NpmErrAt(t: string): Option<string>
  {
    LitI(t, "npm err!")
  }

  /** `/vulnerabilit/i` at the start of `t`. */
  function VulnAt(t: string): Option<string>
  {
    LitI(t, "vulnerabilit")
  }

  /**
   * Splitting at each comma and the `\s*` after it: the pieces between commas, each but the
   * first without the whitespace that follows its comma.
   */
  function SplitCommas(s: string): (r: seq<string>)
    ensures |r| > 0
  {
    var parts := SplitOn(s, ',');
    [parts[0]] + TrimStartAll(parts[1..])
  }

  function TrimStartAll(parts: seq<string>): (r: seq<string>)
    ensures |r| == |parts|
  {
    if parts == [] then [] else [TrimStart(parts[0])] + TrimStartAll(parts[1..])
  }

  /** The breakdown entries of the parenthesised text. */
  function Breakdown(b: string): seq<string>
  {
    TrimmedNonEmpty(SplitCommas(b))
  }

  /** " (p1, p2, …)" for a non-empty breakdown, and "" otherwise. */
  function Detail(parts: seq<string>): string
  {
    if |parts| > 0 then " (" + Join(parts, ", ") + ")" else ""
  }

  function VulnNoun(n: nat): string
  {
    if n == 1 then "vulnerability" else "vulnerabilities"
  }

  /** What `summary[2].split` throws when the breakdown group did not participate in the match. */
  const MissingBreakdown := "TypeError: Cannot read properties of undefined (reading 'split')"

  /** The generic verdict when the output mentions npm errors or vulnerabilities without a count. */
  const Detected := ParsedFailure("Failed - vulnerabilities detected", Some(1), None)

  /** `parseNpmAudit`: `Err` stands for the exception thrown on a count without a breakdown. */
  function ParseNpmAudit(output: string): Result<Option<ParsedFailure>>
  {
    match Search(output, SummaryAt)
    case Some(s) =>
      if s.total == 0 then Ok(None)
      else if s.breakdown.None? then Err(MissingBreakdown)
      else Ok(Some(Reported(s.total, s.breakdown.value)))
    case None =>
      if Search(output, ZeroAt).Some? then Ok(None)
      else if Search(output, NpmErrAt).Some? || Search(output, VulnAt).Some? then Ok(Some(Detected))
      else Ok(None)
  }

  /** The failure for a positive count and its breakdown text. */
  function Reported(total: nat, b: string): ParsedFailure
  {
    ParsedFailure("Failed - " + NatToString(total) + " " + VulnNoun(total) + Detail(Breakdown(b)), Some(total), None)
  }

  /**
   * Only the leftmost summary counts: a zero count reports nothing, a positive one without a
   * breakdown throws, and one with a breakdown fails with the count as its errors.
   */
  lemma NpmAuditSummary(output: string, s: Summary)
    requires Search(output, SummaryAt) == Some(s)
    ensures s.total == 0 ==> ParseNpmAudit(output) == Ok(None)
    ensures s.total > 0 && s.breakdown.None? ==> ParseNpmAudit(output) == Err(MissingBreakdown)
    ensures s.total > 0 && s.breakdown.Some? ==>
      ParseNpmAudit(output) == Ok(Some(Reported(s.total, s.breakdown.value))) &&
      Reported(s.total, s.breakdown.value).errors == Some(s.total)
  {
  }

  /**
   * Without a summary the result is the generic failure exactly when "npm err!" or
   * "vulnerabilit" occurs and no "0 vulnerabilities" does; it is never an exception.
   */
  lemma NpmAuditFallback(output: string)
    requires Search(output, SummaryAt).None?
    ensures ParseNpmAudit(output).Ok?
    ensures ParseNpmAudit(output).value == Some(Detected) <==>
      Search(output, ZeroAt).None? && (Search(output, NpmErrAt).Some? || Search(output, VulnAt).Some?)
    ensures ParseNpmAudit(output).value != Some(Detected) ==> ParseNpmAudit(output).value.None?
  {
  }

  /** The breakdown entries are non-empty and carry no outer whitespace, and there are no more of them than pieces. */
  lemma BreakdownEntries(b: string)
    ensures var parts := Breakdown(b);
      |parts| <= |SplitOn(b, ',')| &&
      forall k :: 0 <= k < |parts| ==> parts[k] != [] && Trim(parts[k]) == parts[k]
  {
    TrimmedNonEmptyTrimmed(SplitCommas(b));
  }

  /** Stripping the whitespace after a comma changes no trimmed piece, so `\s*` in the separator only saves work. */
  lemma {:induction false} TrimAfterTrimStart(s: string)
    ensures Trim(TrimStart(s)) == Trim(s)
  {
    var t := TrimStart(s);
    assert TrimStart(t) == t;
  }

  lemma {:induction false} TrimmedNonEmptyTrimStart(parts: seq<string>)
    ensures TrimmedNonEmpty(TrimStartAll(parts)) == TrimmedNonEmpty(parts)
  {
    if parts != [] {
      TrimAfterTrimStart(parts[0]);
      TrimmedNonEmptyTrimStart(parts[1..]);
    }
  }

  /** The breakdown is the trimmed non-empty pieces between commas: the `\s*` of the separator changes nothing. */
  lemma BreakdownSplitOn(b: string)
    ensures Breakdown(b) == TrimmedNonEmpty(SplitOn(b, ','))
  {
    var parts := SplitOn(b, ',');
    TrimmedNonEmptyTrimStart(parts[1..]);
    assert parts == [parts[0]] + parts[1..];
    TrimmedNonEmptyConcat([parts[0]], parts[1..]);
    TrimmedNonEmptyConcat([parts[0]], TrimStartAll(parts[1..]));
  }

  /** The summary line npm prints, with its breakdown. */
  function SummaryText(n: nat, b: string, rest: string): string
  {
    "found" + (" " + (NatToString(n) + (" " + ("vulnerabilit" + (VulnTail(n) + BreakdownText(b, rest))))))
  }

  function VulnTail(n: nat): string
  {
    if n == 1 then "y" else "ies"
  }

  function BreakdownText(b: string, rest: string): string
  {
    " " + ("(" + (b + (")" + rest)))
  }

  lemma BreakdownAtText(b: string, rest: string)
    requires b != [] && ')' !in b
    ensures BreakdownAt(BreakdownText(b, rest)) == Some(b)
  {
    var u := "(" + (b + (")" + rest));
    assert Ws1(BreakdownText(b, rest)) == Some(u) by {
      Ws1Of(" ", u);
    }
    var v := b + (")" + rest);
    assert Lit(u, "(") == Some(v) by {
      LitOf("(", v);
    }
    assert v[|b|] == ')';
    assert IndexOf(v, ')') == |b|;
    assert v[..|b|] == b;
  }

  lemma VulnWordText(n: nat, rest: string)
    ensures VulnWord("vulnerabilit" + (VulnTail(n) + rest)) == Some(rest)
  {
    LitIOf("vulnerabilit", VulnTail(n) + rest);
    if n == 1 {
      LitIOf("y", rest);
    } else {
      LitIOf("ies", rest);
    }
  }

  lemma CoreAtText(n: nat, b: string, rest: string)
    requires b != [] && ')' !in b
    ensures CoreAt(NatToString(n) + (" " + ("vulnerabilit" + (VulnTail(n) + BreakdownText(b, rest))))) == Some(Summary(n, Some(b)))
  {
    var w := "vulnerabilit" + (VulnTail(n) + BreakdownText(b, rest));
    assert Digits1(NatToString(n) + (" " + w)) == Some(Num(NatToString(n), " " + w)) && NumberOf(NatToString(n)) == n by {
      NumberRoundTrip(n, " " + w);
    }
    assert Ws1(" " + w) == Some(w) by {
      Ws1Of(" ", w);
    }
    VulnWordText(n, BreakdownText(b, rest));
    BreakdownAtText(b, rest);
  }

  lemma SummaryAtText(n: nat, b: string, rest: string)
    requires b != [] && ')' !in b
    ensures SummaryAt(SummaryText(n, b, rest)) == Some(Summary(n, Some(b)))
  {
    NatToStringDigits(n);
    var u := NatToString(n) + (" " + ("vulnerabilit" + (VulnTail(n) + BreakdownText(b, rest))));
    assert FoundPrefix(SummaryText(n, b, rest)) == Some(u) by {
      LitIOf("found", " " + u);
      Ws1Of(" ", u);
    }
    CoreAtText(n, b, rest);
  }

  /**
   * "found N vulnerabilities (b)" is read back whatever follows it, so a later
   * "0 vulnerabilities" line is ignored: N > 0 fails with N errors and the breakdown of b.
   */
  lemma NpmAuditRoundTrip(n: nat, b: string, rest: string)
    requires b != [] && ')' !in b
    ensures ParseNpmAudit(SummaryText(n, b, rest)) == Ok(if n == 0 then None else Some(Reported(n, b)))
  {
    SummaryAtText(n, b, rest);
    SearchAtStart(SummaryText(n, b, rest), SummaryAt);
  }

  /** The summary as npm prints it without the "found" prefix. */
  function BareSummaryText(n: nat, b: string, rest: string): string
  {
    NatToString(n) + (" " + ("vulnerabilit" + (VulnTail(n) + BreakdownText(b, rest))))
  }

  /** "N vulnerabilities (b)" is read back whatever follows it. */
  lemma NpmAuditBareRoundTrip(n: nat, b: string, rest: string)
    requires b != [] && ')' !in b
    ensures ParseNpmAudit(BareSummaryText(n, b, rest)) == Ok(if n == 0 then None else Some(Reported(n, b)))
  {
    var t := BareSummaryText(n, b, rest);
    assert SummaryAt(t) == Some(Summary(n, Some(b))) by {
      NatToStringDigits(n);
      LitIFirst(t, "found");
      CoreAtText(n, b, rest);
    }
    SearchAtStart(t, SummaryAt);
  }

  lemma CoreAtNoBreakdown(n: nat, rest: string)
    requires rest == [] || !IsSpace(rest[0])
    ensures CoreAt(NatToString(n) + (" " + ("vulnerabilit" + (VulnTail(n) + rest)))) == Some(Summary(n, None))
  {
    var w := "vulnerabilit" + (VulnTail(n) + rest);
    assert Digits1(NatToString(n) + (" " + w)) == Some(Num(NatToString(n), " " + w)) && NumberOf(NatToString(n)) == n by {
      NumberRoundTrip(n, " " + w);
    }
    assert Ws1(" " + w) == Some(w) by {
      Ws1Of(" ", w);
    }
    VulnWordText(n, rest);
    assert BreakdownAt(rest).None?;
  }

  /**
   * "N vulnerabilities" with N > 0 and no parenthesised breakdown after it makes `split` run
   * on the missing group, so the parser throws.
   */
  lemma NpmAuditNoBreakdown(n: nat, rest: string)
    requires n > 0 && (rest == [] || !IsSpace(rest[0]))
    ensures ParseNpmAudit(NatToString(n) + (" " + ("vulnerabilit" + (VulnTail(n) + rest)))) == Err(MissingBreakdown)
  {
    var t := NatToString(n) + (" " + ("vulnerabilit" + (VulnTail(n) + rest)));
    assert SummaryAt(t) == Some(Summary(n, None)) by {
      NatToStringDigits(n);
      LitIFirst(t, "found");
      CoreAtNoBreakdown(n, rest);
    }
    SearchAtStart(t, SummaryAt);
  }

  /** A breakdown of two entries separated by a comma and a blank is listed as those two entries. */
  lemma TwoEntryBreakdown(p: string, q: string)
    requires p != [] && ',' !in p && !IsSpace(p[0]) && !IsSpace(p[|p| - 1])
    requires q != [] && ',' !in q && !IsSpace(q[0]) && !IsSpace(q[|q| - 1])
    ensures Breakdown(p + (", " + q)) == [p, q]
    ensures Detail(Breakdown(p + (", " + q))) == " (" + p + ", " + q + ")"
  {
    TwoEntryCommas(p, q);
    TrimUnchanged(p);
    TrimUnchanged(q);
    assert NonEmptyImages([q], Trim) == [q] by {
      assert [q][1..] == [];
    }
    assert NonEmptyImages([p, q], Trim) == [p] + NonEmptyImages([q], Trim) by {
      assert [p, q][1..] == [q];
    }
    assert Join([p, q], ", ") == p + ", " + q;
  }

  /** Splitting "p, q" at the comma and dropping leading blanks gives p and q. */
  lemma TwoEntryCommas(p: string, q: string)
    requires p != [] && ',' !in p
    requires q != [] && ',' !in q && !IsSpace(q[0])
    ensures SplitCommas(p + (", " + q)) == [p, q]
  {
    var s := p + (", " + q);
    assert SplitOn(s, ',') == [p, " " + q] by {
      assert IndexOf(s, ',') == |p| by {
        assert s[|p|] == ',';
        assert forall j :: 0 <= j < |p| ==> s[j] == p[j];
      }
      assert s[..|p|] == p && s[|p| + 1..] == " " + q;
      assert SplitOn(" " + q, ',') == [" " + q] by {
        assert ',' !in " " + q;
        assert IndexOf(" " + q, ',') == |" " + q|;
      }
    }
    assert TrimStart(" " + q) == q by {
      assert (" " + q)[1..] == q;
    }
    assert TrimStartAll([" " + q]) == [q];
  }

  /**
   * The example report "13 vulnerabilities (6 moderate, 7 high)" followed by a line
   * "0 vulnerabilities require manual review." fails with 13 errors.
   */
  lemma NpmAuditThirteen(rest: string)
    ensures ParseNpmAudit(BareSummaryText(13, "6 moderate, 7 high", rest)) ==
      Ok(Some(ParsedFailure("Failed - 13 vulnerabilities (6 moderate, 7 high)", Some(13), None)))
  {
    var p, q := "6 moderate", "7 high";
    var b := p + (", " + q);
    assert b == "6 moderate, 7 high";
    NpmAuditBareRoundTrip(13, b, rest);
    ThirteenReported(b, p, q);
  }

  lemma ThirteenReported(b: string, p: string, q: string)
    requires p == "6 moderate" && q == "7 high" && b == p + (", " + q)
    ensures Reported(13, b) == ParsedFailure("Failed - 13 vulnerabilities (6 moderate, 7 high)", Some(13), None)
  {
    var d := Detail(Breakdown(b));
    assert d == " (" + p + ", " + q + ")" by {
      TwoEntryBreakdown(p, q);
    }
    var t := NatToString(13);
    assert t == "13" by {
      assert NatToString(1) == "1";
    }
    ThirteenMessage(t, VulnNoun(13), d, p, q);
  }

  lemma ThirteenMessage(t: string, v: string, d: string, p: string, q: string)
    requires t == "13" && v == "vulnerabilities" && p == "6 moderate" && q == "7 high"
    requires d == " (" + p + ", " + q + ")"
    ensures "Failed - " + t + " " + v + d == "Failed - 13 vulnerabilities (6 moderate, 7 high)"
  {
    assert d == " (6 moderate, 7 high)";
    assert "Failed - " + t + " " + v == "Failed - 13 vulnerabilities";
  }

  /** A summary holds its count, so it can only start at a digit or at "found". */
  lemma SummaryHasDigit(u: string)
    ensures SummaryAt(u).Some? ==> !NoDigits(u)
    ensures ZeroAt(u).Some? ==> !NoDigits(u)
  {
    match FoundPrefix(u)
    case Some(a) =>
      if CoreAt(a).Some? {
        LitISuffix(u, "found");
        var f := LitI(u, "found").value;
        Ws1Suffix(f);
        SuffixTrans(a, f, u);
        assert u[|u| - |a|] == a[0];
      }
    case None =>
  }

  /** Output without a digit has neither a summary nor a zero count. */
  lemma NoSummaryWithoutDigits(output: string)
    requires NoDigits(output)
    ensures Search(output, SummaryAt).None? && Search(output, ZeroAt).None?
  {
    forall k | 0 <= k <= |output|
      ensures SummaryAt(output[k..]).None? && ZeroAt(output[k..]).None?
    {
      var u := output[k..];
      assert forall j :: 0 <= j < |u| ==> u[j] == output[k + j];
      SummaryHasDigit(u);
    }
    SearchSpec(output, SummaryAt);
    SearchSpec(output, ZeroAt);
  }

  /** A match at some position means the search finds something. */
  lemma FoundSomewhere<X>(s: string, m: string -> Option<X>, k: nat)
    requires k <= |s| && m(s[k..]).Some?
    ensures Search(s, m).Some?
  {
    SearchSpec(s, m);
  }

  /** Output without a count that mentions "npm ERR!" fails with the generic verdict. */
  lemma NpmErrMention(before: string, after: string)
    requires NoDigits(before) && NoDigits(after)
    ensures ParseNpmAudit(before + ("npm ERR!" + after)) == Ok(Some(Detected))
  {
    var s := before + ("npm ERR!" + after);
    assert NoDigits(s) by {
      NoDigitsCat("npm ERR!", after);
      NoDigitsCat(before, "npm ERR!" + after);
    }
    NoSummaryWithoutDigits(s);
    assert Search(s, NpmErrAt).Some? by {
      assert s[|before|..] == "npm ERR!" + after;
      LitIOf("npm ERR!", after);
      FoundSomewhere(s, NpmErrAt, |before|);
    }
  }

  /** Output without a count that mentions vulnerabilities fails with the generic verdict. */
  lemma VulnMention(before: string, after: string)
    requires NoDigits(before) && NoDigits(after)
    ensures ParseNpmAudit(before + ("vulnerabilit" + after)) == Ok(Some(Detected))
  {
    var s := before + ("vulnerabilit" + after);
    assert NoDigits(s) by {
      NoDigitsCat("vulnerabilit", after);
      NoDigitsCat(before, "vulnerabilit" + after);
    }
    NoSummaryWithoutDigits(s);
    assert Search(s, VulnAt).Some? by {
      assert s[|before|..] == "vulnerabilit" + after;
      LitIOf("vulnerabilit", after);
      FoundSomewhere(s, VulnAt, |before|);
    }
  }

  /** Output with no digit, no "!" and no "v" reports nothing. */
  lemma NpmAuditQuiet(output: string)
    requires NoDigits(output) && Avoids(output, '!') && Avoids(output, 'v')
    ensures ParseNpmAudit(output) == Ok(None)
  {
    NoSummaryWithoutDigits(output);
    forall k | 0 <= k <= |output|
      ensures NpmErrAt(output[k..]).None? && VulnAt(output[k..]).None?
    {
      var u := output[k..];
      assert forall j :: 0 <= j < |u| ==> u[j] == output[k + j];
      assert "npm ERR!"[7] == '!' && Lower('!') == '!';
      assert "vulnerabilit"[0] == 'v' && Lower('v') == 'v';
      assert |u| >= 8 ==> Lower(u[7]) != '!';
      assert |u| >= 1 ==> Lower(u[0]) != 'v';
    }
    SearchSpec(output, NpmErrAt);
    SearchSpec(output, VulnAt);
  }

  /** "0 vulnerabilitie" not followed by an "s" is no summary. */
  lemma ZeroTextNoSummary(rest: string)
    requires NotS(rest)
    ensures SummaryAt("0" + (" " + ("vulnerabilitie" + rest))).None?
  {
    var c := "vulnerabilitie" + rest;
    var s := "0" + (" " + c);
    assert FoundPrefix(s).None? by {
      LitIFirst(s, "found");
    }
    VulnWordNoS(rest);
    assert Digits1(s) == Some(Num("0", " " + c)) by {
      Digits1Of("0", " " + c);
    }
    assert Ws1(" " + c) == Some(c) by {
      Ws1Of(" ", c);
    }
  }

  /** "vulnerabilitie" not followed by an "s" is not the word the summary needs. */
  lemma VulnWordNoS(rest: string)
    requires NotS(rest)
    ensures VulnWord("vulnerabilitie" + rest).None?
  {
    var c := "vulnerabilitie" + rest;
    assert c == "vulnerabilit" + ("ie" + rest);
    assert LitI(c, "vulnerabilit") == Some("ie" + rest) by {
      LitIOf("vulnerabilit", "ie" + rest);
    }
    assert LitI("ie" + rest, "y").None? by {
      LitIFirst("ie" + rest, "y");
    }
    assert LitI("ie" + rest, "ies").None? by {
      assert |"ie" + rest| > 2 ==> ("ie" + rest)[2] == rest[0];
    }
  }

  /** A summary found in a text that has a digit only at its start begins there. */
  lemma SummaryOnlyAtStart(s: string)
    requires s != [] && NoDigits(s[1..]) && SummaryAt(s).None?
    ensures Search(s, SummaryAt).None?
  {
    forall k | 1 <= k <= |s|
      ensures SummaryAt(s[k..]).None?
    {
      var u := s[k..];
      assert forall j :: 0 <= j < |u| ==> u[j] == s[1..][k - 1 + j];
      SummaryHasDigit(u);
    }
    SearchSpec(s, SummaryAt);
  }

  /**
   * "0 vulnerabilitie" not followed by an "s" is no summary, yet the zero check still reports
   * nothing, although the text mentions vulnerabilities.
   */
  lemma NpmAuditZeroFallback(rest: string)
    requires NotS(rest) && NoDigits(rest)
    ensures ParseNpmAudit("0" + (" " + ("vulnerabilitie" + rest))) == Ok(None)
  {
    ZeroTextZeroAt(rest);
    ZeroTextNoSummaryAnywhere(rest);
    ZeroCheckDecides("0" + (" " + ("vulnerabilitie" + rest)));
  }

  lemma ZeroTextZeroAt(rest: string)
    ensures Search("0" + (" " + ("vulnerabilitie" + rest)), ZeroAt).Some?
  {
    var c := "vulnerabilitie" + rest;
    var s := "0" + (" " + c);
    assert ZeroAt(s).Some? by {
      LitOf("0", " " + c);
      Ws1Of(" ", c);
      LitIOf("vulnerabilitie", rest);
    }
    SearchAtStart(s, ZeroAt);
  }

  lemma ZeroTextNoSummaryAnywhere(rest: string)
    requires NotS(rest) && NoDigits(rest)
    ensures Search("0" + (" " + ("vulnerabilitie" + rest)), SummaryAt).None?
  {
    var s := "0" + (" " + ("vulnerabilitie" + rest));
    ZeroTextNoSummary(rest);
    ZeroTextTail(rest);
    SummaryOnlyAtStart(s);
  }

  /** Past its "0", the zero text holds no digit. */
  lemma ZeroTextTail(rest: string)
    requires NoDigits(rest)
    ensures var s := "0" + (" " + ("vulnerabilitie" + rest)); s != [] && NoDigits(s[1..])
  {
    var c := "vulnerabilitie" + rest;
    NoDigitsCat("vulnerabilitie", rest);
    NoDigitsCat(" ", c);
    assert ("0" + (" " + c))[1..] == " " + c;
  }

  /** Without a summary, a zero count reports nothing. */
  lemma ZeroCheckDecides(output: string)
    requires Search(output, SummaryAt).None? && Search(output, ZeroAt).Some?
    ensures ParseNpmAudit(output) == Ok(None)
  {
  }

  /** A leftmost summary with a zero count reports nothing. */
  lemma ZeroSummaryDecides(output: string)
    requires Search(output, SummaryAt).Some? && Search(output, SummaryAt).value.total == 0
    ensures ParseNpmAudit(output) == Ok(None)
  {
  }

  /** "found 0 vulnerabilities" is a summary with a zero count: it reports nothing, whatever follows. */
  lemma NpmAuditNoneFound(rest: string)
    ensures ParseNpmAudit("found" + (" " + ("0" + (" " + ("vulnerabilit" + ("ies" + rest)))))) == Ok(None)
  {
    var s := "found" + (" " + ("0" + (" " + ("vulnerabilit" + ("ies" + rest)))));
    NoneFoundSummary(rest);
    SearchAtStart(s, SummaryAt);
    ZeroSummaryDecides(s);
  }

  lemma NoneFoundSummary(rest: string)
    ensures SummaryAt("found" + (" " + ("0" + (" " + ("vulnerabilit" + ("ies" + rest)))))) == Some(Summary(0, BreakdownAt(rest)))
  {
    var w := "vulnerabilit" + ("ies" + rest);
    var c := "0" + (" " + w);
    var s := "found" + (" " + c);
    assert FoundPrefix(s) == Some(c) by {
      LitIOf("found", " " + c);
      Ws1Of(" ", c);
    }
    assert NumberOf("0") == 0 by {
      assert "0"[..0] == [];
    }
    assert Digits1(c) == Some(Num("0", " " + w)) by {
      Digits1Of("0", " " + w);
    }
    assert Ws1(" " + w) == Some(w) by {
      Ws1Of(" ", w);
    }
    assert VulnWord(w) == Some(rest) by {
      LitIOf("vulnerabilit", "ies" + rest);
      LitIFirst("ies" + rest, "y");
      LitIOf("ies", rest);
    }
  }
}

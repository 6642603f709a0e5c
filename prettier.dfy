/** The Prettier output parser (src/config/parsers/prettier/parser.ts). */
module PrettierParser {
  import opened Wrappers
  import opened Text
  import opened Scan
  import opened Failures

  /** `\s+w`, case-insensitively: the rest after the word. */
  function Spaced(t: string, w: string): Option<string>
  {
    var a :- Ws1(t);
    LitI(a, w)
  }

  /** `(?:are|is)`: the first alternative is tried first. */
  function AreIs(t: string): Option<string>
  {
    match LitI(t, "are")
    case Some(a) => Some(a)
    case None => LitI(t, "is")
  }

  /** `\s+(?:are|is)\s+not\s+formatted` */
  function NotFormattedAt(t: string): Option<string>
  {
    var a :- Ws1(t);
    var b :- AreIs(a);
    var c :- Spaced(b, "not");
    Spaced(c, "formatted")
  }

  /** `/(\d+)\s+files?\s+(?:are|is)\s+not\s+formatted/i` at the start of `t`. */
  function NotFormattedCount(t: string): Option<nat>
  {
    var n :- CountWord(t, "file");
    var r :- NotFormattedAt(n.rest);
    Some(n.Value())
  }

  /** `\s+with\s+code\s+style\s+issues?` (the optional `s` decides nothing). */
  function StyleIssuesAt(t: string): Option<string>
  {
    var a :- Spaced(t, "with");
    var b :- Spaced(a, "code");
    var c :- Spaced(b, "style");
    Spaced(c, "issue")
  }

  /** `/(\d+)\s+files?\s+with\s+code\s+style\s+issues?/i` at the start of `t`. */
  function StyleIssuesCount(t: string): Option<nat>
  {
    var n :- CountWord(t, "file");
    var r :- StyleIssuesAt(n.rest);
    Some(n.Value())
  }

  /** `/Code style issues found in\s+(\d+)\s+files?/i` at the start of `t`. */
  function FoundInCount(t: string): Option<nat>
  {
    var a :- LitI(t, "Code style issues found in");
    var b :- Ws1(a);
    var n :- CountWord(b, "file");
    Some(n.Value())
  }

  /** `/Code style issues found in the above file/i` at the start of `t`. */
  function AboveFileAt(t: string): Option<string>
  {
    LitI(t, "Code style issues found in the above file")
  }

  /** The summary patterns, in the order they are tried. */
  const Patterns: seq<string -> Option<nat>> := [NotFormattedCount, StyleIssuesCount, FoundInCount]

  /** The loop over the patterns: the count of the first one found anywhere in the output. */
  function FirstPattern(patterns: seq<string -> Option<nat>>, output: string): Option<nat>
  {
    if patterns == [] then None
    else match Search(output, patterns[0])
      case Some(n) => Some(n)
      case None => FirstPattern(patterns[1..], output)
  }

  /** `formatPrettierCount`: a zero count still fails, with one error. */
  function FormatCount(value: nat): (r: ParsedFailure)
    ensures r.errors.Some? && r.errors.value > 0 && r.warnings.None?
  {
    if value == 0 then ParsedFailure("Failed", Some(1), None)
    else ParsedFailure("Failed - " + NatToString(value) + " " + Noun(value, "file") + " with formatting issues", Some(value), None)
  }

  function ParsePrettier(output: string): (r: Option<ParsedFailure>)
    ensures r.Some? ==> r.value.errors.Some? && r.value.errors.value > 0 && r.value.warnings.None?
  {
    match FirstPattern(Patterns, output)
    case Some(n) => Some(FormatCount(n))
    case None => if Search(output, AboveFileAt).Some? then Some(FormatCount(1)) else None
  }

  /** The first pattern that occurs anywhere decides, whatever the later ones would find. */
  lemma PrettierOrder(output: string)
    ensures FirstPattern(Patterns, output) ==
      if Search(output, NotFormattedCount).Some? then Search(output, NotFormattedCount)
      else if Search(output, StyleIssuesCount).Some? then Search(output, StyleIssuesCount)
      else Search(output, FoundInCount)
  {
    FirstOfThree(NotFormattedCount, StyleIssuesCount, FoundInCount, output);
  }

  lemma FirstOfThree(a: string -> Option<nat>, b: string -> Option<nat>, c: string -> Option<nat>, output: string)
    ensures FirstPattern([a, b, c], output) ==
      if Search(output, a).Some? then Search(output, a)
      else if Search(output, b).Some? then Search(output, b)
      else Search(output, c)
  {
    assert [a, b, c][1..] == [b, c] && [b, c][1..] == [c] && [c][1..] == [];
    assert FirstPattern([c], output) == Search(output, c);
    assert FirstPattern([b, c], output) == if Search(output, b).Some? then Search(output, b) else FirstPattern([c], output);
  }

  /** A positive count V gives "Failed - V file(s) with formatting issues" and V errors; 0 gives "Failed" and one error. */
  lemma FormatCountCases(value: nat)
    ensures value == 0 ==> FormatCount(value) == ParsedFailure("Failed", Some(1), None)
    ensures value > 0 ==> FormatCount(value).errors == Some(value)
    ensures value > 0 ==> FormatCount(value).message == "Failed - " + NatToString(value) + " " + Noun(value, "file") + " with formatting issues"
  {
  }

  /** "N file(s) are not formatted" as a tool prints it. */
  function NotFormattedText(n: nat, rest: string): string
  {
    Counted(n, "file") + (" " + ("are" + (" " + ("not" + (" " + ("formatted" + rest))))))
  }

  lemma NotFormattedAtText(rest: string)
    ensures NotFormattedAt(" " + ("are" + (" " + ("not" + (" " + ("formatted" + rest)))))) == Some(rest)
  {
    var c := " " + ("formatted" + rest);
    var b := " " + ("not" + c);
    assert Ws1(" " + ("are" + b)) == Some("are" + b) by {
      Ws1Of(" ", "are" + b);
    }
    assert AreIs("are" + b) == Some(b) by {
      LitIOf("are", b);
    }
    assert Spaced(b, "not") == Some(c) by {
      Ws1Of(" ", "not" + c);
      LitIOf("not", c);
    }
    assert Spaced(c, "formatted") == Some(rest) by {
      Ws1Of(" ", "formatted" + rest);
      LitIOf("formatted", rest);
    }
  }

  lemma NotFormattedCountText(n: nat, rest: string)
    ensures NotFormattedCount(NotFormattedText(n, rest)) == Some(n)
  {
    var u := " " + ("are" + (" " + ("not" + (" " + ("formatted" + rest)))));
    assert CountWord(NotFormattedText(n, rest), "file") == Some(Num(NatToString(n), u)) by {
      CountWordOf(n, "file", u);
    }
    NotFormattedAtText(rest);
    NumberOfNatToString(n);
  }

  /** "N file(s) are not formatted" is read back as N, whatever follows it. */
  lemma PrettierRoundTrip(n: nat, rest: string)
    ensures ParsePrettier(NotFormattedText(n, rest)) == Some(FormatCount(n))
  {
    NotFormattedCountText(n, rest);
    SearchAtStart(NotFormattedText(n, rest), NotFormattedCount);
    PrettierOrder(NotFormattedText(n, rest));
  }

  /** The first two patterns start with their count. */
  lemma CountPatternsStartWithDigit(u: string)
    ensures NotFormattedCount(u).Some? ==> u != [] && IsDigit(u[0])
    ensures StyleIssuesCount(u).Some? ==> u != [] && IsDigit(u[0])
  {
  }

  /** The third pattern contains its count. */
  lemma FoundInHasDigit(u: string)
    ensures FoundInCount(u).Some? ==> !NoDigits(u)
  {
    if FoundInCount(u).Some? {
      var a := LitI(u, "Code style issues found in").value;
      var b := Ws1(a).value;
      LitISuffix(u, "Code style issues found in");
      Ws1Suffix(a);
      SuffixTrans(b, a, u);
      assert b != [] && IsDigit(b[0]);
      assert u[|u| - |b|] == b[0];
    }
  }

  /** Output without a digit has no count in it. */
  lemma NoCountWithoutDigits(output: string)
    requires NoDigits(output)
    ensures FirstPattern(Patterns, output).None?
  {
    forall k | 0 <= k <= |output|
      ensures NotFormattedCount(output[k..]).None? && StyleIssuesCount(output[k..]).None? && FoundInCount(output[k..]).None?
    {
      var u := output[k..];
      assert forall j :: 0 <= j < |u| ==> u[j] == output[k + j];
      CountPatternsStartWithDigit(u);
      FoundInHasDigit(u);
    }
    SearchSpec(output, NotFormattedCount);
    SearchSpec(output, StyleIssuesCount);
    SearchSpec(output, FoundInCount);
    PrettierOrder(output);
  }

  /** A count followed by the word "file(s)" and the text after it. */
  lemma CountThenTail(d: string, n: nat, tail: string)
    requires d != [] && IsDigits(d) && NotS(tail)
    ensures CountWord(d + (" " + (Noun(n, "file") + tail)), "file") == Some(Num(d, tail))
  {
    Digits1Of(d, " " + (Noun(n, "file") + tail));
    SpacedWordOf(n, "file", tail);
  }

  /** "Code style issues found in the above file" as the tool prints it. */
  function AboveFileText(rest: string): string
  {
    "Code style issues found in the above file" + rest
  }

  /** Without any count, the notice about "the above file" reads as one file with formatting issues. */
  lemma PrettierAboveFile(rest: string)
    requires NoDigits(rest)
    ensures ParsePrettier(AboveFileText(rest)) == Some(ParsedFailure("Failed - 1 file with formatting issues", Some(1), None))
  {
    var s := AboveFileText(rest);
    assert FirstPattern(Patterns, s).None? by {
      NoDigitsCat("Code style issues found in the above file", rest);
      NoCountWithoutDigits(s);
    }
    assert Search(s, AboveFileAt).Some? by {
      LitIOf("Code style issues found in the above file", rest);
      SearchAtStart(s, AboveFileAt);
    }
    NoticeDecides(s);
  }

  /** Where no pattern finds a count, the notice counts as one file. */
  lemma NoticeDecides(output: string)
    requires FirstPattern(Patterns, output).None? && Search(output, AboveFileAt).Some?
    ensures ParsePrettier(output) == Some(ParsedFailure("Failed - 1 file with formatting issues", Some(1), None))
  {
    assert ParsePrettier(output) == Some(FormatCount(1));
    OneFileMessage();
  }

  lemma OneFileMessage()
    ensures FormatCount(1) == ParsedFailure("Failed - 1 file with formatting issues", Some(1), None)
  {
    assert NatToString(1) == "1";
    assert Noun(1, "file") == "file";
    assert "Failed - " + "1" + " " + "file" + " with formatting issues" == "Failed - 1 file with formatting issues";
  }

  /** " with code style issues" and the text after it. */
  function StyleIssuesTail(rest: string): string
  {
    " " + ("with" + (" " + ("code" + (" " + ("style" + (" " + ("issues" + rest)))))))
  }

  /** "N file(s) with code style issues" as the tool prints it. */
  function StyleIssuesText(n: nat, rest: string): string
  {
    Counted(n, "file") + StyleIssuesTail(rest)
  }

  lemma StyleIssuesAtText(rest: string)
    ensures StyleIssuesAt(StyleIssuesTail(rest)) == Some("s" + rest)
  {
    var c := " " + ("issues" + rest);
    var b := " " + ("style" + c);
    var a := " " + ("code" + b);
    assert Spaced(StyleIssuesTail(rest), "with") == Some(a) by {
      Ws1Of(" ", "with" + a);
      LitIOf("with", a);
    }
    assert Spaced(a, "code") == Some(b) by {
      Ws1Of(" ", "code" + b);
      LitIOf("code", b);
    }
    assert Spaced(b, "style") == Some(c) by {
      Ws1Of(" ", "style" + c);
      LitIOf("style", c);
    }
    assert Spaced(c, "issue") == Some("s" + rest) by {
      assert "issues" + rest == "issue" + ("s" + rest);
      Ws1Of(" ", "issue" + ("s" + rest));
      LitIOf("issue", "s" + rest);
    }
  }

  /** "with" is neither "are" nor "is". */
  lemma NotFormattedStyleTail(rest: string)
    ensures NotFormattedAt(StyleIssuesTail(rest)).None?
  {
    var t := "with" + (" " + ("code" + (" " + ("style" + (" " + ("issues" + rest))))));
    Ws1Of(" ", t);
    LitIFirst(t, "are");
    LitIFirst(t, "is");
  }

  lemma NoDigitsStyleTail(n: nat, rest: string)
    requires NoDigits(rest)
    ensures NoDigits(" " + (Noun(n, "file") + StyleIssuesTail(rest)))
  {
    assert StyleIssuesTail(rest) == " with code style issues" + rest;
    NoDigitsCat(" with code style issues", rest);
    NoDigitsCat(Noun(n, "file"), StyleIssuesTail(rest));
    NoDigitsCat(" ", Noun(n, "file") + StyleIssuesTail(rest));
  }

  /** The first pattern does not occur in "N file(s) with code style issues". */
  lemma NoNotFormattedInStyleText(n: nat, rest: string)
    requires NoDigits(rest)
    ensures Search(StyleIssuesText(n, rest), NotFormattedCount).None?
  {
    var d := NatToString(n);
    var b := " " + (Noun(n, "file") + StyleIssuesTail(rest));
    assert StyleIssuesText(n, rest) == "" + (d + b);
    NatToStringDigits(n);
    NoDigitsStyleTail(n, rest);
    forall j | 0 <= j < |d|
      ensures NotFormattedCount(d[j..] + b).None?
    {
      CountThenTail(d[j..], n, StyleIssuesTail(rest));
      NotFormattedStyleTail(rest);
    }
    forall u
      ensures NotFormattedCount(u).Some? ==> u != [] && IsDigit(u[0])
    {
      CountPatternsStartWithDigit(u);
    }
    SearchAroundNumber("", d, b, NotFormattedCount);
  }

  /** Where the first pattern finds nothing, the second decides. */
  lemma SecondPatternDecides(output: string, n: nat)
    requires Search(output, NotFormattedCount).None? && Search(output, StyleIssuesCount) == Some(n)
    ensures ParsePrettier(output) == Some(FormatCount(n))
  {
    PrettierOrder(output);
  }

  /** Where neither of the first two patterns finds anything, the third decides. */
  lemma ThirdPatternDecides(output: string, n: nat)
    requires Search(output, NotFormattedCount).None? && Search(output, StyleIssuesCount).None?
    requires Search(output, FoundInCount) == Some(n)
    ensures ParsePrettier(output) == Some(FormatCount(n))
  {
    PrettierOrder(output);
  }

  /** "N file(s) with code style issues" is read back as N when no other digit follows. */
  lemma StyleIssuesRoundTrip(n: nat, rest: string)
    requires NoDigits(rest)
    ensures ParsePrettier(StyleIssuesText(n, rest)) == Some(FormatCount(n))
  {
    var s := StyleIssuesText(n, rest);
    NoNotFormattedInStyleText(n, rest);
    assert StyleIssuesCount(s) == Some(n) by {
      CountWordOf(n, "file", StyleIssuesTail(rest));
      StyleIssuesAtText(rest);
      NumberOfNatToString(n);
    }
    SearchAtStart(s, StyleIssuesCount);
    SecondPatternDecides(s, n);
  }

  /** "Code style issues found in N file(s)" as the tool prints it. */
  function FoundInText(n: nat, rest: string): string
  {
    "Code style issues found in" + (" " + (Counted(n, "file") + rest))
  }

  lemma FoundInCountText(n: nat, rest: string)
    requires NotS(rest)
    ensures FoundInCount(FoundInText(n, rest)) == Some(n)
  {
    var t := Counted(n, "file") + rest;
    LitIOf("Code style issues found in", " " + t);
    assert t[0] == NatToString(n)[0];
    NatToStringDigits(n);
    Ws1Of(" ", t);
    CountWordOf(n, "file", rest);
    NumberOfNatToString(n);
  }

  /** "Code style issues found in N file(s)" is a digit-free head, the count, and a digit-free tail. */
  lemma FoundTextParts(n: nat, rest: string)
    requires NoDigits(rest)
    ensures FoundInText(n, rest) == "Code style issues found in " + (NatToString(n) + (" " + (Noun(n, "file") + rest)))
    ensures NoDigits("Code style issues found in ") && IsDigits(NatToString(n))
    ensures NoDigits(" " + (Noun(n, "file") + rest))
  {
    NatToStringDigits(n);
    NoDigitsCat(Noun(n, "file"), rest);
    NoDigitsCat(" ", Noun(n, "file") + rest);
  }

  /** Neither of the first two patterns occurs in "Code style issues found in N file(s)". */
  lemma NoEarlierPatternInFoundText(n: nat, rest: string)
    requires NotS(rest) && (rest == [] || !IsSpace(rest[0])) && NoDigits(rest)
    ensures Search(FoundInText(n, rest), NotFormattedCount).None?
    ensures Search(FoundInText(n, rest), StyleIssuesCount).None?
  {
    var d := NatToString(n);
    var b := " " + (Noun(n, "file") + rest);
    FoundTextParts(n, rest);
    assert Search("Code style issues found in " + (d + b), NotFormattedCount).None? by {
      forall u
        ensures NotFormattedCount(u).Some? ==> u != [] && IsDigit(u[0])
      {
        CountPatternsStartWithDigit(u);
      }
      forall j | 0 <= j < |d|
        ensures NotFormattedCount(d[j..] + b).None?
      {
        CountThenTail(d[j..], n, rest);
      }
      SearchAroundNumber("Code style issues found in ", d, b, NotFormattedCount);
    }
    assert Search("Code style issues found in " + (d + b), StyleIssuesCount).None? by {
      forall u
        ensures StyleIssuesCount(u).Some? ==> u != [] && IsDigit(u[0])
      {
        CountPatternsStartWithDigit(u);
      }
      forall j | 0 <= j < |d|
        ensures StyleIssuesCount(d[j..] + b).None?
      {
        CountThenTail(d[j..], n, rest);
      }
      SearchAroundNumber("Code style issues found in ", d, b, StyleIssuesCount);
    }
  }

  /**
   * "Code style issues found in N file(s)" is read back as N when the text after it
   * neither continues the word nor holds a digit.
   */
  lemma FoundInRoundTrip(n: nat, rest: string)
    requires NotS(rest) && (rest == [] || !IsSpace(rest[0])) && NoDigits(rest)
    ensures ParsePrettier(FoundInText(n, rest)) == Some(FormatCount(n))
  {
    var s := FoundInText(n, rest);
    NoEarlierPatternInFoundText(n, rest);
    FoundInCountText(n, rest);
    SearchAtStart(s, FoundInCount);
    ThirdPatternDecides(s, n);
  }
}

/** The CSpell output parser (src/task/parsers/cspell/parser.ts). */
module CSpellParser {
  import opened Wrappers
  import opened Text
  import opened Scan
  import opened Failures

  /** The issue count of an "Issues found: N in M files" summary, and the file count when present. */
  datatype Summary = Summary(issues: nat, files: Option<nat>)

  /** `issues?\s+found:`, case-insensitively: the rest after the colon. */
  function FoundAt(t: string): Option<string>
  {
    var a :- WordS(t, "issue");
    var b :- Ws1(a);
    LitI(b, "found:")
  }

  /** `\s+in\s+(\d+)\s+files?`, case-insensitively: the file count. */
  function InFilesAt(t: string): Option<nat>
  {
    var a :- Ws1(t);
    var b :- LitI(a, "in");
    InFilesCount(b)
  }

  function InFilesCount(t: string): Option<nat>
  {
    var c :- Ws1(t);
    var n :- CountWord(c, "file");
    Some(n.Value())
  }

  /**
   * `/issues?\s+found:\s*(\d+)(?:\s+in\s+(\d+)\s+files?)?/i` at the start of `t`. The optional
   * group is taken whenever it matches after the issue count, and skipped otherwise.
   */
  function SummaryAt(t: string): Option<Summary>
  {
    var a :- FoundAt(t);
    CountAt(Ws0(a))
  }

  /** `(\d+)(?:\s+in\s+(\d+)\s+files?)?` */
  function CountAt(t: string): Option<Summary>
  {
    var n :- Digits1(t);
    Some(Summary(n.Value(), InFilesAt(n.rest)))
  }

  /** " in M file(s)" for a present, positive file count, and "" otherwise. */
  function FilesText(files: Option<nat>): string
  {
    if files.Some? && files.value > 0 then " in " + Counted(files.value, "file") else ""
  }

  function ParseCSpell(output: string): Option<ParsedFailure>
  {
    match Search(output, SummaryAt)
    case None => None
    case Some(s) =>
      if s.issues == 0 then None
      else Some(ParsedFailure("Failed - " + Counted(s.issues, "issue") + FilesText(s.files), Some(s.issues), None))
  }

  /**
   * A failure is reported exactly when the leftmost summary has a positive issue count N; its
   * errors are N whatever the file count, and it has no warnings.
   */
  lemma CSpellVerdict(output: string)
    ensures ParseCSpell(output).Some? <==> Search(output, SummaryAt).Some? && Search(output, SummaryAt).value.issues > 0
    ensures ParseCSpell(output).Some? ==>
      var s := Search(output, SummaryAt).value;
      ParseCSpell(output).value == ParsedFailure("Failed - " + Counted(s.issues, "issue") + FilesText(s.files), Some(s.issues), None)
  {
  }

  /** The file suffix appears only for a positive file count, and then names it, "file" iff it is 1. */
  lemma FilesTextCases(files: Option<nat>)
    ensures FilesText(files) == "" <==> files.None? || files.value == 0
    ensures files.Some? && files.value > 0 ==> FilesText(files) == " in " + NatToString(files.value) + " " + Noun(files.value, "file")
  {
  }

  /** The summary line CSpell prints, "Issues found: N", with the file part when `files` is positive. */
  function SummaryText(issues: nat, files: nat, rest: string): string
  {
    "Issues" + (" " + ("found:" + (" " + (NatToString(issues) + FilesPart(files, rest)))))
  }

  function FilesPart(files: nat, rest: string): string
  {
    if files > 0 then " " + ("in" + (" " + (Counted(files, "file") + rest))) else rest
  }

  /** `issues?\s+found:` accepts the words in the case CSpell prints them and in lower case. */
  lemma {:induction false} FoundAtText(word: string, t: string)
    requires word == "Issues" || word == "issues"
    ensures FoundAt(word + (" " + ("found:" + t))) == Some(t)
  {
    var u := " " + ("found:" + t);
    assert word + u == word[..5] + ("s" + u);
    LitICaseOf(word[..5], "issue", "s" + u);
    assert ("s" + u)[1..] == u;
    Ws1Of(" ", "found:" + t);
    LitIOf("found:", t);
  }

  lemma {:induction false} InFilesAtText(files: nat, rest: string)
    requires files > 0 && NotS(rest)
    ensures InFilesAt(FilesPart(files, rest)) == Some(files)
  {
    NatToStringDigits(files);
    var c := Counted(files, "file") + rest;
    assert c[0] == NatToString(files)[0];
    Ws1Of(" ", "in" + (" " + c));
    LitIOf("in", " " + c);
    Ws1Of(" ", c);
    CountWordOf(files, "file", rest);
    NumberOfNatToString(files);
  }

  /** What may follow the summary line: a file part needs a non-`s` after it, a bare count a non-space non-digit. */
  predicate FollowsSummary(files: nat, rest: string)
  {
    if files > 0 then NotS(rest) else rest == [] || (!IsSpace(rest[0]) && !IsDigit(rest[0]))
  }

  lemma {:induction false} SummaryAtText(issues: nat, files: nat, rest: string)
    requires FollowsSummary(files, rest)
    ensures SummaryAt(SummaryText(issues, files, rest)) == Some(Summary(issues, if files > 0 then Some(files) else None))
  {
    var u := NatToString(issues) + FilesPart(files, rest);
    assert FoundAt(SummaryText(issues, files, rest)) == Some(" " + u) by {
      FoundAtText("Issues", " " + u);
    }
    assert Ws0(" " + u) == u by {
      NatToStringDigits(issues);
      Ws0Of(" ", u);
    }
    CountAtText(issues, files, rest);
  }

  lemma CountAtText(issues: nat, files: nat, rest: string)
    requires FollowsSummary(files, rest)
    ensures CountAt(NatToString(issues) + FilesPart(files, rest)) == Some(Summary(issues, if files > 0 then Some(files) else None))
  {
    NumberRoundTrip(issues, FilesPart(files, rest));
    if files > 0 {
      InFilesAtText(files, rest);
    }
  }

  /**
   * No match of the pattern starts in `before`: every "i" in it, in either case, is followed by
   * something other than "s", inside `before`.
   */
  predicate NoIssueStart(before: string)
  {
    forall j :: 0 <= j < |before| && Lower(before[j]) == 'i' ==> j + 1 < |before| && Lower(before[j + 1]) != 's'
  }

  /** The pattern needs "is", in either case, where it starts. */
  lemma NoSummaryAt(u: string)
    requires u == [] || Lower(u[0]) != 'i' || (|u| > 1 && Lower(u[1]) != 's')
    ensures SummaryAt(u).None?
  {
    if u != [] && Lower(u[0]) != 'i' {
      assert Lower(u[0]) != Lower("issue"[0]);
    } else if u != [] {
      assert Lower(u[1]) != Lower("issue"[1]);
    }
  }

  /**
   * The summary line is read back after any text in which no match starts: a positive issue
   * count N fails with N errors, and the message names the files exactly when the printed file
   * count is positive.
   */
  lemma CSpellRoundTrip(before: string, issues: nat, files: nat, rest: string)
    requires NoIssueStart(before) && FollowsSummary(files, rest)
    ensures ParseCSpell(before + SummaryText(issues, files, rest)) ==
      if issues == 0 then None
      else Some(ParsedFailure("Failed - " + Counted(issues, "issue") + FilesText(Some(files)), Some(issues), None))
  {
    var s := SummaryText(issues, files, rest);
    SummaryAtText(issues, files, rest);
    SummaryAfter(before, s);
  }

  /** A summary found at the start of `s` is still the one found after text in which no match starts. */
  lemma SummaryAfter(before: string, s: string)
    requires NoIssueStart(before) && SummaryAt(s).Some?
    ensures Search(before + s, SummaryAt) == SummaryAt(s)
  {
    forall j | 0 <= j < |before|
      ensures SummaryAt(before[j..] + s).None?
    {
      var u := before[j..] + s;
      assert u[0] == before[j];
      if Lower(before[j]) == 'i' {
        assert u[1] == before[j + 1];
      }
      NoSummaryAt(u);
    }
    SearchAfter(before, s, SummaryAt);
  }

  /** The text CSpell prints before its summary: the only "i" in it starts "iles". */
  lemma CheckedNoIssueStart()
    ensures NoIssueStart(CheckedPrefix)
  {
    forall j | 0 <= j < |CheckedPrefix| && Lower(CheckedPrefix[j]) == 'i'
      ensures j + 1 < |CheckedPrefix| && Lower(CheckedPrefix[j + 1]) != 's'
    {
      assert j == 9;
    }
  }

  const CheckedPrefix := "CSpell: Files checked: 59, "

  lemma TestLineText()
    ensures SummaryText(5, 3, ".") == "Issues found: 5 in 3 files."
  {
    var f := " in 3 files.";
    assert FilesPart(3, ".") == f by {
      ThreeFiles();
    }
    assert NatToString(5) == "5";
    assert SummaryText(5, 3, ".") == "Issues found: 5" + f;
  }

  lemma ThreeFiles()
    ensures FilesPart(3, ".") == " in 3 files."
  {
    assert NatToString(3) == "3";
    assert Counted(3, "file") == "3 files";
  }

  lemma TestLineMessage()
    ensures "Failed - " + Counted(5, "issue") + FilesText(Some(3)) == "Failed - 5 issues in 3 files"
  {
    assert NatToString(5) == "5" && NatToString(3) == "3";
    assert Counted(5, "issue") == "5 issues";
    assert FilesText(Some(3)) == " in 3 files";
  }

  /** The first line of the parser's tests: "Failed - 5 issues in 3 files" with 5 errors. */
  lemma CSpellTestLine()
    ensures ParseCSpell("CSpell: Files checked: 59, " + "Issues found: 5 in 3 files.") ==
      Some(ParsedFailure("Failed - 5 issues in 3 files", Some(5), None))
  {
    CheckedNoIssueStart();
    CSpellRoundTrip(CheckedPrefix, 5, 3, ".");
    TestLineText();
    TestLineMessage();
  }

  /** "Issues found: 0" is a summary with no issues, whatever file part follows it. */
  lemma ZeroSummaryAt(rest: string)
    requires rest == [] || !IsDigit(rest[0])
    ensures SummaryAt("Issues" + (" " + ("found:" + (" " + ("0" + rest))))).Some?
    ensures SummaryAt("Issues" + (" " + ("found:" + (" " + ("0" + rest))))).value.issues == 0
  {
    FoundAtText("Issues", " " + ("0" + rest));
    Ws0Of(" ", "0" + rest);
    NumberRoundTrip(0, rest);
    assert NatToString(0) == "0";
  }

  const ZeroSummary := "Issues" + (" " + ("found:" + (" " + ("0" + " in 0 files."))))

  lemma ZeroLine()
    ensures ParseCSpell(CheckedPrefix + ZeroSummary).None?
  {
    ZeroSummaryAt(" in 0 files.");
    CheckedNoIssueStart();
    SummaryAfter(CheckedPrefix, ZeroSummary);
  }

  lemma ZeroLineText()
    ensures ZeroSummary == "Issues found: 0 in 0 files."
  {
  }

  /** The last test: "Issues found: 0 in 0 files." reports nothing. */
  lemma CSpellZeroTestLine()
    ensures ParseCSpell("CSpell: Files checked: 59, " + "Issues found: 0 in 0 files.").None?
  {
    ZeroLine();
    ZeroLineText();
  }
}

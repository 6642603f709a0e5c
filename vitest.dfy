/** The Vitest output parser (src/task/parsers/vitest/parser.ts). */
module VitestParser {
  import opened Wrappers
  import opened Text
  import opened Scan
  import opened Failures

  /** `(\d+) ` : a count followed by one space. */
  function CountThenSpace(t: string): Option<nat>
  {
    var n :- Digits1(t);
    var c :- Lit(n.rest, " ");
    Some(n.Value())
  }

  /** `(\d+)\s+failed`, case-insensitively. */
  function CountFailed(t: string): Option<nat>
  {
    var n :- Digits1(t);
    var c :- Ws1(n.rest);
    var d :- LitI(c, "failed");
    Some(n.Value())
  }

  /** `/ Failed Suites\s+(\d+) /i` at the start of `t` (note the space on each side). */
  function SuitesAt(t: string): Option<nat>
  {
    var a :- LitI(t, " Failed Suites");
    var b :- Ws1(a);
    CountThenSpace(b)
  }

  /** `/Test Files\s+(\d+)\s+failed/i` at the start of `t`. */
  function FilesAt(t: string): Option<nat>
  {
    var a :- LitI(t, "Test Files");
    var b :- Ws1(a);
    CountFailed(b)
  }

  /** `/Tests\s+(\d+)\s+failed/i` at the start of `t`. */
  function TestsAt(t: string): Option<nat>
  {
    var a :- LitI(t, "Tests");
    var b :- Ws1(a);
    CountFailed(b)
  }

  /** The message after "Failed - ": "T test(s) failed in F file(s)", or only the test part, which is "" without a test count. */
  function MessageBody(files: Option<nat>, tests: Option<nat>): string
  {
    var testPart := if tests.Some? then Counted(tests.value, "test") + " failed" else "";
    var filePart := if files.Some? then Counted(files.value, "file") else "";
    if testPart != "" && filePart != "" then testPart + " in " + filePart else testPart
  }

  /** The file-failure and test-failure counts added up, a missing one counting 0 (the two `+=` steps). */
  function TotalFailures(files: Option<nat>, tests: Option<nat>): nat
  {
    files.GetOr(0) + tests.GetOr(0)
  }

  function ParseVitest(output: string): (r: Option<ParsedFailure>)
    ensures r.Some? ==> r.value.errors.Some? && r.value.errors.value > 0 && r.value.warnings.None?
  {
    var suites := Search(output, SuitesAt);
    if suites.Some? && suites.value > 0 then
      Some(ParsedFailure("Failed - " + Counted(suites.value, "suite") + " failed", Some(suites.value), None))
    else
      var files := Search(output, FilesAt);
      var tests := Search(output, TestsAt);
      if files.None? && tests.None? then None
      else
        var total := TotalFailures(files, tests);
        if total == 0 then None
        else Some(ParsedFailure("Failed - " + MessageBody(files, tests), Some(total), None))
  }

  /** There is no failed-suite count that takes precedence. */
  predicate NoSuiteFailures(output: string)
  {
    Search(output, SuitesAt).None? || Search(output, SuitesAt).value == 0
  }

  /** A positive failed-suite count N decides: "Failed - N suite(s) failed" with N errors. */
  lemma VitestSuites(output: string, n: nat)
    requires Search(output, SuitesAt) == Some(n) && n > 0
    ensures ParseVitest(output) == Some(ParsedFailure("Failed - " + Counted(n, "suite") + " failed", Some(n), None))
  {
  }

  /**
   * Otherwise a failure is reported exactly when a file or test count matched and their sum is
   * positive, and its errors are that sum.
   */
  lemma VitestTotals(output: string)
    requires NoSuiteFailures(output)
    ensures var files, tests := Search(output, FilesAt), Search(output, TestsAt);
      ParseVitest(output) ==
        if (files.None? && tests.None?) || TotalFailures(files, tests) == 0 then None
        else Some(ParsedFailure("Failed - " + MessageBody(files, tests), Some(TotalFailures(files, tests)), None))
  {
  }

  /** Both counts give "T test(s) failed in F file(s)", each noun singular iff its count is 1. */
  lemma MessageBothCounts(f: nat, t: nat)
    ensures MessageBody(Some(f), Some(t)) == Counted(t, "test") + " failed in " + Counted(f, "file")
  {
  }

  /** Only a test-file count leaves the body empty, so the message is just "Failed - ". */
  lemma MessageFilesOnly(f: nat)
    ensures MessageBody(Some(f), None) == ""
  {
  }

  /** "Test Files 1 failed | Tests 2 failed": 3 errors, "Failed - 2 tests failed in 1 file". */
  lemma VitestOneFileTwoTests()
    ensures ParseVitest(FilesTestsText(1, 2)) == Some(ParsedFailure("Failed - 2 tests failed in 1 file", Some(3), None))
  {
    VitestFilesTestsRoundTrip(1, 2);
    MessageBothCounts(1, 2);
    OneFileTwoTestsBody();
  }

  /** "Test Files 0 failed | Tests 0 failed" reports nothing. */
  lemma VitestNothingFailed()
    ensures ParseVitest(FilesTestsText(0, 0)).None?
  {
    VitestFilesTestsRoundTrip(0, 0);
  }

  /** "Tests 5 failed": 5 errors, "Failed - 5 tests failed". */
  lemma VitestFiveTests()
    ensures ParseVitest(TestsText(5, "")) == Some(ParsedFailure("Failed - 5 tests failed", Some(5), None))
  {
    VitestTestsRoundTrip(5);
    FiveTestsMessage();
  }

  lemma FiveTestsMessage()
    ensures "Failed - " + (Counted(5, "test") + " failed") == "Failed - 5 tests failed"
  {
    assert Counted(5, "test") == "5 tests" by {
      assert NatToString(5) == "5";
    }
  }

  lemma OneFileTwoTestsBody()
    ensures "Failed - " + MessageBody(Some(1), Some(2)) == "Failed - 2 tests failed in 1 file"
  {
    var tests, files := Counted(2, "test"), Counted(1, "file");
    assert tests == "2 tests" by {
      assert NatToString(2) == "2";
    }
    assert files == "1 file" by {
      assert NatToString(1) == "1";
    }
    var failed := tests + " failed";
    assert failed == "2 tests failed";
    var inPart := failed + " in ";
    assert inPart == "2 tests failed in ";
    assert MessageBody(Some(1), Some(2)) == inPart + files;
    var body := inPart + files;
    assert body == "2 tests failed in 1 file";
    assert "Failed - " + body == "Failed - 2 tests failed in 1 file";
  }

  /** The banner Vitest prints above failed suites. */
  function SuitesText(n: nat, rest: string): string
  {
    " Failed Suites" + (" " + (NatToString(n) + (" " + rest)))
  }

  lemma {:induction false} SuitesAtText(n: nat, rest: string)
    ensures SuitesAt(SuitesText(n, rest)) == Some(n)
  {
    NatToStringDigits(n);
    LitIOf(" Failed Suites", " " + (NatToString(n) + (" " + rest)));
    Ws1Of(" ", NatToString(n) + (" " + rest));
    NumberRoundTrip(n, " " + rest);
    LitOf(" ", rest);
  }

  /** The failed-suite banner is read back: N > 0 failed suites fail with N errors. */
  lemma VitestSuitesRoundTrip(n: nat, rest: string)
    requires n > 0
    ensures ParseVitest(SuitesText(n, rest)) == Some(ParsedFailure("Failed - " + Counted(n, "suite") + " failed", Some(n), None))
  {
    SuitesAtText(n, rest);
    SearchAtStart(SuitesText(n, rest), SuitesAt);
  }

  /** How Vitest prints a failed-test count: "Tests N failed", then the rest of the line. */
  function TestsText(n: nat, rest: string): string
  {
    "Tests" + (" " + (NatToString(n) + (" failed" + rest)))
  }

  /** The failed-file count and the separator before the test count. */
  function FilesPart(f: nat): string
  {
    "Test Files" + (" " + (NatToString(f) + " failed | "))
  }

  /** "Test Files F failed | Tests T failed". */
  function FilesTestsText(f: nat, n: nat): string
  {
    FilesPart(f) + TestsText(n, "")
  }

  lemma {:induction false} CountFailedText(n: nat, rest: string)
    ensures CountFailed(NatToString(n) + (" failed" + rest)) == Some(n)
  {
    NumberRoundTrip(n, " failed" + rest);
    assert " failed" + rest == " " + ("failed" + rest);
    Ws1Of(" ", "failed" + rest);
    LitIOf("failed", rest);
  }

  lemma {:induction false} TestsAtText(n: nat, rest: string)
    ensures TestsAt(TestsText(n, rest)) == Some(n)
  {
    NatToStringDigits(n);
    LitIOf("Tests", " " + (NatToString(n) + (" failed" + rest)));
    Ws1Of(" ", NatToString(n) + (" failed" + rest));
    CountFailedText(n, rest);
  }

  lemma {:induction false} FilesAtText(f: nat, rest: string)
    ensures FilesAt(FilesPart(f) + rest) == Some(f)
  {
    NatToStringDigits(f);
    var tail := NatToString(f) + (" failed" + (" | " + rest));
    assert FilesPart(f) + rest == "Test Files" + (" " + tail);
    LitIOf("Test Files", " " + tail);
    Ws1Of(" ", tail);
    CountFailedText(f, " | " + rest);
  }

  /** Both patterns start with "test", so neither matches where no "t" stands. */
  lemma NoTestAt(u: string)
    requires u == [] || Lower(u[0]) != 't'
    ensures TestsAt(u).None? && FilesAt(u).None?
  {
    LitIFirst(u, "Tests");
    LitIFirst(u, "Test Files");
  }

  /** The suite banner has its "u" at index 9. */
  lemma SuitesNeedU(u: string)
    ensures SuitesAt(u).Some? ==> |u| >= 14 && Lower(u[9]) == 'u'
  {
    if SuitesAt(u).Some? {
      assert LitI(u, " Failed Suites").Some?;
      assert Lower(u[9]) == Lower(" Failed Suites"[9]);
    }
  }

  /** `/ Failed Suites\s+(\d+) /i` cannot match a text without "u". */
  lemma NoSuites(s: string)
    requires Avoids(s, 'u')
    ensures Search(s, SuitesAt).None?
  {
    forall k | 0 <= k <= |s|
      ensures SuitesAt(s[k..]).None?
    {
      SuitesNeedU(s[k..]);
      if |s[k..]| >= 14 {
        assert s[k..][9] == s[k + 9];
      }
    }
  }

  /** Past "Test", the file part holds no "t". */
  lemma FilesPartTail(f: nat)
    ensures |FilesPart(f)| >= 4 && Avoids(FilesPart(f)[4..], 't') && Avoids(FilesPart(f), 'u')
  {
    var n := NatToString(f);
    AvoidsNumber(f, 't');
    AvoidsNumber(f, 'u');
    AvoidsCat(n, " failed | ", 't');
    AvoidsCat(" ", n + " failed | ", 't');
    AvoidsCat(" Files", " " + (n + " failed | "), 't');
    assert FilesPart(f)[4..] == " Files" + (" " + (n + " failed | "));
    AvoidsCat(n, " failed | ", 'u');
    AvoidsCat(" ", n + " failed | ", 'u');
    AvoidsCat("Test Files", " " + (n + " failed | "), 'u');
  }

  lemma TestsTextAvoids(n: nat, rest: string)
    requires Avoids(rest, 'u')
    ensures |TestsText(n, rest)| >= 4 && Avoids(TestsText(n, rest), 'u')
    ensures Avoids(rest, 't') ==> Avoids(TestsText(n, rest)[4..], 't')
  {
    var num := NatToString(n);
    AvoidsNumber(n, 'u');
    AvoidsCat(" failed", rest, 'u');
    AvoidsCat(num, " failed" + rest, 'u');
    AvoidsCat(" ", num + (" failed" + rest), 'u');
    AvoidsCat("Tests", " " + (num + (" failed" + rest)), 'u');
    if Avoids(rest, 't') {
      AvoidsNumber(n, 't');
      AvoidsCat(" failed", rest, 't');
      AvoidsCat(num, " failed" + rest, 't');
      AvoidsCat(" ", num + (" failed" + rest), 't');
      AvoidsCat("s", " " + (num + (" failed" + rest)), 't');
      assert TestsText(n, rest)[4..] == "s" + (" " + (num + (" failed" + rest)));
    }
  }

  /** In "Test Files F failed | Tests T failed" the test count is the first "Tests" found. */
  lemma TestsSearchText(f: nat, n: nat)
    ensures Search(FilesTestsText(f, n), TestsAt) == Some(n)
  {
    var s := FilesTestsText(f, n);
    var p := |FilesPart(f)|;
    assert s[p..] == TestsText(n, "");
    TestsAtText(n, "");
    forall j | 0 <= j < p
      ensures TestsAt(s[j..]).None?
    {
      NoTestsInFilesPart(f, TestsText(n, ""), j);
    }
    SearchFirst(s, TestsAt, p);
  }

  /** No "Tests N failed" starts inside the file part, whatever follows it. */
  lemma NoTestsInFilesPart(f: nat, rest: string, j: nat)
    requires j < |FilesPart(f)|
    ensures TestsAt((FilesPart(f) + rest)[j..]).None?
  {
    var s := FilesPart(f) + rest;
    FilesPartTail(f);
    assert s[j..][0] == s[j] == FilesPart(f)[j];
    if j == 0 || j == 3 {
      assert s[j..][4 - j] == ' ';
      assert Lower(s[j..][4 - j]) != Lower("Tests"[4 - j]);
    } else if j > 3 {
      assert FilesPart(f)[j] == FilesPart(f)[4..][j - 4];
      NoTestAt(s[j..]);
    } else {
      NoTestAt(s[j..]);
    }
  }

  /** "Tests T failed" alone holds no "Test Files". */
  lemma NoFilesInTests(n: nat)
    ensures Search(TestsText(n, ""), FilesAt).None?
  {
    var s := TestsText(n, "");
    TestsTextAvoids(n, "");
    forall j | 0 <= j <= |s|
      ensures FilesAt(s[j..]).None?
    {
      if j == 0 || j == 3 {
        assert s[j..][4 - j] == s[4] == 's';
        assert Lower(s[j..][4 - j]) != Lower("Test Files"[4 - j]);
      } else if j > 3 && j < |s| {
        assert s[j..][0] == s[4..][j - 4];
        NoTestAt(s[j..]);
      } else if j < |s| {
        assert s[j..][0] == s[j];
        NoTestAt(s[j..]);
      }
    }
  }

  /** With no suite banner, a file count F and a test count T give F + T errors, unless both are 0. */
  lemma VitestBothCounts(output: string, f: nat, n: nat)
    requires Search(output, SuitesAt).None?
    requires Search(output, FilesAt) == Some(f) && Search(output, TestsAt) == Some(n)
    ensures ParseVitest(output) ==
      if f + n == 0 then None
      else Some(ParsedFailure("Failed - " + (Counted(n, "test") + " failed in " + Counted(f, "file")), Some(f + n), None))
  {
    VitestTotals(output);
    MessageBothCounts(f, n);
  }

  /** With no suite banner and no file count, a test count T > 0 gives T errors. */
  lemma VitestTestCount(output: string, n: nat)
    requires Search(output, SuitesAt).None?
    requires Search(output, FilesAt).None? && Search(output, TestsAt) == Some(n)
    ensures ParseVitest(output) ==
      if n == 0 then None else Some(ParsedFailure("Failed - " + (Counted(n, "test") + " failed"), Some(n), None))
  {
    assert TotalFailures(None, Some(n)) == n;
    assert MessageBody(None, Some(n)) == Counted(n, "test") + " failed";
  }

  /**
   * "Test Files F failed | Tests T failed" is read back: no failure when both are 0, and
   * otherwise F + T errors with "T test(s) failed in F file(s)".
   */
  lemma VitestFilesTestsRoundTrip(f: nat, n: nat)
    ensures ParseVitest(FilesTestsText(f, n)) ==
      if f + n == 0 then None
      else Some(ParsedFailure("Failed - " + (Counted(n, "test") + " failed in " + Counted(f, "file")), Some(f + n), None))
  {
    var s := FilesTestsText(f, n);
    assert Search(s, SuitesAt).None? by {
      FilesPartTail(f);
      TestsTextAvoids(n, "");
      AvoidsCat(FilesPart(f), TestsText(n, ""), 'u');
      NoSuites(s);
    }
    assert Search(s, FilesAt) == Some(f) by {
      FilesAtText(f, TestsText(n, ""));
      SearchAtStart(s, FilesAt);
    }
    TestsSearchText(f, n);
    VitestBothCounts(s, f, n);
  }

  /** "Tests T failed" alone is read back: T > 0 errors with "T test(s) failed". */
  lemma VitestTestsRoundTrip(n: nat)
    ensures ParseVitest(TestsText(n, "")) ==
      if n == 0 then None else Some(ParsedFailure("Failed - " + (Counted(n, "test") + " failed"), Some(n), None))
  {
    var s := TestsText(n, "");
    assert Search(s, SuitesAt).None? by {
      TestsTextAvoids(n, "");
      NoSuites(s);
    }
    NoFilesInTests(n);
    assert Search(s, TestsAt) == Some(n) by {
      TestsAtText(n, "");
      SearchAtStart(s, TestsAt);
    }
    VitestTestCount(s, n);
  }

  /** How Vitest prints a failed-file count with no test count after it: "Test Files F failed". */
  function FilesOnlyText(f: nat, rest: string): string
  {
    "Test Files" + (" " + (NatToString(f) + (" failed" + rest)))
  }

  lemma FilesOnlyAvoids(f: nat, rest: string)
    requires Avoids(rest, 't') && Avoids(rest, 'u')
    ensures |FilesOnlyText(f, rest)| >= 5 && FilesOnlyText(f, rest)[4] == ' '
    ensures Avoids(FilesOnlyText(f, rest)[4..], 't') && Avoids(FilesOnlyText(f, rest), 'u')
  {
    var num := NatToString(f);
    var tail := " " + (num + (" failed" + rest));
    AvoidsNumber(f, 't');
    AvoidsNumber(f, 'u');
    AvoidsCat(" failed", rest, 't');
    AvoidsCat(num, " failed" + rest, 't');
    AvoidsCat(" Files", tail, 't');
    assert FilesOnlyText(f, rest)[4..] == " Files" + tail;
    AvoidsCat(" failed", rest, 'u');
    AvoidsCat(num, " failed" + rest, 'u');
    AvoidsCat("Test Files", tail, 'u');
  }

  /** "Test Files F failed" holds no "Tests N failed": its "Test" is followed by a space. */
  lemma NoTestsInFilesOnly(f: nat, rest: string)
    requires Avoids(rest, 't') && Avoids(rest, 'u')
    ensures Search(FilesOnlyText(f, rest), TestsAt).None?
  {
    var s := FilesOnlyText(f, rest);
    FilesOnlyAvoids(f, rest);
    forall j | 0 <= j <= |s|
      ensures TestsAt(s[j..]).None?
    {
      if j == 0 || j == 3 {
        assert s[j..][4 - j] == s[4] == ' ';
        assert Lower(s[j..][4 - j]) != Lower("Tests"[4 - j]);
      } else if j > 3 && j < |s| {
        assert s[j..][0] == s[4..][j - 4];
        NoTestAt(s[j..]);
      } else if j < |s| {
        assert s[j..][0] == s[j];
        NoTestAt(s[j..]);
      }
    }
    SearchSpec(s, TestsAt);
  }

  /**
   * "Test Files F failed" with no test count is read back: F > 0 fails with F errors, and since
   * the message body is the test part alone, the message is just "Failed - ".
   */
  lemma VitestFilesOnlyRoundTrip(f: nat, rest: string)
    requires Avoids(rest, 't') && Avoids(rest, 'u')
    ensures ParseVitest(FilesOnlyText(f, rest)) ==
      if f == 0 then None else Some(ParsedFailure("Failed - ", Some(f), None))
  {
    var s := FilesOnlyText(f, rest);
    assert Search(s, SuitesAt).None? by {
      FilesOnlyAvoids(f, rest);
      NoSuites(s);
    }
    assert Search(s, FilesAt) == Some(f) by {
      FilesAtOnlyText(f, rest);
      SearchAtStart(s, FilesAt);
    }
    NoTestsInFilesOnly(f, rest);
    VitestFileCount(s, f);
  }

  lemma {:induction false} FilesAtOnlyText(f: nat, rest: string)
    ensures FilesAt(FilesOnlyText(f, rest)) == Some(f)
  {
    NatToStringDigits(f);
    LitIOf("Test Files", " " + (NatToString(f) + (" failed" + rest)));
    Ws1Of(" ", NatToString(f) + (" failed" + rest));
    CountFailedText(f, rest);
  }

  /** With no suite banner and no test count, a file count F > 0 gives F errors and an empty body. */
  lemma VitestFileCount(output: string, f: nat)
    requires Search(output, SuitesAt).None?
    requires Search(output, FilesAt) == Some(f) && Search(output, TestsAt).None?
    ensures ParseVitest(output) == if f == 0 then None else Some(ParsedFailure("Failed - ", Some(f), None))
  {
    assert TotalFailures(Some(f), None) == f;
    MessageFilesOnly(f);
    assert "Failed - " + MessageBody(Some(f), None) == "Failed - ";
  }
}

/** The TypeScript compiler output parser (src/task/parsers/typescript/parser.ts). */
module TypeScriptParser {
  import opened Wrappers
  import opened Text
  import opened Scan
  import opened Failures

  /** The two counts of a "Found E errors in F files" summary. */
  datatype Summary = Summary(errors: nat, files: nat)

  /** `Found\s+(\d+)\s+errors?`, case-insensitively: the error count, and the rest after "error(s)". */
  function FoundAt(t: string): Option<Num>
  {
    var a :- LitI(t, "Found");
    var b :- Ws1(a);
    CountWord(b, "error")
  }

  /** `\s+in\s+(\d+)\s+files?` */
  function InFilesAt(t: string): Option<Num>
  {
    var a :- Ws1(t);
    var b :- LitI(a, "in");
    var c :- Ws1(b);
    CountWord(c, "file")
  }

  /** `/Found\s+(\d+)\s+errors?\s+in\s+(\d+)\s+files?/i` at the start of `t`. */
  function SummaryAt(t: string): Option<Summary>
  {
    var e :- FoundAt(t);
    var f :- InFilesAt(e.rest);
    Some(Summary(e.Value(), f.Value()))
  }

  /** `/Found\s+(\d+)\s+errors?/i` at the start of `t`. */
  function FallbackAt(t: string): Option<nat>
  {
    var e :- FoundAt(t);
    Some(e.Value())
  }

  /** `\(\d+,\d+\):` */
  function PositionAt(t: string): Option<string>
  {
    var a :- Lit(t, "(");
    var b :- Digits1(a);
    var c :- Lit(b.rest, ",");
    var d :- Digits1(c);
    Lit(d.rest, "):")
  }

  /** `\s+error\s+TS\d+:`, case-insensitively; "error" takes no plural here. */
  function CodeAt(t: string): Option<string>
  {
    var w :- Ws1(t);
    var a :- LitI(w, "error");
    var b :- Ws1(a);
    var c :- LitI(b, "TS");
    var d :- Digits1(c);
    Lit(d.rest, ":")
  }

  /**
   * `([^\s][^(]+)\(\d+,\d+\):\s+error\s+TS\d+:` at the start of `t`: the captured file part
   * and the rest. The group runs from a non-space through every character up to the first
   * `(` after it (it may cross line ends), and needs at least two characters.
   */
  function ErrorLineAt(t: string): (r: Option<(string, string)>)
    ensures r.Some? ==> r.value.0 != [] && !IsSpace(r.value.0[0])
  {
    if t == [] || IsSpace(t[0]) then None
    else
      var k := 1 + IndexOf(t[1..], '(');
      if k < 2 || k >= |t| then None
      else
        var a :- PositionAt(t[k..]);
        var b :- CodeAt(a);
        Some((t[..k], b))
  }

  /** The same pattern under the `m` flag, at index i of the whole output: `^` holds at a line start. */
  function LineAt(s: string, i: nat): Option<Hit<string>>
  {
    if i > |s| || (i > 0 && !IsLineTerminator(s[i - 1])) then None
    else match ErrorLineAt(s[i..])
      case None => None
      case Some(m) => Some(Hit(m.0, EndOf(s, m.1)))
  }

  /** The file part of every error line, in order: `Array.from(output.matchAll(...))` mapped to group 1. */
  function ErrorLines(s: string): seq<string>
  {
    MatchAll(LineMatcher(s), 0, |s|)
  }

  /** The pattern tried at each index of the output. */
  function LineMatcher(s: string): nat -> Option<Hit<string>>
  {
    (i: nat) => LineAt(s, i)
  }

  /** The distinct trimmed, non-empty file names of the error lines. */
  function FileNames(lines: seq<string>): set<string>
  {
    if lines == [] then {}
    else (if Trim(lines[0]) != [] then {Trim(lines[0])} else {}) + FileNames(lines[1..])
  }

  function ParseTypeCheck(output: string): (r: Option<ParsedFailure>)
    ensures r.Some? ==> r.value.errors.Some? && r.value.errors.value > 0 && r.value.warnings.None?
  {
    var summary := Search(output, SummaryAt);
    if summary.Some? && summary.value.errors > 0 then
      var e := summary.value.errors;
      Some(ParsedFailure("Failed - " + NatToString(e) + " errors in " + Counted(summary.value.files, "file"), Some(e), None))
    else
      match Search(output, FallbackAt)
      case None =>
        var lines := ErrorLines(output);
        if |lines| == 0 then None
        else
          var files := |FileNames(lines)|;
          Some(ParsedFailure("Failed - " + NatToString(|lines|) + " errors in " + Counted(files, "file"), Some(|lines|), None))
      case Some(count) =>
        if count == 0 then None
        else Some(ParsedFailure("Failed - " + NatToString(count) + " errors", Some(count), None))
  }

  /** The summary pattern extends the fallback pattern, so where a summary matches the fallback matches with the same count. */
  lemma SummaryExtendsFallback(t: string)
    ensures SummaryAt(t).Some? ==> FallbackAt(t) == Some(SummaryAt(t).value.errors)
  {
  }

  /** Hence the per-line count is used only when no "Found N error" text occurs at all. */
  lemma SummaryImpliesFallback(output: string)
    ensures Search(output, SummaryAt).Some? ==> Search(output, FallbackAt).Some?
  {
    forall t ensures SummaryAt(t).Some? ==> FallbackAt(t).Some? {
      SummaryExtendsFallback(t);
    }
    SearchImplied(output, SummaryAt, FallbackAt);
  }

  /** A summary with E > 0 errors in F files fails with E errors; "errors" is always plural, "file" singular iff F = 1. */
  lemma TypeCheckSummary(output: string, e: nat, f: nat)
    requires Search(output, SummaryAt) == Some(Summary(e, f)) && e > 0
    ensures ParseTypeCheck(output) == Some(ParsedFailure("Failed - " + NatToString(e) + " errors in " + Counted(f, "file"), Some(e), None))
  {
  }

  /** With no usable summary, a leftmost "Found 0 errors" means no failure. */
  lemma TypeCheckZeroFallback(output: string)
    requires Search(output, SummaryAt).None? || Search(output, SummaryAt).value.errors == 0
    requires Search(output, FallbackAt) == Some(0)
    ensures ParseTypeCheck(output).None?
  {
  }

  /** With no usable summary, a leftmost "Found N errors", N > 0, fails with N errors. */
  lemma TypeCheckFallback(output: string, n: nat)
    requires Search(output, SummaryAt).None? || Search(output, SummaryAt).value.errors == 0
    requires Search(output, FallbackAt) == Some(n) && n > 0
    ensures ParseTypeCheck(output) == Some(ParsedFailure("Failed - " + NatToString(n) + " errors", Some(n), None))
  {
  }

  /**
   * Without any "Found N error" text the errors are the error lines and the files their
   * distinct names; with no error line either, nothing is reported.
   */
  lemma TypeCheckErrorLines(output: string)
    requires Search(output, FallbackAt).None?
    ensures var lines := ErrorLines(output);
      ParseTypeCheck(output) ==
        if |lines| == 0 then None
        else Some(ParsedFailure("Failed - " + NatToString(|lines|) + " errors in " + Counted(|FileNames(lines)|, "file"), Some(|lines|), None))
  {
    SummaryImpliesFallback(output);
  }

  /** Every error line has a non-empty trimmed name, so the `filter(Boolean)` drops nothing. */
  lemma {:induction false} ErrorLinesNamed(s: string, i: nat)
    ensures forall g :: g in MatchAll(LineMatcher(s), i, |s|) ==> Trim(g) != []
    decreases |s| + 1 - i
  {
    var at := LineMatcher(s);
    if i <= |s| {
      match at(i)
      case None =>
        ErrorLinesNamed(s, i + 1);
      case Some(h) =>
        ErrorLinesNamed(s, if h.end > i then h.end else i + 1);
        var m := ErrorLineAt(s[i..]).value;
        TrimShape(m.0);
    }
  }

  /** There are at most as many distinct files as error lines, and at least one when some line has a name. */
  lemma {:induction false} FileNamesBounds(lines: seq<string>)
    ensures |FileNames(lines)| <= |lines|
    ensures (exists g :: g in lines && Trim(g) != []) ==> |FileNames(lines)| >= 1
  {
    if lines != [] {
      FileNamesBounds(lines[1..]);
      if Trim(lines[0]) == [] {
        assert forall g :: g in lines && g != lines[0] ==> g in lines[1..];
      }
    }
  }

  /** The per-line failure reports between 1 and |lines| files. */
  lemma ErrorLineFiles(output: string)
    requires ErrorLines(output) != []
    ensures 1 <= |FileNames(ErrorLines(output))| <= |ErrorLines(output)|
  {
    var lines := ErrorLines(output);
    ErrorLinesNamed(output, 0);
    assert lines[0] in lines;
    FileNamesBounds(lines);
  }

  /** What tsc prints after "Found": " E error(s) in F file(s)". */
  function FoundText(e: nat, f: nat, rest: string): string
  {
    " " + (Counted(e, "error") + InFilesText(f, rest))
  }

  function InFilesText(f: nat, rest: string): string
  {
    " " + ("in" + (" " + (Counted(f, "file") + rest)))
  }

  /** The summary line tsc prints, followed by any text. */
  function SummaryText(e: nat, f: nat, rest: string): string
  {
    "Found" + FoundText(e, f, rest)
  }

  lemma {:induction false} FoundAtText(e: nat, f: nat, rest: string)
    ensures FoundAt(SummaryText(e, f, rest)) == Some(Num(NatToString(e), InFilesText(f, rest)))
  {
    NatToStringDigits(e);
    LitIOf("Found", FoundText(e, f, rest));
    Ws1Of(" ", Counted(e, "error") + InFilesText(f, rest));
    CountWordOf(e, "error", InFilesText(f, rest));
  }

  lemma {:induction false} InFilesAtText(f: nat, rest: string)
    requires NotS(rest)
    ensures InFilesAt(InFilesText(f, rest)) == Some(Num(NatToString(f), rest))
  {
    var t := Counted(f, "file") + rest;
    Ws1Of(" ", "in" + (" " + t));
    LitIOf("in", " " + t);
    InFilesTail(f, rest);
  }

  lemma {:induction false} InFilesTail(f: nat, rest: string)
    requires NotS(rest)
    ensures var c := Ws1(" " + (Counted(f, "file") + rest));
      c == Some(Counted(f, "file") + rest) && CountWord(c.value, "file") == Some(Num(NatToString(f), rest))
  {
    NatToStringDigits(f);
    Ws1Of(" ", Counted(f, "file") + rest);
    CountWordOf(f, "file", rest);
  }

  lemma {:induction false} SummaryAtText(e: nat, f: nat, rest: string)
    requires NotS(rest)
    ensures SummaryAt(SummaryText(e, f, rest)) == Some(Summary(e, f))
    ensures FallbackAt(SummaryText(e, f, rest)) == Some(e)
  {
    FoundAtText(e, f, rest);
    InFilesAtText(f, rest);
    NumberOfNatToString(e);
    NumberOfNatToString(f);
  }

  /** tsc's own summary line is read back: E > 0 errors fail with that count in F files; "Found 0 errors in F files" passes. */
  lemma TypeCheckRoundTrip(e: nat, f: nat, rest: string)
    requires NotS(rest)
    ensures ParseTypeCheck(SummaryText(e, f, rest)) ==
      if e == 0 then None
      else Some(ParsedFailure("Failed - " + NatToString(e) + " errors in " + Counted(f, "file"), Some(e), None))
  {
    var s := SummaryText(e, f, rest);
    SummaryAtText(e, f, rest);
    SearchAtStart(s, SummaryAt);
    SearchAtStart(s, FallbackAt);
  }

  /** A text in which neither "f" nor "F" occurs, so no "Found" or "file" can be read in it. */
  predicate NoF(t: string)
  {
    'f' !in t && 'F' !in t
  }

  lemma NoFSuffix(t: string, k: nat)
    requires NoF(t) && k <= |t|
    ensures NoF(t[k..])
  {
    assert forall j :: 0 <= j < |t| - k ==> t[k..][j] == t[k + j];
  }

  lemma DigitsNoF(n: nat)
    ensures NoF(NatToString(n))
  {
    NatToStringDigits(n);
  }

  /** None of the three patterns matches where the text does not start with "f" or "F". */
  lemma NoFoundAt(t: string)
    requires t == [] || Lower(t[0]) != 'f'
    ensures FoundAt(t).None? && SummaryAt(t).None? && FallbackAt(t).None?
  {
  }

  lemma LowerF(c: char)
    requires Lower(c) == 'f'
    ensures c == 'f' || c == 'F'
  {
    if 'A' <= c <= 'Z' {
      assert (c as int + 32) as char as int == c as int + 32;
      assert c as int == 70;
    }
  }

  /** `\s+files?` matches only where an "f" or "F" comes after the blanks. */
  lemma SpacedFileHasF(t: string)
    ensures SpacedWord(t, "file").Some? ==> !NoF(t)
  {
    if SpacedWord(t, "file").Some? {
      var w := Ws1(t).value;
      Ws1Suffix(t);
      assert LitI(w, "file").Some?;
      assert Lower(w[0]) == 'f';
      LowerF(w[0]);
      assert t[|t| - |w|] == w[0];
      assert w[0] in t;
    }
  }

  lemma SuffixNoF(u: string, t: string)
    requires SuffixOf(u, t) && NoF(t)
    ensures NoF(u)
  {
    NoFSuffix(t, |t| - |u|);
  }

  /** `\s+in\s+(\d+)\s+files?` matches only where an "f" or "F" follows. */
  lemma InFilesHasF(t: string)
    ensures InFilesAt(t).Some? ==> !NoF(t)
  {
    if InFilesAt(t).Some? && NoF(t) {
      var a := Ws1(t).value;
      Ws1Suffix(t);
      SuffixNoF(a, t);
      var b := LitI(a, "in").value;
      LitISuffix(a, "in");
      SuffixNoF(b, a);
      var c := Ws1(b).value;
      Ws1Suffix(b);
      SuffixNoF(c, b);
      var n := Digits1(c).value;
      Digits1Suffix(c);
      SuffixNoF(n.rest, c);
      SpacedFileHasF(n.rest);
    }
  }

  lemma NoInFilesAt(t: string)
    requires NoF(t)
    ensures InFilesAt(t).None?
  {
    InFilesHasF(t);
  }

  /** A text without "f" holds neither a summary nor a "Found N errors" anywhere. */
  lemma NoFallback(t: string)
    requires NoF(t)
    ensures Search(t, SummaryAt).None? && Search(t, FallbackAt).None?
  {
    forall k | 0 <= k <= |t|
      ensures SummaryAt(t[k..]).None? && FallbackAt(t[k..]).None?
    {
      if k < |t| {
        assert t[k..][0] == t[k] && t[k] in t;
      }
      NoFoundAt(t[k..]);
    }
  }

  /** What tsc prints when it gives the error count alone: "Found N error(s)", then text without "f". */
  function FallbackText(n: nat, rest: string): string
  {
    "Found" + (" " + (Counted(n, "error") + rest))
  }

  lemma {:induction false} FallbackFoundAt(n: nat, rest: string)
    requires NotS(rest)
    ensures FoundAt(FallbackText(n, rest)) == Some(Num(NatToString(n), rest))
    ensures FallbackAt(FallbackText(n, rest)) == Some(n)
  {
    NatToStringDigits(n);
    LitIOf("Found", " " + (Counted(n, "error") + rest));
    Ws1Of(" ", Counted(n, "error") + rest);
    CountWordOf(n, "error", rest);
    NumberOfNatToString(n);
  }

  /** Past its first letter, the text holds no "Found" anywhere. */
  lemma FallbackTail(n: nat, rest: string)
    requires NoF(rest)
    ensures var t := FallbackText(n, rest); NoF(t[1..])
  {
    DigitsNoF(n);
    assert NoF(Noun(n, "error"));
    assert FallbackText(n, rest)[1..] == "ound" + (" " + (Counted(n, "error") + rest));
  }

  /**
   * A "Found N errors" without "in F files" is read back: no failure for 0, and a failure with
   * N errors and the message "Failed - N errors" otherwise.
   */
  lemma FallbackRoundTrip(n: nat, rest: string)
    requires NotS(rest) && NoF(rest)
    ensures ParseTypeCheck(FallbackText(n, rest)) ==
      if n == 0 then None else Some(ParsedFailure("Failed - " + NatToString(n) + " errors", Some(n), None))
  {
    FallbackSearches(n, rest);
  }

  /** In the fallback text the leftmost "Found N error" is N, and there is no summary. */
  lemma FallbackSearches(n: nat, rest: string)
    requires NotS(rest) && NoF(rest)
    ensures Search(FallbackText(n, rest), FallbackAt) == Some(n)
    ensures Search(FallbackText(n, rest), SummaryAt).None?
  {
    var t := FallbackText(n, rest);
    assert Search(t, FallbackAt) == Some(n) by {
      FallbackFoundAt(n, rest);
      SearchAtStart(t, FallbackAt);
    }
    NoSummaryInFallback(n, rest);
  }

  lemma NoSummaryInFallback(n: nat, rest: string)
    requires NotS(rest) && NoF(rest)
    ensures Search(FallbackText(n, rest), SummaryAt).None?
  {
    var t := FallbackText(n, rest);
    assert SummaryAt(t).None? by {
      FallbackFoundAt(n, rest);
      NoInFilesAt(rest);
    }
    assert Search(t[1..], SummaryAt).None? by {
      FallbackTail(n, rest);
      NoFallback(t[1..]);
    }
    SearchPastStart(t, SummaryAt);
  }

  /** One line of tsc's error listing: `file(line,col): error TScode: message`. */
  datatype Diagnostic = Diagnostic(file: string, line: nat, col: nat, code: nat, message: string)

  /**
   * A listing line as tsc prints it, with `word` where tsc prints "error", up to the code's
   * colon, followed by `tail`.
   */
  function LineText(d: Diagnostic, word: string, tail: string): string
  {
    d.file + ("(" + (NatToString(d.line) + ("," + (NatToString(d.col) + ("):" + (" " + (word +
      (" " + ("TS" + (NatToString(d.code) + (":" + tail)))))))))))
  }

  /** The lines with their messages, joined by line feeds. */
  function Listing(ds: seq<Diagnostic>): string
    decreases |ds|, 0
  {
    if ds == [] then "" else LineText(ds[0], "error", " " + (ds[0].message + More(ds[1..])))
  }

  /** The line feed and the lines after a line, if any. */
  function More(ds: seq<Diagnostic>): string
    decreases |ds|, 1
  {
    if ds == [] then "" else "\n" + Listing(ds)
  }

  function Files(ds: seq<Diagnostic>): (r: seq<string>)
    ensures |r| == |ds|
  {
    if ds == [] then [] else [ds[0].file] + Files(ds[1..])
  }

  /** A file part the pattern captures whole: at least two characters, a non-space first and no `(`. */
  predicate CapturableFile(file: string)
  {
    |file| >= 2 && !IsSpace(file[0]) && '(' !in file
  }

  /** A listing line whose file the pattern captures whole, with a message on one line. */
  predicate Capturable(d: Diagnostic)
  {
    CapturableFile(d.file) && forall k :: 0 <= k < |d.message| ==> !IsLineTerminator(d.message[k])
  }

  /** The tail follows the code's colon. */
  lemma LineTextEnds(d: Diagnostic, word: string, tail: string)
    ensures var t := LineText(d, word, tail);
      |t| > |tail| && t[|t| - |tail|..] == tail && t[|t| - |tail| - 1] == ':'
  {
  }

  /** `\(\d+,\d+\):` reads the printed position. */
  lemma {:induction false} PositionAtText(d: Diagnostic, rest: string)
    ensures PositionAt("(" + (NatToString(d.line) + ("," + (NatToString(d.col) + ("):" + rest))))) == Some(rest)
  {
    var afterLine := "," + (NatToString(d.col) + ("):" + rest));
    LitOf("(", NatToString(d.line) + afterLine);
    NumberRoundTrip(d.line, afterLine);
    LitOf(",", NatToString(d.col) + ("):" + rest));
    NumberRoundTrip(d.col, "):" + rest);
    LitOf("):", rest);
  }

  /** `\s+error\s+TS\d+:` reads the printed word and code, and leaves what follows the colon. */
  lemma {:induction false} CodeAtText(code: nat, tail: string)
    ensures CodeAt(" " + ("error" + (" " + ("TS" + (NatToString(code) + (":" + tail)))))) == Some(tail)
  {
    var c := NatToString(code);
    Ws1Of(" ", "error" + (" " + ("TS" + (c + (":" + tail)))));
    LitIOf("error", " " + ("TS" + (c + (":" + tail))));
    Ws1Of(" ", "TS" + (c + (":" + tail)));
    LitIOf("TS", c + (":" + tail));
    NumberRoundTrip(code, ":" + tail);
    LitOf(":", tail);
  }

  /** "errors" in place of "error" is not read: `error\s+` admits no plural. */
  lemma {:induction false} CodeAtPlural(code: nat, tail: string)
    ensures CodeAt(" " + ("errors" + (" " + ("TS" + (NatToString(code) + (":" + tail)))))).None?
  {
    var after := " " + ("TS" + (NatToString(code) + (":" + tail)));
    assert "errors" + after == "error" + ("s" + after);
    Ws1Of(" ", "error" + ("s" + after));
    LitIOf("error", "s" + after);
  }

  /** The file part runs up to the first `(`, so a capturable file is captured whole. */
  lemma ErrorLineStart(file: string, rest: string)
    requires CapturableFile(file)
    requires rest != [] && rest[0] == '('
    ensures ErrorLineAt(file + rest) ==
      match PositionAt(rest)
      case None => None
      case Some(a) => match CodeAt(a) case None => None case Some(b) => Some((file, b))
  {
    var t := file + rest;
    var u := t[1..];
    assert u == file[1..] + rest;
    assert u[|file| - 1] == '(';
    assert forall j :: 0 <= j < |file| - 1 ==> u[j] == file[j + 1];
    assert IndexOf(u, '(') == |file| - 1;
    assert t[..|file|] == file && t[|file|..] == rest;
  }

  /** A printed line is read by the error-line pattern: its file is captured, and the match ends at the code's colon. */
  lemma ErrorLineAtText(d: Diagnostic, tail: string)
    requires CapturableFile(d.file)
    ensures ErrorLineAt(LineText(d, "error", tail)) == Some((d.file, tail))
  {
    var code := " " + ("error" + (" " + ("TS" + (NatToString(d.code) + (":" + tail)))));
    ErrorLineStart(d.file, "(" + (NatToString(d.line) + ("," + (NatToString(d.col) + ("):" + code)))));
    PositionAtText(d, code);
    CodeAtText(d.code, tail);
  }

  /** A line that says "errors" instead of "error" is not an error line. */
  lemma ErrorLinePlural(d: Diagnostic, tail: string)
    requires CapturableFile(d.file)
    ensures ErrorLineAt(LineText(d, "errors", tail)).None?
  {
    var code := " " + ("errors" + (" " + ("TS" + (NatToString(d.code) + (":" + tail)))));
    ErrorLineStart(d.file, "(" + (NatToString(d.line) + ("," + (NatToString(d.col) + ("):" + code)))));
    PositionAtText(d, code);
    CodeAtPlural(d.code, tail);
  }

  lemma LineAtOf(s: string, i: nat, file: string, tail: string, end: int)
    requires i <= |s| && ErrorLineAt(s[i..]) == Some((file, tail))
    requires i == 0 || IsLineTerminator(s[i - 1])
    requires end == |s| - |tail| >= 0
    ensures LineAt(s, i) == Some(Hit(file, end))
  {
    assert EndOf(s, tail) == end;
  }

  lemma SuffixAt(s: string, i: nat, tail: string, end: int)
    requires i <= |s| && end == |s| - |tail|
    requires var t := s[i..]; |t| > |tail| && t[|t| - |tail|..] == tail && t[|t| - |tail| - 1] == ':'
    ensures i < end && s[end..] == tail && s[end - 1] == ':'
  {
    var t := s[i..];
    assert s[end..] == t[|t| - |tail|..];
    assert s[end - 1] == t[|t| - |tail| - 1];
  }

  /** At a line start holding a printed line, the pattern captures its file and ends at the code's colon. */
  lemma LineMatch(s: string, i: nat, d: Diagnostic, tail: string, end: int)
    requires i <= |s| && s[i..] == LineText(d, "error", tail)
    requires i == 0 || IsLineTerminator(s[i - 1])
    requires CapturableFile(d.file)
    requires end == |s| - |tail|
    ensures i < end && LineAt(s, i) == Some(Hit(d.file, end))
    ensures s[end..] == tail && s[end - 1] == ':'
  {
    ErrorLineAtText(d, tail);
    LineTextEnds(d, "error", tail);
    SuffixAt(s, i, tail, end);
    LineAtOf(s, i, d.file, tail, end);
  }

  /** No match begins inside a line. */
  lemma InsideLine(s: string, a: nat, b: nat)
    requires 0 < a && b <= |s| + 1
    requires forall j :: a - 1 <= j < b - 1 ==> !IsLineTerminator(s[j])
    ensures forall j :: a <= j < b ==> LineAt(s, j).None?
  {
  }

  /** After a captured line, no match starts before the line feed that ends its message. */
  lemma MessageSkip(s: string, end: nat, msg: string, more: string)
    requires 0 < end && end + 1 + |msg| + |more| == |s|
    requires s[end..] == " " + (msg + more) && s[end - 1] == ':'
    requires forall k :: 0 <= k < |msg| ==> !IsLineTerminator(msg[k])
    ensures s[end + 1 + |msg|..] == more
    ensures forall j :: end <= j < end + |msg| + 2 ==> LineAt(s, j).None?
  {
    var tail := " " + (msg + more);
    assert s[end + 1 + |msg|..] == tail[|msg| + 1..];
    forall j | end - 1 <= j < end + |msg| + 1
      ensures !IsLineTerminator(s[j])
    {
      if j > end {
        assert s[j] == tail[j - end] == msg[j - end - 1];
      } else if j == end {
        assert s[j] == tail[0];
      }
    }
    InsideLine(s, end, end + |msg| + 2);
  }

  /** A line's match is kept, and where the pattern then fails to match up to `next`, the scan resumes there. */
  lemma ScanLine(s: string, i: nat, file: string, end: nat, next: nat)
    requires LineAt(s, i) == Some(Hit(file, end)) && i < end <= next <= |s| + 1
    requires forall j :: end <= j < next ==> LineAt(s, j).None?
    ensures MatchAll(LineMatcher(s), i, |s|) == [file] + MatchAll(LineMatcher(s), next, |s|)
  {
    MatchAllHitSkip(LineMatcher(s), i, next, |s|, Hit(file, end));
  }

  /** A captured line ending in a one-line message adds its file to the scan, which goes on after the message. */
  lemma CapturedLine(s: string, i: nat, end: nat, next: nat, file: string, msg: string, more: string)
    requires i < end && end + 1 + |msg| + |more| == |s| && next == end + |msg| + 2
    requires LineAt(s, i) == Some(Hit(file, end))
    requires s[end..] == " " + (msg + more) && s[end - 1] == ':'
    requires forall k :: 0 <= k < |msg| ==> !IsLineTerminator(msg[k])
    ensures s[next - 1..] == more
    ensures MatchAll(LineMatcher(s), i, |s|) == [file] + MatchAll(LineMatcher(s), next, |s|)
  {
    MessageSkip(s, end, msg, more);
    ScanLine(s, i, file, end, next);
  }

  /** The first line of a listing adds its file to the scan, which goes on after the line feed. */
  lemma ListingHead(s: string, i: nat, d: Diagnostic, more: string, next: nat)
    requires i <= |s| && s[i..] == LineText(d, "error", " " + (d.message + more))
    requires i == 0 || IsLineTerminator(s[i - 1])
    requires Capturable(d)
    requires next == |s| - |more| + 1
    ensures s[next - 1..] == more
    ensures MatchAll(LineMatcher(s), i, |s|) == [d.file] + MatchAll(LineMatcher(s), next, |s|)
  {
    var tail := " " + (d.message + more);
    var end := |s| - |tail|;
    LineMatch(s, i, d, tail, end);
    CapturedLine(s, i, end, next, d.file, d.message, more);
  }

  /** From a line start, the global scan of a listing captures each line's file, in order. */
  lemma {:induction false} ListingLines(s: string, ds: seq<Diagnostic>, i: nat)
    requires i <= |s| && s[i..] == Listing(ds)
    requires i == 0 || IsLineTerminator(s[i - 1])
    requires forall k :: 0 <= k < |ds| ==> Capturable(ds[k])
    ensures MatchAll(LineMatcher(s), i, |s|) == Files(ds)
    decreases |ds|
  {
    if ds == [] {
      assert LineAt(s, i).None?;
    } else {
      var more := More(ds[1..]);
      var next := |s| - |more| + 1;
      assert Capturable(ds[0]);
      ListingHead(s, i, ds[0], more, next);
      if ds[1..] != [] {
        assert s[next - 1] == more[0] == '\n';
        assert s[next..] == more[1..] == Listing(ds[1..]);
        ListingLines(s, ds[1..], next);
      }
    }
  }

  lemma NoFCat(a: string, b: string)
    requires NoF(a) && NoF(b)
    ensures NoF(a + b)
  {
  }

  /** A printed line holds an "f" only in its file, its word or what follows. */
  lemma LineTextNoF(d: Diagnostic, word: string, tail: string)
    requires NoF(d.file) && NoF(word) && NoF(tail)
    ensures NoF(LineText(d, word, tail))
  {
    DigitsNoF(d.line);
    DigitsNoF(d.col);
    DigitsNoF(d.code);
    var code := " " + ("TS" + (NatToString(d.code) + (":" + tail)));
    assert NoF(code) by {
      NoFCat(":", tail);
      NoFCat(NatToString(d.code), ":" + tail);
      NoFCat("TS", NatToString(d.code) + (":" + tail));
      NoFCat(" ", "TS" + (NatToString(d.code) + (":" + tail)));
    }
    var pos := "):" + (" " + (word + code));
    assert NoF(pos) by {
      NoFCat(word, code);
      NoFCat(" ", word + code);
      NoFCat("):", " " + (word + code));
    }
    assert NoF("(" + (NatToString(d.line) + ("," + (NatToString(d.col) + pos)))) by {
      NoFCat(NatToString(d.col), pos);
      NoFCat(",", NatToString(d.col) + pos);
      NoFCat(NatToString(d.line), "," + (NatToString(d.col) + pos));
      NoFCat("(", NatToString(d.line) + ("," + (NatToString(d.col) + pos)));
    }
    NoFCat(d.file, "(" + (NatToString(d.line) + ("," + (NatToString(d.col) + pos))));
  }

  /** A listing with no "f" in its files and messages holds no "f" at all. */
  lemma {:induction false} ListingNoF(ds: seq<Diagnostic>)
    requires forall k :: 0 <= k < |ds| ==> NoF(ds[k].file) && NoF(ds[k].message)
    ensures NoF(Listing(ds))
    decreases |ds|
  {
    if ds != [] {
      var more := More(ds[1..]);
      if ds[1..] != [] {
        ListingNoF(ds[1..]);
        NoFCat("\n", Listing(ds[1..]));
      }
      assert NoF(ds[0].message);
      NoFCat(ds[0].message, more);
      NoFCat(" ", ds[0].message + more);
      LineTextNoF(ds[0], "error", " " + (ds[0].message + more));
    }
  }

  /**
   * A listing of error lines fails with one error per line, in as many files as the lines name,
   * as long as no "Found N error" text occurs in it (such text sends the parser to the count it
   * gives instead, as FallbackRoundTrip and TypeCheckRoundTrip state).
   */
  lemma TypeCheckListing(ds: seq<Diagnostic>)
    requires ds != []
    requires forall k :: 0 <= k < |ds| ==> Capturable(ds[k])
    requires Search(Listing(ds), FallbackAt).None?
    ensures ParseTypeCheck(Listing(ds)) ==
      Some(ParsedFailure("Failed - " + NatToString(|ds|) + " errors in " + Counted(|FileNames(Files(ds))|, "file"), Some(|ds|), None))
  {
    var s := Listing(ds);
    assert s[0..] == s;
    ListingLines(s, ds, 0);
    TypeCheckErrorLines(s);
  }

  /** A listing with no "f" in its files and messages holds no "Found N error" text. */
  lemma ListingNoFallback(ds: seq<Diagnostic>)
    requires forall k :: 0 <= k < |ds| ==> NoF(ds[k].file) && NoF(ds[k].message)
    ensures Search(Listing(ds), FallbackAt).None?
  {
    ListingNoF(ds);
    NoFallback(Listing(ds));
  }

  lemma ThreeInTwoMessage()
    ensures "Failed - " + NatToString(3) + " errors in " + Counted(2, "file") == "Failed - 3 errors in 2 files"
  {
    var files := Counted(2, "file");
    assert NatToString(3) == "3";
    assert files == "2 files" by {
      assert NatToString(2) == "2";
      assert Noun(2, "file") == "files";
    }
    var head := "Failed - " + NatToString(3);
    assert head == "Failed - 3";
    assert head + " errors in " == "Failed - 3 errors in ";
  }

  lemma FilesOfThree(d0: Diagnostic, d1: Diagnostic, d2: Diagnostic)
    ensures Files([d0, d1, d2]) == [d0.file, d1.file, d2.file]
  {
    assert Files([d2]) == [d2.file] by {
      assert [d2][1..] == [];
    }
    assert Files([d1, d2]) == [d1.file, d2.file] by {
      assert [d1, d2][1..] == [d2];
    }
    assert [d0, d1, d2][1..] == [d1, d2];
  }

  lemma FileNamesOfThree(a: string, b: string)
    requires Trim(a) == a && Trim(b) == b && a != [] && b != []
    ensures FileNames([a, a, b]) == {a, b}
  {
    assert FileNames([b]) == {b} by {
      assert [b][1..] == [];
    }
    assert FileNames([a, b]) == {a, b} by {
      assert [a, b][1..] == [b];
    }
    assert [a, a, b][1..] == [a, b];
  }

  /** Three lines of which the first two name the same file: three errors in two files. */
  lemma TypeCheckSharedFile(d0: Diagnostic, d1: Diagnostic, d2: Diagnostic)
    requires Capturable(d0) && Capturable(d1) && Capturable(d2)
    requires Search(Listing([d0, d1, d2]), FallbackAt).None?
    requires d0.file == d1.file && d1.file != d2.file
    requires Trim(d0.file) == d0.file && Trim(d2.file) == d2.file
    ensures ParseTypeCheck(Listing([d0, d1, d2])) == Some(ParsedFailure("Failed - 3 errors in 2 files", Some(3), None))
  {
    var ds := [d0, d1, d2];
    TypeCheckListing(ds);
    FilesOfThree(d0, d1, d2);
    FileNamesOfThree(d0.file, d2.file);
    ThreeInTwoMessage();
  }

  /** The example's file names: captured whole, already trimmed, no "f". */
  lemma ExampleFile(file: string)
    requires file == "src/a.ts" || file == "src/b.ts"
    ensures CapturableFile(file) && NoF(file) && Trim(file) == file
  {
    TrimUnchanged(file);
  }

  /** The example's messages: one line each, no "f". */
  lemma ExampleMessage(message: string)
    requires message == "Example" || message == "Another" || message == "Something"
    ensures NoF(message)
    ensures forall k :: 0 <= k < |message| ==> !IsLineTerminator(message[k])
  {
  }

  /** The lines of the three-line example meet what the error-line pattern needs. */
  lemma ExampleLines(d0: Diagnostic, d1: Diagnostic, d2: Diagnostic)
    requires d0 == Diagnostic("src/a.ts", 1, 2, 1234, "Example")
    requires d1 == Diagnostic("src/a.ts", 2, 2, 1111, "Another")
    requires d2 == Diagnostic("src/b.ts", 5, 1, 2222, "Something")
    ensures Capturable(d0) && Capturable(d1) && Capturable(d2)
    ensures NoF(d0.file) && NoF(d0.message) && NoF(d1.file) && NoF(d1.message) && NoF(d2.file) && NoF(d2.message)
    ensures d0.file == d1.file && d1.file != d2.file
    ensures Trim(d0.file) == d0.file && Trim(d2.file) == d2.file
  {
    ExampleFile(d0.file);
    ExampleFile(d2.file);
    ExampleMessage(d0.message);
    ExampleMessage(d1.message);
    ExampleMessage(d2.message);
    assert d0.file[4] != d2.file[4];
  }

  /** The three-line example over src/a.ts and src/b.ts reports "3 errors in 2 files". */
  lemma TypeCheckThreeLinesTwoFiles(d0: Diagnostic, d1: Diagnostic, d2: Diagnostic)
    requires d0 == Diagnostic("src/a.ts", 1, 2, 1234, "Example")
    requires d1 == Diagnostic("src/a.ts", 2, 2, 1111, "Another")
    requires d2 == Diagnostic("src/b.ts", 5, 1, 2222, "Something")
    ensures ParseTypeCheck(Listing([d0, d1, d2])) == Some(ParsedFailure("Failed - 3 errors in 2 files", Some(3), None))
  {
    ExampleLines(d0, d1, d2);
    var ds := [d0, d1, d2];
    assert forall k :: 0 <= k < |ds| ==> NoF(ds[k].file) && NoF(ds[k].message);
    ListingNoFallback(ds);
    TypeCheckSharedFile(d0, d1, d2);
  }
}

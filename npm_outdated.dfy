/** The `npm outdated` output parser (src/config/parsers/npm-outdated/parser.ts). */
module NpmOutdatedParser {
  import opened Wrappers
  import opened Text
  import opened Scan
  import opened Failures

  /** A piece of `split(/\r?\n/)`: the piece of `split("\n")` without the `\r` it may end with. */
  function DropCR(piece: string): string
  {
    if |piece| > 0 && piece[|piece| - 1] == '\r' then piece[..|piece| - 1] else piece
  }

  function DropCRAll(pieces: seq<string>): (r: seq<string>)
    ensures |r| == |pieces|
  {
    if pieces == [] then [] else [DropCR(pieces[0])] + DropCRAll(pieces[1..])
  }

  /** The non-empty trimmed lines of the output. */
  function Lines(output: string): seq<string>
  {
    TrimmedNonEmpty(DropCRAll(SplitOn(output, '\n')))
  }

  /** `\s+w`, case-insensitively. */
  function Spaced(t: string, w: string): Option<string>
  {
    var a :- Ws1(t);
    LitI(a, w)
  }

  /** `/^package\s+current\s+wanted\s+latest/i` */
  function IsHeader(line: string): bool
  {
    match LitI(line, "package")
    case None => false
    case Some(a) => HeaderColumns(a)
  }

  function HeaderColumns(t: string): bool
  {
    var c := Spaced(t, "current");
    c.Some? && (var w := Spaced(c.value, "wanted"); w.Some? && Spaced(w.value, "latest").Some?)
  }

  /** `findIndex`: the first index whose line satisfies `p`, with |lines| standing for -1. */
  function FindIndex(lines: seq<string>, p: string -> bool): (k: nat)
    ensures k <= |lines|
    ensures forall j :: 0 <= j < k ==> !p(lines[j])
    ensures k < |lines| ==> p(lines[k])
  {
    if lines == [] then 0 else if p(lines[0]) then 0 else 1 + FindIndex(lines[1..], p)
  }

  /** The lines after the first header, or every line when there is none. */
  function DataLines(lines: seq<string>): seq<string>
  {
    var k := FindIndex(lines, IsHeader);
    if k < |lines| then lines[k + 1..] else lines
  }

  /** `/^npm\s+/i` */
  function IsNpmLine(line: string): bool
  {
    match LitI(line, "npm")
    case None => false
    case Some(a) => Ws1(a).Some?
  }

  /** `\s+([^\s]+)` */
  function NextToken(t: string): Option<Token>
  {
    var a :- Ws1(t);
    TokenAt(a)
  }

  /** The package, current and wanted columns of a table row. */
  datatype Row = Row(name: string, current: string, wanted: string)

  /** `/^(\S+)\s+([^\s]+)\s+([^\s]+)\s+([^\s]+)/` */
  function RowAt(line: string): (r: Option<Row>)
    ensures r.Some? ==> r.value.name != [] && StartsWith(line, r.value.name)
  {
    var name :- TokenAt(line);
    var current :- NextToken(name.rest);
    RowTail(name.text, current)
  }

  function RowTail(name: string, current: Token): Option<Row>
  {
    var wanted :- NextToken(current.rest);
    var latest :- NextToken(wanted.rest);
    Some(Row(name, current.text, wanted.text))
  }

  /** The package a data line reports as outdated, if it does: one step of the `reduce`. */
  function OutdatedName(line: string): Option<string>
  {
    var trimmed := Trim(line);
    if trimmed == [] || IsNpmLine(trimmed) then None
    else match RowAt(trimmed)
      case None => None
      case Some(row) => if row.current == row.wanted then None else Some(row.name)
  }

  /** The packages the `reduce` collects, in order. */
  function Outdated(lines: seq<string>): (r: seq<string>)
    ensures |r| <= |lines|
  {
    if lines == [] then []
    else
      var last := OutdatedName(lines[|lines| - 1]);
      Outdated(lines[..|lines| - 1]) + (if last.Some? then [last.value] else [])
  }

  /** The `reduce` over the data lines, pushing each outdated package onto the accumulator. */
  method CollectOutdated(lines: seq<string>) returns (acc: seq<string>)
    ensures acc == Outdated(lines)
  {
    acc := [];
    for i := 0 to |lines|
      invariant acc == Outdated(lines[..i])
    {
      assert lines[..i + 1][..i] == lines[..i];
      var name := OutdatedName(lines[i]);
      if name.Some? {
        acc := acc + [name.value];
      }
    }
    assert lines[..|lines|] == lines;
  }

  /** The verdict for K outdated packages. */
  function Verdict(count: nat): Option<ParsedFailure>
  {
    if count == 0 then None
    else Some(ParsedFailure("Failed - " + NatToString(count) + " outdated " + Noun(count, "package"), Some(count), None))
  }

  /** `parseNpmOutdated` as a value. */
  function ParseNpmOutdatedSpec(output: string): Option<ParsedFailure>
  {
    if Trim(output) == [] then None
    else
      var lines := Lines(output);
      if lines == [] then None else Verdict(|Outdated(DataLines(lines))|)
  }

  /** `parseNpmOutdated`: the blank check, the line clean-up, the header search, then the `reduce`. */
  method ParseNpmOutdated(output: string) returns (r: Option<ParsedFailure>)
    ensures r == ParseNpmOutdatedSpec(output)
  {
    if Trim(output) == [] {
      return None;
    }
    var lines := Lines(output);
    if lines == [] {
      return None;
    }
    var packages := CollectOutdated(DataLines(lines));
    if |packages| == 0 {
      return None;
    }
    return Some(ParsedFailure("Failed - " + NatToString(|packages|) + " outdated " + Noun(|packages|, "package"), Some(|packages|), None));
  }

  /** Output of whitespace only reports nothing. */
  lemma BlankOutput(output: string)
    requires IsBlank(output)
    ensures ParseNpmOutdatedSpec(output).None?
  {
    TrimShape(output);
  }

  /** With a header, the data lines are those after its first occurrence; without one, all lines. */
  lemma DataLinesAfterHeader(lines: seq<string>, k: nat)
    requires k < |lines| && IsHeader(lines[k])
    requires forall j :: 0 <= j < k ==> !IsHeader(lines[j])
    ensures DataLines(lines) == lines[k + 1..]
  {
  }

  lemma DataLinesWithoutHeader(lines: seq<string>)
    requires forall j :: 0 <= j < |lines| ==> !IsHeader(lines[j])
    ensures DataLines(lines) == lines
  {
  }

  /** Every line is non-empty and has no outer whitespace. */
  lemma LinesTrimmed(output: string)
    ensures forall k :: 0 <= k < |Lines(output)| ==> Lines(output)[k] != [] && Trim(Lines(output)[k]) == Lines(output)[k]
  {
    TrimmedNonEmptyTrimmed(DropCRAll(SplitOn(output, '\n')));
  }

  lemma {:induction false} OutdatedConcat(a: seq<string>, b: seq<string>)
    ensures Outdated(a + b) == Outdated(a) + Outdated(b)
    decreases |b|
  {
    if b != [] {
      assert (a + b)[..|a + b| - 1] == a + b[..|b| - 1];
      assert (a + b)[|a + b| - 1] == b[|b| - 1];
      OutdatedConcat(a, b[..|b| - 1]);
    } else {
      assert a + b == a;
    }
  }

  /** A line that reports nothing, such as an "npm …" notice, can be removed without changing the count. */
  lemma LineIgnored(a: seq<string>, line: string, b: seq<string>)
    requires OutdatedName(line).None?
    ensures Outdated(a + [line] + b) == Outdated(a + b)
  {
    OutdatedConcat(a + [line], b);
    OutdatedConcat(a, [line]);
    OutdatedConcat(a, b);
    assert [line][..0] == [];
  }

  /** Lines starting with "npm" and whitespace, and blank lines, are never counted. */
  lemma NpmLineIgnored(line: string)
    requires IsNpmLine(Trim(line)) || Trim(line) == []
    ensures OutdatedName(line).None?
  {
  }

  /** A counted line has four whitespace-separated columns, and its current and wanted versions differ. */
  lemma CountedLine(line: string)
    requires OutdatedName(line).Some?
    ensures RowAt(Trim(line)).Some?
    ensures var row := RowAt(Trim(line)).value;
      row.current != row.wanted && OutdatedName(line).value == row.name && row.name != [] && StartsWith(Trim(line), row.name)
  {
  }

  /** A zero count reports nothing; K outdated packages give "Failed - K outdated package(s)" with K errors. */
  lemma VerdictCases(count: nat)
    ensures Verdict(count).None? <==> count == 0
    ensures count > 0 ==> Verdict(count).value == ParsedFailure("Failed - " + NatToString(count) + " outdated " + Noun(count, "package"), Some(count), None)
  {
  }

  /** A table row as npm prints it: four columns, then the rest of the line. */
  function RowText(name: string, current: string, wanted: string, latest: string, rest: string): string
  {
    name + (" " + (current + (" " + (wanted + (" " + (latest + rest))))))
  }

  lemma NextTokenOf(s: string, rest: string)
    requires IsToken(s)
    requires rest == [] || IsSpace(rest[0])
    ensures NextToken(" " + (s + rest)) == Some(Token(s, rest))
  {
    assert Ws1(" " + (s + rest)) == Some(s + rest) by {
      assert (s + rest)[0] == s[0];
      Ws1Of(" ", s + rest);
    }
    TokenAtOf(s, rest);
  }

  /** The columns of a printed row are read back: package, current and wanted. */
  lemma RowAtText(name: string, current: string, wanted: string, latest: string, rest: string)
    requires IsToken(name) && IsToken(current) && IsToken(wanted) && IsToken(latest)
    requires rest == [] || IsSpace(rest[0])
    ensures RowAt(RowText(name, current, wanted, latest, rest)) == Some(Row(name, current, wanted))
  {
    var l := " " + (latest + rest);
    var w := " " + (wanted + l);
    var c := " " + (current + w);
    TokenAtOf(name, c);
    NextTokenOf(current, w);
    NextTokenOf(wanted, l);
    NextTokenOf(latest, rest);
  }

  /** A cleaned line ends in neither CR nor LF, so the `\r?\n` split gives the lines back. */
  lemma {:induction false} DropCRAllClean(pieces: seq<string>)
    requires forall k :: 0 <= k < |pieces| ==> pieces[k] == [] || pieces[k][|pieces[k]| - 1] != '\r'
    ensures DropCRAll(pieces) == pieces
  {
    if pieces != [] {
      DropCRAllClean(pieces[1..]);
      assert pieces == [pieces[0]] + pieces[1..];
    }
  }

  /** Printed lines that are non-empty, trimmed and free of LF are exactly what `Lines` reads back. */
  lemma LinesOfJoin(lines: seq<string>)
    requires lines != []
    requires forall k :: 0 <= k < |lines| ==> lines[k] != [] && Trim(lines[k]) == lines[k] && '\n' !in lines[k]
    ensures Lines(Join(lines, "\n")) == lines
  {
    assert "\n" == ['\n'];
    SplitOnJoin(lines, '\n');
    forall k | 0 <= k < |lines|
      ensures lines[k][|lines[k]| - 1] != '\r'
    {
      LastNotSpace(lines[k]);
    }
    DropCRAllClean(lines);
    TrimmedNonEmptyClean(lines);
  }

  lemma LastNotSpace(line: string)
    requires line != [] && Trim(line) == line
    ensures !IsSpace(line[|line| - 1])
  {
    TrimShape(line);
  }

  /** A case-insensitive literal matches a word that equals it up to ASCII case. */
  lemma LitIWord(word: string, lit: string, rest: string)
    requires |word| == |lit| && forall k :: 0 <= k < |lit| ==> Lower(word[k]) == Lower(lit[k])
    ensures LitI(word + rest, lit) == Some(rest)
  {
    assert (word + rest)[|lit|..] == rest;
    assert forall k :: 0 <= k < |lit| ==> (word + rest)[k] == word[k];
  }

  /** The header row as npm prints it. */
  const HeaderLine: string := "Package" + (" " + ("Current" + (" " + ("Wanted" + (" " + "Latest")))))

  lemma SpacedWord(word: string, lit: string, rest: string)
    requires word != [] && !IsSpace(word[0])
    requires |word| == |lit| && forall k :: 0 <= k < |lit| ==> Lower(word[k]) == Lower(lit[k])
    ensures Spaced(" " + (word + rest), lit) == Some(rest)
  {
    assert (word + rest)[0] == word[0];
    Ws1Of(" ", word + rest);
    LitIWord(word, lit, rest);
  }

  lemma HeaderLineIsHeader()
    ensures IsHeader(HeaderLine)
  {
    var l := " " + "Latest";
    var w := " " + ("Wanted" + l);
    var c := " " + ("Current" + w);
    LitIWord("Package", "package", c);
    SpacedWord("Current", "current", w);
    SpacedWord("Wanted", "wanted", l);
    SpacedWord("Latest", "latest", []);
    assert "Latest" + [] == "Latest";
  }

  lemma HeaderLineClean()
    ensures HeaderLine != [] && Trim(HeaderLine) == HeaderLine && '\n' !in HeaderLine
  {
    assert HeaderLine == "Package Current Wanted Latest";
    TrimUnchanged(HeaderLine);
  }

  /** A package row as npm prints it: package, current, wanted and latest, then further columns. */
  datatype Printed = Printed(name: string, current: string, wanted: string, latest: string, rest: string)

  /** The line of a printed row. */
  function PrintedLine(p: Printed): string
  {
    RowText(p.name, p.current, p.wanted, p.latest, p.rest)
  }

  /**
   * Four columns of non-whitespace text, and further columns on the same line after whitespace.
   * The package is not called "npm" (in any case): `/^npm\s+/i` would take such a row for a notice.
   */
  predicate Printable(p: Printed)
  {
    IsToken(p.name) && IsToken(p.current) && IsToken(p.wanted) && IsToken(p.latest)
    && !(|p.name| == 3 && LitI(p.name, "npm").Some?)
    && (p.rest == [] || (IsSpace(p.rest[0]) && !IsSpace(p.rest[|p.rest| - 1]) && '\n' !in p.rest))
  }

  /** The printed rows, one line each, in order. */
  function PrintedLines(rows: seq<Printed>): (r: seq<string>)
    ensures |r| == |rows|
  {
    if rows == [] then [] else PrintedLines(rows[..|rows| - 1]) + [PrintedLine(rows[|rows| - 1])]
  }

  /** The packages of the printed rows whose current version differs from the wanted one, in order. */
  function ChangedNames(rows: seq<Printed>): seq<string>
  {
    if rows == [] then []
    else
      var p := rows[|rows| - 1];
      ChangedNames(rows[..|rows| - 1]) + (if p.current == p.wanted then [] else [p.name])
  }

  /** A printed row is a clean line that the row pattern reads back, and it is counted exactly when current differs from wanted. */
  lemma PrintedLineRead(p: Printed)
    requires Printable(p)
    ensures PrintedLine(p) != [] && Trim(PrintedLine(p)) == PrintedLine(p) && '\n' !in PrintedLine(p)
    ensures OutdatedName(PrintedLine(p)) == if p.current == p.wanted then None else Some(p.name)
  {
    var line := PrintedLine(p);
    PrintedLineClean(p);
    assert !IsNpmLine(line) by {
      if |p.name| < 3 {
        assert line[|p.name|] == ' ';
        assert Lower(line[|p.name|]) != Lower("npm"[|p.name|]);
      } else if |p.name| == 3 {
        assert line[..3] == p.name;
      } else {
        assert line[3] == p.name[3];
      }
    }
    RowAtText(p.name, p.current, p.wanted, p.latest, p.rest);
  }

  /** A printed row is a non-empty line without outer whitespace or LF. */
  lemma PrintedLineClean(p: Printed)
    requires Printable(p)
    ensures PrintedLine(p) != [] && Trim(PrintedLine(p)) == PrintedLine(p) && '\n' !in PrintedLine(p)
    ensures PrintedLine(p)[0] == p.name[0]
  {
    var line := PrintedLine(p);
    var l := " " + (p.latest + p.rest);
    var w := " " + (p.wanted + l);
    var c := " " + (p.current + w);
    assert line == p.name + c;
    assert line[0] == p.name[0];
    assert !IsSpace(line[|line| - 1]) by {
      if p.rest == [] {
        assert line[|line| - 1] == p.latest[|p.latest| - 1];
      } else {
        assert line[|line| - 1] == p.rest[|p.rest| - 1];
      }
    }
    TrimUnchanged(line);
    assert '\n' !in line by {
      forall k | 0 <= k < |line|
        ensures line[k] != '\n'
      {
        assert IsSpace('\n');
      }
    }
  }

  lemma {:induction false} PrintedLinesClean(rows: seq<Printed>)
    requires forall k :: 0 <= k < |rows| ==> Printable(rows[k])
    ensures forall k :: 0 <= k < |rows| ==> PrintedLines(rows)[k] == PrintedLine(rows[k])
  {
    if rows != [] {
      PrintedLinesClean(rows[..|rows| - 1]);
    }
  }

  /** The `reduce` over printed rows collects the packages whose current version differs from the wanted one. */
  lemma {:induction false} OutdatedPrinted(rows: seq<Printed>)
    requires forall k :: 0 <= k < |rows| ==> Printable(rows[k])
    ensures Outdated(PrintedLines(rows)) == ChangedNames(rows)
  {
    if rows != [] {
      var lines := PrintedLines(rows);
      assert lines[..|lines| - 1] == PrintedLines(rows[..|rows| - 1]);
      OutdatedPrinted(rows[..|rows| - 1]);
      PrintedLineRead(rows[|rows| - 1]);
    }
  }

  /**
   * `npm outdated` output read from its printed table: the header, then one line per row.
   * The outdated packages are the rows whose current version differs from the wanted one, in order,
   * and the verdict counts them.
   */
  lemma NpmOutdatedRoundTrip(rows: seq<Printed>)
    requires forall k :: 0 <= k < |rows| ==> Printable(rows[k])
    ensures var output := Join([HeaderLine] + PrintedLines(rows), "\n");
      Outdated(DataLines(Lines(output))) == ChangedNames(rows)
      && ParseNpmOutdatedSpec(output) == Verdict(|ChangedNames(rows)|)
  {
    var lines := [HeaderLine] + PrintedLines(rows);
    var output := Join(lines, "\n");
    HeaderLineIsHeader();
    HeaderLineClean();
    PrintedLinesClean(rows);
    forall k | 1 <= k < |lines|
      ensures lines[k] != [] && Trim(lines[k]) == lines[k] && '\n' !in lines[k]
    {
      assert lines[k] == PrintedLine(rows[k - 1]);
      PrintedLineClean(rows[k - 1]);
    }
    LinesOfJoin(lines);
    assert DataLines(lines) == PrintedLines(rows);
    OutdatedPrinted(rows);
    assert output[0] == 'P';
    TrimShape(output);
  }

  lemma PrintedLinesOne(p: Printed)
    ensures PrintedLines([p]) == [PrintedLine(p)]
  {
    assert [p][..0] == [];
  }

  /** A row whose current version equals the wanted one, under the header, is read and not counted. */
  lemma NpmOutdatedPinnedOnly(output: string)
    requires output == "Package Current Wanted Latest" + "\n" + "chalk 4.1.2 4.1.2 4.1.2"
    ensures ParseNpmOutdatedSpec(output).None?
  {
    var p := Printed("chalk", "4.1.2", "4.1.2", "4.1.2", "");
    PinnedListing(p);
    PinnedRow(p);
  }

  lemma PinnedListing(p: Printed)
    requires p == Printed("chalk", "4.1.2", "4.1.2", "4.1.2", "")
    ensures Join([HeaderLine] + PrintedLines([p]), "\n") == "Package Current Wanted Latest" + "\n" + "chalk 4.1.2 4.1.2 4.1.2"
  {
    var row := PrintedLine(p);
    assert Join([HeaderLine] + PrintedLines([p]), "\n") == HeaderLine + "\n" + row by {
      PrintedLinesOne(p);
      assert [HeaderLine] + PrintedLines([p]) == [HeaderLine, row];
      JoinTwo(HeaderLine, row);
    }
    PinnedRowText(p);
    HeaderLineText();
  }

  lemma PinnedRowText(p: Printed)
    requires p == Printed("chalk", "4.1.2", "4.1.2", "4.1.2", "")
    ensures PrintedLine(p) == "chalk 4.1.2 4.1.2 4.1.2"
  {
  }

  lemma HeaderLineText()
    ensures HeaderLine == "Package Current Wanted Latest"
  {
  }

  lemma JoinTwo(a: string, b: string)
    ensures Join([a, b], "\n") == a + "\n" + b
  {
  }

  lemma PinnedRow(p: Printed)
    requires p == Printed("chalk", "4.1.2", "4.1.2", "4.1.2", "")
    ensures ParseNpmOutdatedSpec(Join([HeaderLine] + PrintedLines([p]), "\n")).None?
  {
    assert Printable(p) by {
      assert IsToken("chalk") && IsToken("4.1.2");
    }
    NpmOutdatedRoundTrip([p]);
    assert ChangedNames([p]) == [];
  }

  /** A line "npm" + whitespace + rest is a notice that is never counted. */
  lemma NoticeIgnored(rest: string)
    requires rest != [] && !IsSpace(rest[0]) && !IsSpace(rest[|rest| - 1])
    ensures OutdatedName("npm " + rest).None?
    ensures !IsHeader("npm " + rest)
  {
    var notice := "npm " + rest;
    TrimUnchanged(notice);
    LitIWord("npm", "npm", " " + rest);
    assert Ws1(" " + rest).Some?;
    NpmLineIgnored(notice);
    LitIFirst(notice, "package");
  }

  /** Without a header every line is data: a printed row is read, and an "npm …" notice after it is not counted. */
  lemma RowThenNotice(p: Printed, rest: string)
    requires Printable(p) && !IsHeader(PrintedLine(p))
    requires rest != [] && !IsSpace(rest[0]) && !IsSpace(rest[|rest| - 1]) && '\n' !in rest
    ensures ParseNpmOutdatedSpec(PrintedLine(p) + "\n" + ("npm " + rest)) == Verdict(|ChangedNames([p])|)
  {
    RowNoticeLines(p, rest);
    RowNoticeData(p, rest);
    RowNoticeOutdated(p, rest);
    RowNoticeNotBlank(p, rest);
  }

  lemma RowNoticeLines(p: Printed, rest: string)
    requires Printable(p)
    requires rest != [] && !IsSpace(rest[0]) && !IsSpace(rest[|rest| - 1]) && '\n' !in rest
    ensures Lines(PrintedLine(p) + "\n" + ("npm " + rest)) == [PrintedLine(p), "npm " + rest]
  {
    var notice := "npm " + rest;
    PrintedLineClean(p);
    assert notice != [] && Trim(notice) == notice && '\n' !in notice by {
      TrimUnchanged(notice);
    }
    LinesOfTwo(PrintedLine(p), notice);
  }

  lemma LinesOfTwo(a: string, b: string)
    requires a != [] && Trim(a) == a && '\n' !in a
    requires b != [] && Trim(b) == b && '\n' !in b
    ensures Lines(a + "\n" + b) == [a, b]
  {
    LinesOfJoin([a, b]);
    JoinTwo(a, b);
  }

  lemma RowNoticeData(p: Printed, rest: string)
    requires !IsHeader(PrintedLine(p))
    requires rest != [] && !IsSpace(rest[0]) && !IsSpace(rest[|rest| - 1])
    ensures DataLines([PrintedLine(p), "npm " + rest]) == [PrintedLine(p), "npm " + rest]
  {
    NoticeIgnored(rest);
    DataLinesWithoutHeader([PrintedLine(p), "npm " + rest]);
  }

  lemma RowNoticeOutdated(p: Printed, rest: string)
    requires Printable(p)
    requires rest != [] && !IsSpace(rest[0]) && !IsSpace(rest[|rest| - 1])
    ensures Outdated([PrintedLine(p), "npm " + rest]) == ChangedNames([p])
  {
    var notice := "npm " + rest;
    NoticeIgnored(rest);
    OutdatedConcat([PrintedLine(p)], [notice]);
    assert [PrintedLine(p)] + [notice] == [PrintedLine(p), notice];
    assert Outdated([notice]) == [];
    PrintedLinesOne(p);
    OutdatedPrinted([p]);
  }

  lemma RowNoticeNotBlank(p: Printed, rest: string)
    requires Printable(p)
    ensures Trim(PrintedLine(p) + "\n" + ("npm " + rest)) != []
  {
    var output := PrintedLine(p) + "\n" + ("npm " + rest);
    PrintedLineClean(p);
    assert output[0] == PrintedLine(p)[0];
    TrimShape(PrintedLine(p));
    TrimShape(output);
  }

  /** The row of a scoped package whose wanted version is newer, followed by an "npm ERR!" line, gives one outdated package. */
  lemma NpmOutdatedHeaderless()
    ensures var row := RowText("@scope/pkg", "1.0.0", "1.2.0", "1.2.0", " node_modules/@scope/pkg my-app");
      ParseNpmOutdatedSpec(row + "\n" + "npm ERR! something happened") == Some(ParsedFailure("Failed - 1 outdated package", Some(1), None))
  {
    var p := Printed("@scope/pkg", "1.0.0", "1.2.0", "1.2.0", " node_modules/@scope/pkg my-app");
    ScopedPrintable(p);
    ScopedNotHeader(p);
    ChangedOne(p);
    NoticeText();
    RowThenNotice(p, "ERR! something happened");
    OnePackage();
  }

  lemma ScopedPrintable(p: Printed)
    requires p == Printed("@scope/pkg", "1.0.0", "1.2.0", "1.2.0", " node_modules/@scope/pkg my-app")
    ensures Printable(p)
  {
    ScopedTokens();
    ScopedRest();
  }

  lemma ScopedTokens()
    ensures IsToken("@scope/pkg") && IsToken("1.0.0") && IsToken("1.2.0")
  {
  }

  lemma ScopedRest()
    ensures var rest := " node_modules/@scope/pkg my-app"; IsSpace(rest[0]) && !IsSpace(rest[|rest| - 1]) && '\n' !in rest
  {
  }

  lemma ScopedNotHeader(p: Printed)
    requires p.name != [] && p.name[0] == '@'
    ensures !IsHeader(PrintedLine(p))
  {
    assert PrintedLine(p)[0] == '@';
    LitIFirst(PrintedLine(p), "package");
  }

  /** A single row is reported exactly when its current version differs from the wanted one. */
  lemma ChangedOne(p: Printed)
    ensures ChangedNames([p]) == if p.current == p.wanted then [] else [p.name]
  {
    assert [p][..0] == [];
  }

  lemma NoticeText()
    ensures "npm " + "ERR! something happened" == "npm ERR! something happened"
    ensures var rest := "ERR! something happened"; rest != [] && !IsSpace(rest[0]) && !IsSpace(rest[|rest| - 1]) && '\n' !in rest
  {
  }

  lemma OnePackage()
    ensures Verdict(1) == Some(ParsedFailure("Failed - 1 outdated package", Some(1), None))
  {
    assert NatToString(1) == "1";
    assert Noun(1, "package") == "package";
    OnePackageMessage();
  }

  lemma OnePackageMessage()
    ensures "Failed - " + "1" + " outdated " + "package" == "Failed - 1 outdated package"
  {
    var head := "Failed - " + "1";
    assert head == "Failed - 1";
    var tail := " outdated " + "package";
    assert tail == " outdated package";
    assert head + tail == "Failed - 1 outdated package";
  }
}

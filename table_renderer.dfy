/**
 * The status table (src/renderers/tableRenderer/index.ts): borders, padded rows, column widths
 * and the layout of the whole table, over a display width that counts wide code points twice.
 */
module TableRenderer {
  import opened Wrappers
  import opened Text
  import Helpers
  import Renderer

  datatype BorderLevel = Top | Middle | Bottom

  datatype BorderChars = BorderChars(left: string, mid: string, right: string, fill: string)

  /** `BORDER_CHARS` */
  function Chars(level: BorderLevel): BorderChars
  {
    match level
    case Top => BorderChars("┌", "┬", "┐", "─")
    case Middle => BorderChars("├", "┼", "┤", "─")
    case Bottom => BorderChars("└", "┴", "┘", "─")
  }

  /** `TABLE_HEADERS` */
  const TableHeaders: seq<string> := ["Label", "Tool", "Results", "Time"]

  /** `isFullWidthCodePoint`: `None` stands for `undefined`. */
  predicate IsFullWidthCodePoint(codePoint: Option<int>)
  {
    match codePoint
    case None => false
    case Some(cp) =>
      cp != 0 &&
      cp >= 0x1100 &&
      (cp <= 0x115f ||
       cp == 0x2329 ||
       cp == 0x232a ||
       (cp >= 0x2e80 && cp <= 0x3247 && cp != 0x303f) ||
       (cp >= 0x3250 && cp <= 0x4dbf) ||
       (cp >= 0x4e00 && cp <= 0xa4c6) ||
       (cp >= 0xa960 && cp <= 0xa97c) ||
       (cp >= 0xac00 && cp <= 0xd7a3) ||
       (cp >= 0xf900 && cp <= 0xfaff) ||
       (cp >= 0xfe10 && cp <= 0xfe19) ||
       (cp >= 0xfe30 && cp <= 0xfe6b) ||
       (cp >= 0xff01 && cp <= 0xff60) ||
       (cp >= 0xffe0 && cp <= 0xffe6) ||
       (cp >= 0x1b000 && cp <= 0x1b001) ||
       (cp >= 0x1f200 && cp <= 0x1f251) ||
       (cp >= 0x20000 && cp <= 0x3fffd))
  }

  /**
   * The cells one code point takes: 2 when it is full width or pictographic, else 1.
   * `pictographic` stands for the characters with the Unicode `Extended_Pictographic` property.
   */
  function CodePointWidth(c: char, pictographic: set<char>): (w: nat)
    ensures w == 1 || w == 2
    ensures w == 2 <==> IsFullWidthCodePoint(Some(c as int)) || c in pictographic
  {
    if IsFullWidthCodePoint(Some(c as int)) || c in pictographic then 2 else 1
  }

  /** The `reduce` over the code points of a text. */
  function WidthOf(t: string, pictographic: set<char>): nat
  {
    if t == [] then 0 else CodePointWidth(t[0], pictographic) + WidthOf(t[1..], pictographic)
  }

  /** `getDisplayWidth`: 0 for the empty text, else the width of the text without its colour sequences. */
  function DisplayWidth(value: string, pictographic: set<char>): nat
  {
    if value == [] then 0 else WidthOf(Helpers.StripAnsi(value), pictographic)
  }

  /** `padCell`: the value, with spaces after it up to the column width. */
  function PadCell(value: string, columnWidth: nat, pictographic: set<char>): string
  {
    var currentWidth := DisplayWidth(value, pictographic);
    if currentWidth >= columnWidth then value else value + Repeat(" ", columnWidth - currentWidth)
  }

  /**
   * The cell at `idx` of a row: padded to its column, or left as it is when the row has more
   * cells than there are columns (`columnWidths[idx]` is then `undefined`, the comparison is
   * false and `repeat` of `NaN` gives "").
   */
  function PadCellAt(value: string, columnWidths: seq<nat>, idx: nat, pictographic: set<char>): string
  {
    if idx < |columnWidths| then PadCell(value, columnWidths[idx], pictographic) else value
  }

  function PaddedCells(row: seq<string>, columnWidths: seq<nat>, pictographic: set<char>): (r: seq<string>)
    ensures |r| == |row|
  {
    seq(|row|, i requires 0 <= i < |row| => PadCellAt(row[i], columnWidths, i, pictographic))
  }

  /** `renderRow` */
  function RenderRow(row: seq<string>, columnWidths: seq<nat>, pictographic: set<char>): string
  {
    "│ " + (Join(PaddedCells(row, columnWidths, pictographic), " │ ") + " │")
  }

  function Segments(columnWidths: seq<nat>, fill: string): (r: seq<string>)
    ensures |r| == |columnWidths|
  {
    seq(|columnWidths|, i requires 0 <= i < |columnWidths| => Repeat(fill, columnWidths[i] + 2))
  }

  /** `renderBorder` */
  function RenderBorder(columnWidths: seq<nat>, level: BorderLevel): string
  {
    var chars := Chars(level);
    chars.left + (Join(Segments(columnWidths, chars.fill), chars.mid) + chars.right)
  }

  /** `row[idx] ?? ""` */
  function CellOf(row: seq<string>, idx: nat): string
  {
    if idx < |row| then row[idx] else ""
  }

  function Max(a: nat, b: nat): nat
  {
    if a >= b then a else b
  }

  /** The widest cell at `idx` among the rows, 0 when there are none. */
  function RowsWidth(rows: seq<seq<string>>, idx: nat, pictographic: set<char>): nat
  {
    if rows == [] then 0 else Max(DisplayWidth(CellOf(rows[0], idx), pictographic), RowsWidth(rows[1..], idx, pictographic))
  }

  /** `footerRow ? getDisplayWidth(footerRow[idx] ?? "") : 0` */
  function FooterWidth(footerRow: Option<seq<string>>, idx: nat, pictographic: set<char>): nat
  {
    match footerRow
    case None => 0
    case Some(footer) => DisplayWidth(CellOf(footer, idx), pictographic)
  }

  /** The `Math.max` of one column. */
  function ColumnWidth(rows: seq<seq<string>>, footerRow: Option<seq<string>>, idx: nat, pictographic: set<char>): nat
    requires idx < |TableHeaders|
  {
    Max(Max(DisplayWidth(TableHeaders[idx], pictographic), RowsWidth(rows, idx, pictographic)), FooterWidth(footerRow, idx, pictographic))
  }

  function ColumnWidths(rows: seq<seq<string>>, footerRow: Option<seq<string>>, pictographic: set<char>): (r: seq<nat>)
    ensures |r| == |TableHeaders|
  {
    seq(|TableHeaders|, i requires 0 <= i < |TableHeaders| => ColumnWidth(rows, footerRow, i, pictographic))
  }

  function RenderedRows(rows: seq<seq<string>>, columnWidths: seq<nat>, pictographic: set<char>): (r: seq<string>)
    ensures |r| == |rows|
  {
    seq(|rows|, i requires 0 <= i < |rows| => RenderRow(rows[i], columnWidths, pictographic))
  }

  /** `cells.map((cell) => chalk.bold(cell))` at colour level `level`. */
  function BoldCells(cells: seq<string>, level: nat): (r: seq<string>)
    ensures |r| == |cells|
  {
    seq(|cells|, i requires 0 <= i < |cells| => Renderer.Paint(Renderer.Bold, cells[i], level))
  }

  /** The separator and the bold footer row, each after a line break, when there is a footer. */
  function FooterSection(columnWidths: seq<nat>, footerRow: Option<seq<string>>, level: nat, pictographic: set<char>): string
  {
    match footerRow
    case None => ""
    case Some(footer) => "\n" + (RenderBorder(columnWidths, Middle) + ("\n" + RenderRow(BoldCells(footer, level), columnWidths, pictographic)))
  }

  /**
   * `renderTable` at colour level `level`: the columns are measured on the plain headers and
   * footer cells, and the header and footer rows are drawn in bold.
   */
  function RenderTable(rows: seq<seq<string>>, footerRow: Option<seq<string>>, level: nat, pictographic: set<char>): string
  {
    var widths := ColumnWidths(rows, footerRow, pictographic);
    var bodyRows := Join(RenderedRows(rows, widths, pictographic), "\n");
    RenderBorder(widths, Top) + ("\n" + (RenderRow(BoldCells(TableHeaders, level), widths, pictographic) + ("\n" + (RenderBorder(widths, Middle) +
      ("\n" + (bodyRows + (FooterSection(widths, footerRow, level, pictographic) + ("\n" + RenderBorder(widths, Bottom)))))))))
  }

  /** The lines of the table: the body is one empty line when there are no rows. */
  function TableLines(rows: seq<seq<string>>, footerRow: Option<seq<string>>, level: nat, pictographic: set<char>): seq<string>
  {
    var widths := ColumnWidths(rows, footerRow, pictographic);
    [RenderBorder(widths, Top), RenderRow(BoldCells(TableHeaders, level), widths, pictographic), RenderBorder(widths, Middle)] +
    (BodyLines(rows, widths, pictographic) + (FooterLines(widths, footerRow, level, pictographic) + [RenderBorder(widths, Bottom)]))
  }

  function BodyLines(rows: seq<seq<string>>, columnWidths: seq<nat>, pictographic: set<char>): seq<string>
  {
    if rows == [] then [""] else RenderedRows(rows, columnWidths, pictographic)
  }

  function FooterLines(columnWidths: seq<nat>, footerRow: Option<seq<string>>, level: nat, pictographic: set<char>): seq<string>
  {
    match footerRow
    case None => []
    case Some(footer) => [RenderBorder(columnWidths, Middle), RenderRow(BoldCells(footer, level), columnWidths, pictographic)]
  }

  // ---------------------------------------------------------------------------------------
  // Code points and widths

  /** Nothing below U+1100 is full width, nor U+303F; U+1100 is, and none is beyond U+3FFFD. */
  lemma FullWidthCases(cp: int)
    ensures !IsFullWidthCodePoint(None) && !IsFullWidthCodePoint(Some(0))
    ensures cp < 0x1100 ==> !IsFullWidthCodePoint(Some(cp))
    ensures !IsFullWidthCodePoint(Some(0x303f)) && IsFullWidthCodePoint(Some(0x1100))
    ensures IsFullWidthCodePoint(Some(cp)) ==> 0x1100 <= cp <= 0x3fffd
  {
  }

  /** A text takes between one and two cells per code point. */
  lemma {:induction false} WidthBounds(t: string, pictographic: set<char>)
    ensures |t| <= WidthOf(t, pictographic) <= 2 * |t|
  {
    if t != [] {
      WidthBounds(t[1..], pictographic);
    }
  }

  /** A text of narrow code points takes one cell per code point. */
  lemma {:induction false} WidthOfNarrow(t: string, pictographic: set<char>)
    requires forall k :: 0 <= k < |t| ==> CodePointWidth(t[k], pictographic) == 1
    ensures WidthOf(t, pictographic) == |t|
  {
    if t != [] {
      WidthOfNarrow(t[1..], pictographic);
    }
  }

  lemma {:induction false} WidthOfConcat(a: string, b: string, pictographic: set<char>)
    ensures WidthOf(a + b, pictographic) == WidthOf(a, pictographic) + WidthOf(b, pictographic)
  {
    if a == [] {
      assert a + b == b;
    } else {
      assert (a + b)[1..] == a[1..] + b;
      WidthOfConcat(a[1..], b, pictographic);
    }
  }

  /** Text without colour sequences is measured as it stands. */
  lemma DisplayWidthPlain(value: string, pictographic: set<char>)
    requires Helpers.Esc !in value
    ensures DisplayWidth(value, pictographic) == WidthOf(value, pictographic)
  {
    Helpers.StripAnsiPlain(value);
  }

  /** The display width is the width of what is left once the colour sequences are stripped. */
  lemma DisplayWidthIs(value: string, pictographic: set<char>)
    ensures DisplayWidth(value, pictographic) == WidthOf(Helpers.StripAnsi(value), pictographic)
  {
  }

  /** A text whose sequences are complete is measured apart from what follows it. */
  lemma DisplayWidthConcat(a: string, b: string, pictographic: set<char>)
    requires Helpers.Closed(a)
    ensures DisplayWidth(a + b, pictographic) == DisplayWidth(a, pictographic) + DisplayWidth(b, pictographic)
  {
    Helpers.StripAnsiClosed(a, b);
    WidthOfConcat(Helpers.StripAnsi(a), Helpers.StripAnsi(b), pictographic);
  }

  /** Bold adds no width and keeps the sequences complete. */
  lemma BoldWidth(value: string, level: nat, pictographic: set<char>)
    requires Helpers.Closed(value)
    ensures Helpers.Closed(Renderer.Paint(Renderer.Bold, value, level))
    ensures DisplayWidth(Renderer.Paint(Renderer.Bold, value, level), pictographic) == DisplayWidth(value, pictographic)
  {
    Renderer.PaintClosed(Renderer.Bold, value, level);
  }

  /** "" is 0 wide, "abc" 3 wide, and a pictograph such as "✅" 2 wide. */
  lemma DisplayWidthExamples(pictographic: set<char>)
    requires 'a' !in pictographic && 'b' !in pictographic && 'c' !in pictographic && '✅' in pictographic
    ensures DisplayWidth("", pictographic) == 0
    ensures DisplayWidth("abc", pictographic) == 3
    ensures DisplayWidth("✅", pictographic) == 2
  {
    DisplayWidthPlain("abc", pictographic);
    WidthOfNarrow("abc", pictographic);
    DisplayWidthPlain("✅", pictographic);
    assert "✅"[1..] == [];
  }

  lemma {:induction false} WidthOfRepeat(s: string, n: nat, pictographic: set<char>)
    ensures WidthOf(Repeat(s, n), pictographic) == Times(n, WidthOf(s, pictographic))
  {
    if n > 0 {
      WidthOfRepeat(s, n - 1, pictographic);
      WidthOfConcat(s, Repeat(s, n - 1), pictographic);
    }
  }

  /** The characters the table draws with are not listed as pictographic. */
  predicate Drawable(pictographic: set<char>)
  {
    ' ' !in pictographic && '│' !in pictographic && '─' !in pictographic &&
    '┌' !in pictographic && '┬' !in pictographic && '┐' !in pictographic &&
    '├' !in pictographic && '┼' !in pictographic && '┤' !in pictographic &&
    '└' !in pictographic && '┴' !in pictographic && '┘' !in pictographic
  }

  /** The box-drawing characters and the space are narrow. */
  lemma DrawableWidths(pictographic: set<char>)
    requires Drawable(pictographic)
    ensures WidthOf(" ", pictographic) == 1 && WidthOf("─", pictographic) == 1
    ensures WidthOf("│ ", pictographic) == 2 && WidthOf(" │", pictographic) == 2 && WidthOf(" │ ", pictographic) == 3
  {
    assert " "[1..] == [] && "─"[1..] == [];
    assert "│ "[1..] == " " && " │"[1..] == "│" && "│"[1..] == [];
    assert " │ "[1..] == "│ ";
  }

  /** The corners and joints of a border are one cell each, and it is drawn with "─". */
  lemma BorderCharsWidths(level: BorderLevel, pictographic: set<char>)
    requires Drawable(pictographic)
    ensures WidthOf(Chars(level).left, pictographic) == 1 && WidthOf(Chars(level).mid, pictographic) == 1
    ensures WidthOf(Chars(level).right, pictographic) == 1 && Chars(level).fill == "─"
  {
    var chars := Chars(level);
    assert chars.left[1..] == [] && chars.mid[1..] == [] && chars.right[1..] == [];
  }

  // ---------------------------------------------------------------------------------------
  // Cells

  /** Spaces cannot start, continue or end a colour sequence. */
  lemma SpacesInert(n: nat)
    ensures Helpers.Inert(Repeat(" ", n)) && Helpers.Esc !in Repeat(" ", n)
  {
  }

  /**
   * A padded cell keeps the value as its prefix and adds only spaces; it is as wide as the
   * larger of the value's width and the column's, and its colour sequences stay complete.
   */
  lemma PadCellWidth(value: string, columnWidth: nat, pictographic: set<char>)
    requires ' ' !in pictographic
    ensures var r := PadCell(value, columnWidth, pictographic);
      |r| >= |value| && r[..|value|] == value &&
      (forall k :: |value| <= k < |r| ==> r[k] == ' ') &&
      DisplayWidth(r, pictographic) == Max(DisplayWidth(value, pictographic), columnWidth) &&
      (Helpers.Closed(value) ==> Helpers.Closed(r))
  {
    var w := DisplayWidth(value, pictographic);
    if w < columnWidth {
      var pad := Repeat(" ", columnWidth - w);
      SpacesInert(columnWidth - w);
      Helpers.StripAnsiAppend(value, pad);
      DisplayWidthIs(value, pictographic);
      DisplayWidthIs(value + pad, pictographic);
      WidthOfConcat(Helpers.StripAnsi(value), pad, pictographic);
      WidthOfRepeat(" ", columnWidth - w, pictographic);
      TimesIs(columnWidth - w, 1);
      assert WidthOf(" ", pictographic) == 1 by {
        assert " "[1..] == [];
      }
      assert (value + pad)[..|value|] == value;
      if Helpers.Closed(value) {
        Helpers.ClosedPlain(pad);
        Helpers.ClosedConcat(value, pad);
      }
    }
  }

  /** "Hi" in a column of 4 gains two spaces; "Hello" in a column of 3 is unchanged. */
  lemma PadCellExamples(pictographic: set<char>)
    requires forall c :: c in "HiHello" ==> c !in pictographic
    ensures PadCell("Hi", 4, pictographic) == "Hi  "
    ensures PadCell("Hello", 3, pictographic) == "Hello"
  {
    assert DisplayWidth("Hi", pictographic) == 2 by {
      assert 'H' in "HiHello" && 'i' in "HiHello";
      DisplayWidthPlain("Hi", pictographic);
      WidthOfNarrow("Hi", pictographic);
    }
    assert DisplayWidth("Hello", pictographic) == 5 by {
      assert 'H' in "HiHello" && 'e' in "HiHello" && 'l' in "HiHello" && 'o' in "HiHello";
      DisplayWidthPlain("Hello", pictographic);
      WidthOfNarrow("Hello", pictographic);
    }
    assert Repeat(" ", 2) == "  " by {
      assert Repeat(" ", 1) == " ";
    }
  }

  // ---------------------------------------------------------------------------------------
  // Borders and rows

  /** Four and five horizontal lines. */
  lemma FillExamples()
    ensures Repeat("─", 4) == "────" && Repeat("─", 5) == "─────"
  {
    assert Repeat("─", 1) == "─";
    assert Repeat("─", 2) == "──";
    assert Repeat("─", 3) == "───";
    assert Repeat("─", 4) == "────";
  }

  /** `[2, 3]` at the top and `[3, 2]` at the bottom. */
  lemma BorderExamples()
    ensures RenderBorder([2, 3], Top) == "┌────┬─────┐"
    ensures RenderBorder([3, 2], Bottom) == "└─────┴────┘"
  {
    FillExamples();
    var top := Segments([2, 3], "─");
    assert top == ["────", "─────"];
    assert top[1..] == ["─────"];
    assert Join(top, "┬") == "────" + "┬" + "─────";
    var bottom := Segments([3, 2], "─");
    assert bottom == ["─────", "────"];
    assert bottom[1..] == ["────"];
    assert Join(bottom, "┴") == "─────" + "┴" + "────";
  }

  /** `["A", "B"]` in columns of 3 and 2. */
  lemma RowExample(pictographic: set<char>)
    requires 'A' !in pictographic && 'B' !in pictographic
    ensures RenderRow(["A", "B"], [3, 2], pictographic) == "│ A   │ B  │"
  {
    DisplayWidthPlain("A", pictographic);
    DisplayWidthPlain("B", pictographic);
    assert "A"[1..] == [] && "B"[1..] == [];
    assert Repeat(" ", 2) == "  " by {
      assert Repeat(" ", 1) == " ";
    }
    assert PadCell("A", 3, pictographic) == "A  ";
    assert PadCell("B", 2, pictographic) == "B ";
    var cells := PaddedCells(["A", "B"], [3, 2], pictographic);
    assert cells[0] == "A  " && cells[1] == "B ";
    assert cells == ["A  ", "B "];
    assert cells[1..] == ["B "];
    assert Join(cells, " │ ") == "A   │ B ";
  }

  /** The sum of the display widths of some texts. */
  function SumWidth(parts: seq<string>, pictographic: set<char>): nat
  {
    if parts == [] then 0 else DisplayWidth(parts[0], pictographic) + SumWidth(parts[1..], pictographic)
  }

  /** `n` times `w`, as repeated addition. */
  function Times(n: nat, w: nat): nat
  {
    if n == 0 then 0 else w + Times(n - 1, w)
  }

  lemma {:induction false} TimesIs(n: nat, w: nat)
    ensures Times(n, w) == n * w
  {
    if n > 0 {
      TimesIs(n - 1, w);
    }
  }

  function Total(ws: seq<nat>): nat
  {
    if ws == [] then 0 else ws[0] + Total(ws[1..])
  }

  /**
   * A `join` of texts whose colour sequences are complete, with a plain separator, is as wide
   * as its parts plus one separator between each two, and its sequences are complete.
   */
  lemma {:induction false} JoinWidth(parts: seq<string>, sep: string, pictographic: set<char>)
    requires |parts| > 0 && Helpers.Esc !in sep
    requires forall i :: 0 <= i < |parts| ==> Helpers.Closed(parts[i])
    ensures DisplayWidth(Join(parts, sep), pictographic) == SumWidth(parts, pictographic) + Times(|parts| - 1, DisplayWidth(sep, pictographic))
    ensures Helpers.Closed(Join(parts, sep))
  {
    if |parts| > 1 {
      var head, tail := parts[0], Join(parts[1..], sep);
      assert Join(parts, sep) == head + sep + tail;
      assert SumWidth(parts, pictographic) == DisplayWidth(head, pictographic) + SumWidth(parts[1..], pictographic);
      assert DisplayWidth(tail, pictographic) == SumWidth(parts[1..], pictographic) + Times(|parts| - 2, DisplayWidth(sep, pictographic)) && Helpers.Closed(tail) by {
        JoinWidth(parts[1..], sep, pictographic);
      }
      assert Helpers.Closed(head + sep) by {
        Helpers.ClosedPlain(sep);
        Helpers.ClosedConcat(head, sep);
      }
      Helpers.ClosedConcat(head + sep, tail);
      DisplayWidthConcat(head, sep, pictographic);
      DisplayWidthConcat(head + sep, tail, pictographic);
    } else {
      assert parts[1..] == [];
    }
  }

  /** Texts each `d` wider than their entry in `ws` give `d` cells per text over the total. */
  lemma {:induction false} SumWidthPointwise(parts: seq<string>, ws: seq<nat>, d: nat, pictographic: set<char>)
    requires |parts| == |ws|
    requires forall i :: 0 <= i < |parts| ==> DisplayWidth(parts[i], pictographic) == ws[i] + d
    ensures SumWidth(parts, pictographic) == Total(ws) + Times(|ws|, d)
  {
    if parts != [] {
      SumWidthPointwise(parts[1..], ws[1..], d, pictographic);
    }
  }

  lemma FillWidth(n: nat, pictographic: set<char>)
    requires '─' !in pictographic
    ensures DisplayWidth(Repeat("─", n), pictographic) == n && Helpers.Esc !in Repeat("─", n)
  {
    assert WidthOf("─", pictographic) == 1 by {
      assert "─"[1..] == [];
    }
    WidthOfRepeat("─", n, pictographic);
    TimesIs(n, 1);
    DisplayWidthPlain(Repeat("─", n), pictographic);
  }

  /** The horizontal runs of a border are as wide as the columns with two cells of margin each. */
  lemma SegmentsWidth(columnWidths: seq<nat>, pictographic: set<char>)
    requires '─' !in pictographic
    ensures SumWidth(Segments(columnWidths, "─"), pictographic) == Total(columnWidths) + 2 * |columnWidths|
    ensures forall i :: 0 <= i < |columnWidths| ==> Helpers.Closed(Segments(columnWidths, "─")[i])
  {
    var segments := Segments(columnWidths, "─");
    forall i | 0 <= i < |segments|
      ensures DisplayWidth(segments[i], pictographic) == columnWidths[i] + 2 && Helpers.Closed(segments[i])
    {
      FillWidth(columnWidths[i] + 2, pictographic);
      Helpers.ClosedPlain(segments[i]);
    }
    SumWidthPointwise(segments, columnWidths, 2, pictographic);
    TimesIs(|columnWidths|, 2);
  }

  /** A plain one-character text of a narrow character is one cell wide. */
  lemma NarrowChar(t: string, pictographic: set<char>)
    requires |t| == 1 && t[0] != Helpers.Esc && CodePointWidth(t[0], pictographic) == 1
    ensures DisplayWidth(t, pictographic) == 1 && Helpers.Closed(t)
  {
    assert Helpers.Esc !in t;
    DisplayWidthPlain(t, pictographic);
    assert t[1..] == [];
    Helpers.ClosedPlain(t);
  }

  /** A border is as wide as the columns, two cells of margin each, the joints and both corners. */
  lemma BorderWidth(columnWidths: seq<nat>, level: BorderLevel, pictographic: set<char>)
    requires |columnWidths| > 0 && Drawable(pictographic)
    ensures DisplayWidth(RenderBorder(columnWidths, level), pictographic) == Total(columnWidths) + 3 * |columnWidths| + 1
  {
    var chars := Chars(level);
    var segments := Segments(columnWidths, chars.fill);
    var joined := Join(segments, chars.mid);
    var n := |columnWidths|;
    assert chars.fill == "─";
    NarrowChar(chars.left, pictographic);
    NarrowChar(chars.mid, pictographic);
    NarrowChar(chars.right, pictographic);
    SegmentsWidth(columnWidths, pictographic);
    assert DisplayWidth(joined, pictographic) == Total(columnWidths) + 2 * n + (n - 1) && Helpers.Closed(joined) by {
      JoinWidth(segments, chars.mid, pictographic);
      TimesIs(n - 1, 1);
    }
    DisplayWidthConcat(joined, chars.right, pictographic);
    DisplayWidthConcat(chars.left, joined + chars.right, pictographic);
  }

  /** The cell separators of a row are plain and two, two and three cells wide. */
  lemma SeparatorWidths(pictographic: set<char>)
    requires Drawable(pictographic)
    ensures DisplayWidth("│ ", pictographic) == 2 && DisplayWidth(" │", pictographic) == 2 && DisplayWidth(" │ ", pictographic) == 3
    ensures Helpers.Closed("│ ") && Helpers.Esc !in " │ "
  {
    DrawableWidths(pictographic);
    DisplayWidthPlain("│ ", pictographic);
    DisplayWidthPlain(" │", pictographic);
    DisplayWidthPlain(" │ ", pictographic);
    Helpers.ClosedPlain("│ ");
  }

  /**
   * A row whose every cell fits its column, one cell per column, each with complete colour
   * sequences, is exactly as wide as a border.
   */
  lemma RowWidth(row: seq<string>, columnWidths: seq<nat>, pictographic: set<char>)
    requires |row| == |columnWidths| > 0 && Drawable(pictographic)
    requires forall i :: 0 <= i < |row| ==> Helpers.Closed(row[i]) && DisplayWidth(row[i], pictographic) <= columnWidths[i]
    ensures DisplayWidth(RenderRow(row, columnWidths, pictographic), pictographic) == Total(columnWidths) + 3 * |columnWidths| + 1
  {
    SeparatorWidths(pictographic);
    var cells := PaddedCells(row, columnWidths, pictographic);
    var n := |columnWidths|;
    forall i | 0 <= i < |cells|
      ensures DisplayWidth(cells[i], pictographic) == columnWidths[i] + 0 && Helpers.Closed(cells[i])
    {
      PadCellWidth(row[i], columnWidths[i], pictographic);
    }
    assert SumWidth(cells, pictographic) == Total(columnWidths) by {
      SumWidthPointwise(cells, columnWidths, 0, pictographic);
      TimesIs(n, 0);
    }
    var joined := Join(cells, " │ ");
    assert DisplayWidth(joined, pictographic) == Total(columnWidths) + 3 * (n - 1) && Helpers.Closed(joined) by {
      JoinWidth(cells, " │ ", pictographic);
      TimesIs(n - 1, 3);
    }
    DisplayWidthConcat(joined, " │", pictographic);
    DisplayWidthConcat("│ ", joined + " │", pictographic);
  }

  // ---------------------------------------------------------------------------------------
  // Columns and the table

  lemma {:induction false} RowsWidthMax(rows: seq<seq<string>>, idx: nat, pictographic: set<char>)
    ensures forall r :: 0 <= r < |rows| ==> DisplayWidth(CellOf(rows[r], idx), pictographic) <= RowsWidth(rows, idx, pictographic)
    ensures rows != [] ==> exists r :: 0 <= r < |rows| && DisplayWidth(CellOf(rows[r], idx), pictographic) == RowsWidth(rows, idx, pictographic)
  {
    if rows != [] {
      var first := DisplayWidth(CellOf(rows[0], idx), pictographic);
      RowsWidthMax(rows[1..], idx, pictographic);
      assert forall r :: 1 <= r < |rows| ==> rows[r] == rows[1..][r - 1];
      if RowsWidth(rows, idx, pictographic) == first {
        assert DisplayWidth(CellOf(rows[0], idx), pictographic) == RowsWidth(rows, idx, pictographic);
      } else {
        assert rows[1..] != [];
        var r :| 0 <= r < |rows[1..]| && DisplayWidth(CellOf(rows[1..][r], idx), pictographic) == RowsWidth(rows[1..], idx, pictographic);
        assert DisplayWidth(CellOf(rows[r + 1], idx), pictographic) == RowsWidth(rows, idx, pictographic);
      }
    }
  }

  /**
   * A column is as wide as its widest cell: no narrower than the header, any row's cell (a
   * missing cell counting as "") or the footer's, and as wide as one of them.
   */
  lemma ColumnWidthIsMax(rows: seq<seq<string>>, footerRow: Option<seq<string>>, idx: nat, pictographic: set<char>)
    requires idx < |TableHeaders|
    ensures var w := ColumnWidths(rows, footerRow, pictographic)[idx];
      w >= DisplayWidth(TableHeaders[idx], pictographic) &&
      (forall r :: 0 <= r < |rows| ==> w >= DisplayWidth(CellOf(rows[r], idx), pictographic)) &&
      (footerRow.Some? ==> w >= DisplayWidth(CellOf(footerRow.value, idx), pictographic)) &&
      (w == DisplayWidth(TableHeaders[idx], pictographic) ||
       (exists r :: 0 <= r < |rows| && w == DisplayWidth(CellOf(rows[r], idx), pictographic)) ||
       (footerRow.Some? && w == DisplayWidth(CellOf(footerRow.value, idx), pictographic)))
  {
    RowsWidthMax(rows, idx, pictographic);
  }

  lemma {:induction false} JoinConcat(a: seq<string>, b: seq<string>, sep: string)
    requires |a| > 0 && |b| > 0
    ensures Join(a + b, sep) == Join(a, sep) + (sep + Join(b, sep))
  {
    if |a| == 1 {
      assert (a + b)[1..] == b;
    } else {
      assert (a + b)[1..] == a[1..] + b;
      JoinConcat(a[1..], b, sep);
    }
  }

  lemma Join3(a: string, b: string, c: string, sep: string)
    ensures Join([a, b, c], sep) == a + (sep + (b + (sep + c)))
  {
    assert [a, b, c][1..] == [b, c];
    assert [b, c][1..] == [c];
    assert Join([b, c], sep) == b + sep + c;
    assert b + sep + c == b + (sep + c);
    assert a + sep + (b + (sep + c)) == a + (sep + (b + (sep + c)));
  }

  /** The lines after the body, joined, are the footer section and the bottom border. */
  lemma FooterJoin(columnWidths: seq<nat>, footerRow: Option<seq<string>>, level: nat, bottom: string, pictographic: set<char>)
    ensures "\n" + Join(FooterLines(columnWidths, footerRow, level, pictographic) + [bottom], "\n") ==
      FooterSection(columnWidths, footerRow, level, pictographic) + ("\n" + bottom)
  {
    var tail := FooterLines(columnWidths, footerRow, level, pictographic) + [bottom];
    if footerRow.Some? {
      var middle := RenderBorder(columnWidths, Middle);
      var footer := RenderRow(BoldCells(footerRow.value, level), columnWidths, pictographic);
      assert tail == [middle, footer, bottom];
      Join3(middle, footer, bottom, "\n");
    } else {
      assert tail == [bottom];
    }
  }

  /**
   * The table is its top border, bold header row, separator, body rows (one empty line when
   * there are none), the separator and bold footer row when there is a footer, and its bottom
   * border, one per line.
   */
  lemma TableLayout(rows: seq<seq<string>>, footerRow: Option<seq<string>>, level: nat, pictographic: set<char>)
    ensures RenderTable(rows, footerRow, level, pictographic) == Join(TableLines(rows, footerRow, level, pictographic), "\n")
  {
    var widths := ColumnWidths(rows, footerRow, pictographic);
    var top := RenderBorder(widths, Top);
    var header := RenderRow(BoldCells(TableHeaders, level), widths, pictographic);
    var middle := RenderBorder(widths, Middle);
    var bottom := RenderBorder(widths, Bottom);
    var body := BodyLines(rows, widths, pictographic);
    var bodyRows := Join(RenderedRows(rows, widths, pictographic), "\n");
    var tail := FooterLines(widths, footerRow, level, pictographic) + [bottom];
    var rest := FooterSection(widths, footerRow, level, pictographic) + ("\n" + bottom);
    assert Join(body, "\n") == bodyRows;
    FooterJoin(widths, footerRow, level, bottom, pictographic);
    JoinConcat(body, tail, "\n");
    assert Join(body + tail, "\n") == bodyRows + rest;
    JoinConcat([top, header, middle], body + tail, "\n");
    Join3(top, header, middle, "\n");
    Regroup(top, header, middle, "\n" + (bodyRows + rest), "\n");
  }

  lemma Regroup(a: string, b: string, c: string, d: string, sep: string)
    ensures (a + (sep + (b + (sep + c)))) + d == a + (sep + (b + (sep + (c + d))))
  {
  }

  /** A cell of a row of the table, or of its footer, fits its column. */
  lemma CellFits(rows: seq<seq<string>>, footerRow: Option<seq<string>>, cells: seq<string>, idx: nat, pictographic: set<char>)
    requires idx < |TableHeaders| && (cells in rows || footerRow == Some(cells))
    ensures DisplayWidth(CellOf(cells, idx), pictographic) <= ColumnWidths(rows, footerRow, pictographic)[idx]
  {
    ColumnWidthIsMax(rows, footerRow, idx, pictographic);
    if cells in rows {
      var r :| 0 <= r < |rows| && rows[r] == cells;
    }
  }

  /**
   * A row of the table with one cell per header, each with complete colour sequences, is as
   * wide as a border.
   */
  lemma TableRowWidth(rows: seq<seq<string>>, footerRow: Option<seq<string>>, cells: seq<string>, pictographic: set<char>)
    requires Drawable(pictographic) && (cells in rows || footerRow == Some(cells))
    requires |cells| == |TableHeaders| && forall i :: 0 <= i < |cells| ==> Helpers.Closed(cells[i])
    ensures var widths := ColumnWidths(rows, footerRow, pictographic);
      DisplayWidth(RenderRow(cells, widths, pictographic), pictographic) == Total(widths) + 3 * |widths| + 1
  {
    var widths := ColumnWidths(rows, footerRow, pictographic);
    forall i | 0 <= i < |cells|
      ensures DisplayWidth(cells[i], pictographic) <= widths[i]
    {
      CellFits(rows, footerRow, cells, i, pictographic);
    }
    RowWidth(cells, widths, pictographic);
  }

  /** The bold footer row, one cell per header with complete colour sequences, is as wide as a border. */
  lemma FooterRowWidth(rows: seq<seq<string>>, footer: seq<string>, level: nat, pictographic: set<char>)
    requires Drawable(pictographic)
    requires |footer| == |TableHeaders| && forall i :: 0 <= i < |footer| ==> Helpers.Closed(footer[i])
    ensures var widths := ColumnWidths(rows, Some(footer), pictographic);
      DisplayWidth(RenderRow(BoldCells(footer, level), widths, pictographic), pictographic) == Total(widths) + 3 * |widths| + 1
  {
    var widths := ColumnWidths(rows, Some(footer), pictographic);
    var bold := BoldCells(footer, level);
    forall i | 0 <= i < |bold|
      ensures Helpers.Closed(bold[i]) && DisplayWidth(bold[i], pictographic) <= widths[i]
    {
      BoldWidth(footer[i], level, pictographic);
      CellFits(rows, Some(footer), footer, i, pictographic);
    }
    RowWidth(bold, widths, pictographic);
  }

  /** The headers carry no colour sequence. */
  lemma HeadersPlain()
    ensures forall i :: 0 <= i < |TableHeaders| ==> Helpers.Esc !in TableHeaders[i]
  {
    assert TableHeaders == ["Label", "Tool", "Results", "Time"];
  }

  /** The bold header row is as wide as a border. */
  lemma HeaderWidth(rows: seq<seq<string>>, footerRow: Option<seq<string>>, level: nat, pictographic: set<char>)
    requires Drawable(pictographic)
    ensures var widths := ColumnWidths(rows, footerRow, pictographic);
      DisplayWidth(RenderRow(BoldCells(TableHeaders, level), widths, pictographic), pictographic) == Total(widths) + 3 * |widths| + 1
  {
    var widths := ColumnWidths(rows, footerRow, pictographic);
    var bold := BoldCells(TableHeaders, level);
    HeadersPlain();
    forall i | 0 <= i < |TableHeaders|
      ensures Helpers.Closed(bold[i]) && DisplayWidth(bold[i], pictographic) <= widths[i]
    {
      Helpers.ClosedPlain(TableHeaders[i]);
      BoldWidth(TableHeaders[i], level, pictographic);
      ColumnWidthIsMax(rows, footerRow, i, pictographic);
    }
    RowWidth(bold, widths, pictographic);
  }

  /** A line of a table with rows is a border, the header row, a rendered row or the footer row. */
  lemma LineKinds(rows: seq<seq<string>>, footerRow: Option<seq<string>>, level: nat, line: string, pictographic: set<char>)
    requires rows != [] && line in TableLines(rows, footerRow, level, pictographic)
    ensures var widths := ColumnWidths(rows, footerRow, pictographic);
      line == RenderBorder(widths, Top) || line == RenderBorder(widths, Middle) || line == RenderBorder(widths, Bottom) ||
      line == RenderRow(BoldCells(TableHeaders, level), widths, pictographic) || line in RenderedRows(rows, widths, pictographic) ||
      (footerRow.Some? && line == RenderRow(BoldCells(footerRow.value, level), widths, pictographic))
  {
  }

  /**
   * Every line of a table with rows, whose rows and footer have one cell per header and only
   * complete colour sequences, is as wide on screen as its top border: three cells per column
   * beyond the column's width, and one more.
   */
  lemma TableAligned(rows: seq<seq<string>>, footerRow: Option<seq<string>>, level: nat, pictographic: set<char>)
    requires Drawable(pictographic) && rows != []
    requires forall r :: 0 <= r < |rows| ==> |rows[r]| == |TableHeaders| && forall i :: 0 <= i < |rows[r]| ==> Helpers.Closed(rows[r][i])
    requires footerRow.Some? ==> |footerRow.value| == |TableHeaders| && forall i :: 0 <= i < |footerRow.value| ==> Helpers.Closed(footerRow.value[i])
    ensures var widths := ColumnWidths(rows, footerRow, pictographic);
      DisplayWidth(RenderBorder(widths, Top), pictographic) == Total(widths) + 3 * |widths| + 1 &&
      forall line :: line in TableLines(rows, footerRow, level, pictographic) ==>
        DisplayWidth(line, pictographic) == DisplayWidth(RenderBorder(widths, Top), pictographic)
  {
    var widths := ColumnWidths(rows, footerRow, pictographic);
    var full := Total(widths) + 3 * |widths| + 1;
    BorderWidth(widths, Top, pictographic);
    BorderWidth(widths, Middle, pictographic);
    BorderWidth(widths, Bottom, pictographic);
    HeaderWidth(rows, footerRow, level, pictographic);
    var rendered := RenderedRows(rows, widths, pictographic);
    forall r | 0 <= r < |rows|
      ensures DisplayWidth(rendered[r], pictographic) == full
    {
      TableRowWidth(rows, footerRow, rows[r], pictographic);
    }
    if footerRow.Some? {
      FooterRowWidth(rows, footerRow.value, level, pictographic);
    }
    forall line | line in TableLines(rows, footerRow, level, pictographic)
      ensures DisplayWidth(line, pictographic) == full
    {
      LineKinds(rows, footerRow, level, line, pictographic);
      if line in rendered {
        var r :| 0 <= r < |rendered| && rendered[r] == line;
      }
    }
  }
}

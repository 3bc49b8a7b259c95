/** One screen of cells read as plain lines and as lines of styled runs. */
module StyledRuns {
  import opened Options
  import opened Text

  datatype Style = Style(
    fg: Option<string>, bg: Option<string>, bold: bool, italic: bool, underline: bool, strikeout: bool, dim: bool,
    inverse: bool)

  /** A spacer is the second half of a wide character, or the gap before one that wrapped. */
  datatype Cell = Cell(c: char, zeroWidth: string, style: Style, spacer: bool)

  datatype Run = Run(text: string, style: Style)

  /** The cell under the cursor, if it is on this line, and the character shown there, if one is asked for. */
  type Cursor = Option<(nat, char)>

  predicate IsUnderCursor(cursor: Cursor, k: nat) {
    cursor.Some? && cursor.value.0 == k
  }

  /** The plain view replaces the whole cell under the cursor. */
  function PlainCell(cell: Cell, cursor: Cursor, k: nat): string {
    if cell.spacer then ""
    else if IsUnderCursor(cursor, k) then [cursor.value.1]
    else [cell.c] + cell.zeroWidth
  }

  /** The styled view replaces only its base character. */
  function StyledCell(cell: Cell, cursor: Cursor, k: nat): string {
    if cell.spacer then ""
    else [if IsUnderCursor(cursor, k) then cursor.value.1 else cell.c] + cell.zeroWidth
  }

  function PlainText(cells: seq<Cell>, cursor: Cursor): string {
    if cells == [] then ""
    else PlainText(cells[..|cells| - 1], cursor) + PlainCell(cells[|cells| - 1], cursor, |cells| - 1)
  }

  function StyledText(cells: seq<Cell>, cursor: Cursor): string {
    if cells == [] then ""
    else StyledText(cells[..|cells| - 1], cursor) + StyledCell(cells[|cells| - 1], cursor, |cells| - 1)
  }

  function Appended(runs: seq<Run>, style: Style, text: string): seq<Run> {
    if runs != [] && runs[|runs| - 1].style == style
    then runs[..|runs| - 1] + [Run(runs[|runs| - 1].text + text, style)]
    else runs + [Run(text, style)]
  }

  /** Consecutive cells of one style make one run. */
  function Coalesced(cells: seq<Cell>, cursor: Cursor): seq<Run> {
    if cells == [] then []
    else
      var cell := cells[|cells| - 1];
      var before := Coalesced(cells[..|cells| - 1], cursor);
      if cell.spacer then before else Appended(before, cell.style, StyledCell(cell, cursor, |cells| - 1))
  }

  predicate IsInvisible(run: Run) {
    Trim(run.text) == "" && run.style.fg.None? && run.style.bg.None? && !run.style.bold
  }

  function TrimRuns(runs: seq<Run>): (r: seq<Run>)
    ensures r <= runs
  {
    if runs != [] && IsInvisible(runs[|runs| - 1]) then TrimRuns(runs[..|runs| - 1]) else runs
  }

  function StyledLine(cells: seq<Cell>, cursor: Cursor): seq<Run> {
    TrimRuns(Coalesced(cells, cursor))
  }

  function TextOf(runs: seq<Run>): string {
    if runs == [] then "" else TextOf(runs[..|runs| - 1]) + runs[|runs| - 1].text
  }

  // ---------------------------------------------------------------- runs

  /** No run is empty and neighbours differ in style. */
  predicate IsMaximal(runs: seq<Run>) {
    && (forall k | 0 <= k < |runs| :: runs[k].text != "")
    && (forall k | 0 < k < |runs| :: runs[k - 1].style != runs[k].style)
  }

  lemma AppendedIsMaximal(runs: seq<Run>, style: Style, text: string)
    requires IsMaximal(runs) && text != ""
    ensures IsMaximal(Appended(runs, style, text)) && TextOf(Appended(runs, style, text)) == TextOf(runs) + text
  {
    hide IsMaximal;
    var n := |runs|;
    if runs != [] && runs[n - 1].style == style {
      var last := Run(runs[n - 1].text + text, style);
      assert (runs[..n - 1] + [last])[..n - 1] == runs[..n - 1];
      assert TextOf(runs[..n - 1]) + (runs[n - 1].text + text) == TextOf(runs[..n - 1]) + runs[n - 1].text + text;
      LastReplaced(runs, last);
    } else {
      assert (runs + [Run(text, style)])[..n] == runs;
      LastAdded(runs, Run(text, style));
    }
  }

  lemma LastReplaced(runs: seq<Run>, last: Run)
    requires IsMaximal(runs) && runs != [] && last.style == runs[|runs| - 1].style && last.text != ""
    ensures IsMaximal(runs[..|runs| - 1] + [last])
  {
    var more := runs[..|runs| - 1] + [last];
    assert forall k | 0 <= k < |runs| - 1 :: more[k] == runs[k];
  }

  lemma LastAdded(runs: seq<Run>, last: Run)
    requires IsMaximal(runs) && last.text != "" && (runs != [] ==> runs[|runs| - 1].style != last.style)
    ensures IsMaximal(runs + [last])
  {
  }

  lemma {:induction false} CoalescedIsMaximal(cells: seq<Cell>, cursor: Cursor)
    ensures IsMaximal(Coalesced(cells, cursor)) && TextOf(Coalesced(cells, cursor)) == StyledText(cells, cursor)
  {
    hide IsMaximal, Appended, TextOf, IsUnderCursor;
    if cells == [] {
      NoRuns();
    } else {
      CoalescedIsMaximal(cells[..|cells| - 1], cursor);
      var cell := cells[|cells| - 1];
      if cell.spacer {
        assert StyledText(cells[..|cells| - 1], cursor) + "" == StyledText(cells[..|cells| - 1], cursor);
      } else {
        AppendedIsMaximal(
          Coalesced(cells[..|cells| - 1], cursor), cell.style, StyledCell(cell, cursor, |cells| - 1));
      }
    }
  }

  lemma NoRuns()
    ensures IsMaximal([]) && TextOf([]) == ""
  {
  }

  lemma PrefixIsMaximal(runs: seq<Run>, prefix: seq<Run>)
    requires IsMaximal(runs) && prefix <= runs
    ensures IsMaximal(prefix)
  {
    assert forall k | 0 <= k < |prefix| :: prefix[k] == runs[k];
  }

  // ---------------------------------------------------------------- the two views

  /** A zero-width mark in the cell under the cursor is shown by the styled view only. */
  predicate CursorHidesNothing(cells: seq<Cell>, cursor: Cursor) {
    cursor.Some? && cursor.value.0 < |cells| ==> cells[cursor.value.0].spacer || cells[cursor.value.0].zeroWidth == ""
  }

  lemma SameCell(cell: Cell, cursor: Cursor, k: nat)
    ensures PlainCell(cell, cursor, k) == StyledCell(cell, cursor, k) ||
            |PlainCell(cell, cursor, k)| < |StyledCell(cell, cursor, k)|
    ensures PlainCell(cell, cursor, k) == StyledCell(cell, cursor, k) <==>
            !IsUnderCursor(cursor, k) || cell.spacer || cell.zeroWidth == ""
  {
  }

  lemma {:induction false} SameText(cells: seq<Cell>, cursor: Cursor)
    ensures CursorHidesNothing(cells, cursor) ==> PlainText(cells, cursor) == StyledText(cells, cursor)
    ensures !CursorHidesNothing(cells, cursor) ==> |PlainText(cells, cursor)| < |StyledText(cells, cursor)|
  {
    hide PlainCell, StyledCell;
    if cells != [] {
      SameText(cells[..|cells| - 1], cursor);
      SameCell(cells[|cells| - 1], cursor, |cells| - 1);
    }
  }

  lemma {:induction false} TrimEndConcat(a: string, b: string)
    ensures TrimEnd(b) == "" ==> TrimEnd(a + b) == TrimEnd(a)
  {
    hide IsSpace;
    if b == "" {
      assert a + b == a;
    } else if TrimEnd(b) == "" {
      assert (a + b)[..|a + b| - 1] == a + b[..|b| - 1];
      TrimEndConcat(a, b[..|b| - 1]);
    }
  }

  lemma {:induction false} BlankEnds(s: string)
    ensures Trim(s) == "" <==> forall k | 0 <= k < |s| :: IsSpace(s[k])
    ensures TrimEnd(s) == "" <==> forall k | 0 <= k < |s| :: IsSpace(s[k])
  {
    hide IsSpace;
    BlankFromStart(s);
    BlankFromEnd(s);
    BlankFromEnd(TrimStart(s));
    TrimmedExactly(s);
  }

  lemma {:induction false} BlankFromStart(s: string)
    ensures TrimStart(s) == "" <==> forall k | 0 <= k < |s| :: IsSpace(s[k])
  {
    hide IsSpace;
    if s != "" && IsSpace(s[0]) {
      BlankFromStart(s[1..]);
      assert s == [s[0]] + s[1..];
    }
  }

  lemma {:induction false} BlankFromEnd(s: string)
    ensures TrimEnd(s) == "" <==> forall k | 0 <= k < |s| :: IsSpace(s[k])
  {
    hide IsSpace;
    if s != "" && IsSpace(s[|s| - 1]) {
      BlankFromEnd(s[..|s| - 1]);
    }
  }

  lemma {:induction false} TrimmingRunsKeepsText(runs: seq<Run>)
    ensures TrimEnd(TextOf(TrimRuns(runs))) == TrimEnd(TextOf(runs))
  {
    hide TrimEnd, Trim;
    if runs != [] && IsInvisible(runs[|runs| - 1]) {
      TrimmingRunsKeepsText(runs[..|runs| - 1]);
      BlankEnds(runs[|runs| - 1].text);
      TrimEndConcat(TextOf(runs[..|runs| - 1]), runs[|runs| - 1].text);
    }
  }

  /** The characters of a text that are not white space, counted. */
  function Visible(s: string): nat {
    if s == "" then 0 else Visible(s[..|s| - 1]) + if IsSpace(s[|s| - 1]) then 0 else 1
  }

  lemma {:induction false} VisibleConcat(a: string, b: string)
    ensures Visible(a + b) == Visible(a) + Visible(b)
  {
    hide IsSpace;
    if b == "" {
      assert a + b == a;
    } else {
      assert (a + b)[..|a + b| - 1] == a + b[..|b| - 1];
      VisibleConcat(a, b[..|b| - 1]);
    }
  }

  lemma {:induction false} TrimmingKeepsVisible(s: string)
    ensures Visible(TrimEnd(s)) == Visible(s)
  {
    hide IsSpace;
    if s != "" && IsSpace(s[|s| - 1]) {
      TrimmingKeepsVisible(s[..|s| - 1]);
    }
  }

  /** No zero-width mark is white space. */
  predicate MarksAreVisible(cells: seq<Cell>) {
    forall k | 0 <= k < |cells| :: forall j | 0 <= j < |cells[k].zeroWidth| :: !IsSpace(cells[k].zeroWidth[j])
  }

  lemma VisibleMarks(cells: seq<Cell>, k: nat)
    requires MarksAreVisible(cells) && k < |cells| && cells[k].zeroWidth != ""
    ensures Visible(cells[k].zeroWidth) > 0
  {
    hide IsSpace;
  }

  lemma VisibleCell(cell: Cell, cursor: Cursor, k: nat)
    ensures Visible(StyledCell(cell, cursor, k)) == Visible(PlainCell(cell, cursor, k)) +
            if IsUnderCursor(cursor, k) && !cell.spacer then Visible(cell.zeroWidth) else 0
  {
    hide IsSpace;
    if IsUnderCursor(cursor, k) && !cell.spacer {
      VisibleConcat([cursor.value.1], cell.zeroWidth);
    }
  }

  lemma {:induction false} StyledIsMoreVisible(cells: seq<Cell>, cursor: Cursor)
    ensures Visible(StyledText(cells, cursor)) >= Visible(PlainText(cells, cursor))
    ensures MarksAreVisible(cells) && !CursorHidesNothing(cells, cursor) ==>
              Visible(StyledText(cells, cursor)) > Visible(PlainText(cells, cursor))
  {
    hide PlainCell, StyledCell, Visible, IsSpace;
    if cells != [] {
      var (before, k) := (cells[..|cells| - 1], |cells| - 1);
      StyledIsMoreVisible(before, cursor);
      VisibleCell(cells[k], cursor, k);
      VisibleConcat(StyledText(before, cursor), StyledCell(cells[k], cursor, k));
      VisibleConcat(PlainText(before, cursor), PlainCell(cells[k], cursor, k));
      if MarksAreVisible(cells) {
        assert MarksAreVisible(before);
        if cells[k].zeroWidth != "" {
          VisibleMarks(cells, k);
        }
      }
    }
  }

  /**
   The runs of a line, joined and trimmed on the right, are the plain line exactly if the cursor hides no zero-width
   mark; only marks that are themselves white space could be trimmed away with the line.
   */
  lemma ViewsAgree(cells: seq<Cell>, cursor: Cursor)
    ensures IsMaximal(StyledLine(cells, cursor))
    ensures CursorHidesNothing(cells, cursor) ==>
              TrimEnd(TextOf(StyledLine(cells, cursor))) == TrimEnd(PlainText(cells, cursor))
    ensures MarksAreVisible(cells) && !CursorHidesNothing(cells, cursor) ==>
              TrimEnd(TextOf(StyledLine(cells, cursor))) != TrimEnd(PlainText(cells, cursor))
  {
    hide Coalesced, IsMaximal, TrimRuns, TextOf, TrimEnd, PlainText, StyledText, CursorHidesNothing, MarksAreVisible;
    CoalescedIsMaximal(cells, cursor);
    PrefixIsMaximal(Coalesced(cells, cursor), StyledLine(cells, cursor));
    TrimmingRunsKeepsText(Coalesced(cells, cursor));
    SameText(cells, cursor);
    StyledIsMoreVisible(cells, cursor);
    TrimmingKeepsVisible(StyledText(cells, cursor));
    TrimmingKeepsVisible(PlainText(cells, cursor));
  }

  /** With the cursor on a cell that carries a zero-width mark the two views differ. */
  lemma CursorHidesAMark()
    ensures var style := Style(None, None, false, false, false, false, false, false);
            var cells := [Cell('e', "\U{0301}", style, false)];
            TrimEnd(TextOf(StyledLine(cells, Some((0, '_'))))) != TrimEnd(PlainText(cells, Some((0, '_'))))
  {
    hide TrimEnd, Coalesced, TrimRuns, TextOf;
    var style := Style(None, None, false, false, false, false, false, false);
    var cells := [Cell('e', "\U{0301}", style, false)];
    var cursor: Cursor := Some((0, '_'));
    CoalescedIsMaximal(cells, cursor);
    TrimmingRunsKeepsText(Coalesced(cells, cursor));
    assert cells[..0] == [];
    assert StyledText(cells, cursor) == "_\U{0301}" && PlainText(cells, cursor) == "_";
    EndsVisibly("_\U{0301}");
    EndsVisibly("_");
  }

  lemma EndsVisibly(s: string)
    requires s != "" && !IsSpace(s[|s| - 1])
    ensures TrimEnd(s) == s
  {
  }

  // ---------------------------------------------------------------- every character keeps its style

  datatype Glyph = Glyph(c: char, style: Style)

  function Painted(text: string, style: Style): seq<Glyph> {
    seq(|text|, k requires 0 <= k < |text| => Glyph(text[k], style))
  }

  function GlyphsOfRuns(runs: seq<Run>): seq<Glyph> {
    if runs == [] then []
    else GlyphsOfRuns(runs[..|runs| - 1]) + Painted(runs[|runs| - 1].text, runs[|runs| - 1].style)
  }

  function GlyphsOfCells(cells: seq<Cell>, cursor: Cursor): seq<Glyph> {
    if cells == [] then []
    else
      var last := |cells| - 1;
      GlyphsOfCells(cells[..last], cursor) + Painted(StyledCell(cells[last], cursor, last), cells[last].style)
  }

  lemma AppendedGlyphs(runs: seq<Run>, style: Style, text: string)
    ensures GlyphsOfRuns(Appended(runs, style, text)) == GlyphsOfRuns(runs) + Painted(text, style)
  {
    var n := |runs|;
    if runs != [] && runs[n - 1].style == style {
      var (front, own) := (GlyphsOfRuns(runs[..n - 1]), runs[n - 1].text);
      assert Appended(runs, style, text)[..n - 1] == runs[..n - 1];
      assert Painted(own + text, style) == Painted(own, style) + Painted(text, style);
      assert front + (Painted(own, style) + Painted(text, style)) == front + Painted(own, style) + Painted(text, style);
    } else {
      assert (runs + [Run(text, style)])[..n] == runs;
    }
  }

  /** Making runs loses, moves and restyles no character. */
  lemma {:induction false} GlyphsAreKept(cells: seq<Cell>, cursor: Cursor)
    ensures GlyphsOfRuns(Coalesced(cells, cursor)) == GlyphsOfCells(cells, cursor)
  {
    hide Appended, IsUnderCursor;
    if cells != [] {
      var last := |cells| - 1;
      var cell := cells[last];
      GlyphsAreKept(cells[..last], cursor);
      if cell.spacer {
        assert Painted("", cell.style) == [];
        assert GlyphsOfCells(cells[..last], cursor) + [] == GlyphsOfCells(cells[..last], cursor);
      } else {
        AppendedGlyphs(Coalesced(cells[..last], cursor), cell.style, StyledCell(cell, cursor, last));
      }
    }
  }

  /** Without spacers and marks there is one character for each cell, in its place and style. */
  lemma {:induction false} EachCellIsPainted(cells: seq<Cell>, cursor: Cursor, k: nat)
    requires forall i | 0 <= i < |cells| :: !cells[i].spacer && cells[i].zeroWidth == ""
    requires k < |cells|
    ensures |GlyphsOfCells(cells, cursor)| == |cells|
    ensures GlyphsOfCells(cells, cursor)[k] ==
            Glyph(if cursor.Some? && cursor.value.0 == k then cursor.value.1 else cells[k].c, cells[k].style)
  {
    var last := |cells| - 1;
    assert |StyledCell(cells[last], cursor, last)| == 1;
    if last > 0 {
      EachCellIsPainted(cells[..last], cursor, if k < last then k else 0);
    }
  }

  /** Something of a run can be seen: a colour, bold, or a character that is not white space. */
  ghost predicate Shows(run: Run) {
    || run.style.fg.Some? || run.style.bg.Some? || run.style.bold
    || exists k | 0 <= k < |run.text| :: !IsSpace(run.text[k])
  }

  /** A line of runs ends with the last run that shows. */
  lemma LineEndsWithTheLastThatShows(cells: seq<Cell>, cursor: Cursor)
    ensures var (all, line) := (Coalesced(cells, cursor), StyledLine(cells, cursor));
            && line <= all
            && (line != [] ==> Shows(line[|line| - 1]))
            && forall k | |line| <= k < |all| :: !Shows(all[k])
  {
    TrimmedRunsShow(Coalesced(cells, cursor));
  }

  lemma {:induction false} TrimmedRunsShow(runs: seq<Run>)
    ensures var line := TrimRuns(runs);
            && (line != [] ==> Shows(line[|line| - 1]))
            && forall k | |line| <= k < |runs| :: !Shows(runs[k])
  {
    hide Trim, IsSpace;
    if runs != [] {
      BlankEnds(runs[|runs| - 1].text);
      if IsInvisible(runs[|runs| - 1]) {
        TrimmedRunsShow(runs[..|runs| - 1]);
      }
    }
  }

  // ---------------------------------------------------------------- whole screens

  function DropBlankLines(lines: seq<string>): (r: seq<string>)
    ensures r <= lines
  {
    if lines != [] && Trim(lines[|lines| - 1]) == "" then DropBlankLines(lines[..|lines| - 1]) else lines
  }

  function DropEmptyLines(lines: seq<seq<Run>>): (r: seq<seq<Run>>)
    ensures r <= lines
  {
    if lines != [] && lines[|lines| - 1] == [] then DropEmptyLines(lines[..|lines| - 1]) else lines
  }

  /** The cursor's line and column, and the character shown there, if one is asked for. */
  type ScreenCursor = Option<(nat, nat, char)>

  function CursorOn(cursor: ScreenCursor, row: nat): Cursor {
    if cursor.Some? && cursor.value.0 == row then Some((cursor.value.1, cursor.value.2)) else None
  }

  function PlainLines(rows: seq<seq<Cell>>, cursor: ScreenCursor): seq<string> {
    seq(|rows|, k requires 0 <= k < |rows| => PlainText(rows[k], CursorOn(cursor, k)))
  }

  function StyledLines(rows: seq<seq<Cell>>, cursor: ScreenCursor): seq<seq<Run>> {
    seq(|rows|, k requires 0 <= k < |rows| => StyledLine(rows[k], CursorOn(cursor, k)))
  }

  /** The plain screen: trailing blank lines are dropped, then each line is trimmed on the right. */
  function PlainScreen(rows: seq<seq<Cell>>, cursor: ScreenCursor): seq<string> {
    var kept := DropBlankLines(PlainLines(rows, cursor));
    seq(|kept|, k requires 0 <= k < |kept| => TrimEnd(kept[k]))
  }

  /** The styled screen: trailing lines without a run are dropped. */
  function StyledScreen(rows: seq<seq<Cell>>, cursor: ScreenCursor): seq<seq<Run>> {
    DropEmptyLines(StyledLines(rows, cursor))
  }

  /** A line without runs is blank, also where the cursor hides a mark. */
  lemma EmptyLineIsBlank(cells: seq<Cell>, cursor: Cursor)
    requires StyledLine(cells, cursor) == []
    ensures Trim(PlainText(cells, cursor)) == ""
  {
    hide Coalesced, TrimRuns, TextOf, PlainText, StyledText, Trim, TrimEnd, IsSpace, Visible;
    NoRuns();
    CoalescedIsMaximal(cells, cursor);
    TrimmingRunsKeepsText(Coalesced(cells, cursor));
    TrimmingKeepsVisible(StyledText(cells, cursor));
    TrimmingKeepsVisible("");
    StyledIsMoreVisible(cells, cursor);
    BlankEnds("");
    NothingVisible("");
    NothingVisible(PlainText(cells, cursor));
  }

  lemma {:induction false} NothingVisible(s: string)
    ensures Visible(s) == 0 <==> Trim(s) == ""
  {
    hide IsSpace, Trim;
    BlankEnds(s);
    if s != "" {
      var before := s[..|s| - 1];
      NothingVisible(before);
      BlankEnds(before);
      assert forall k | 0 <= k < |s| :: s[k] == if k < |before| then before[k] else s[|s| - 1];
    }
  }

  lemma {:induction false} KeepsAsManyLines(rows: seq<seq<Cell>>, cursor: ScreenCursor)
    ensures |DropBlankLines(PlainLines(rows, cursor))| <= |DropEmptyLines(StyledLines(rows, cursor))|
  {
    hide Trim, StyledLine, PlainText;
    var styled := StyledLines(rows, cursor);
    if rows != [] && styled[|rows| - 1] == [] {
      var before := rows[..|rows| - 1];
      EmptyLineIsBlank(rows[|rows| - 1], CursorOn(cursor, |rows| - 1));
      assert PlainLines(rows, cursor)[..|rows| - 1] == PlainLines(before, cursor);
      assert styled[..|rows| - 1] == StyledLines(before, cursor);
      KeepsAsManyLines(before, cursor);
    }
  }

  /**
   On every screen and for any cursor the styled screen keeps each line that the plain screen keeps, and shows there the
   same text, unless the cursor hides a mark on it.
   */
  lemma NoLineIsDropped(rows: seq<seq<Cell>>, cursor: ScreenCursor)
    ensures |PlainScreen(rows, cursor)| <= |StyledScreen(rows, cursor)| <= |rows|
    ensures forall k | 0 <= k < |PlainScreen(rows, cursor)| :: CursorHidesNothing(rows[k], CursorOn(cursor, k)) ==>
              TrimEnd(TextOf(StyledScreen(rows, cursor)[k])) == PlainScreen(rows, cursor)[k]
  {
    hide TrimEnd, DropBlankLines, DropEmptyLines, StyledLine, PlainText, CursorHidesNothing, TextOf, IsMaximal;
    KeepsAsManyLines(rows, cursor);
    forall k | 0 <= k < |PlainScreen(rows, cursor)| && CursorHidesNothing(rows[k], CursorOn(cursor, k))
      ensures TrimEnd(TextOf(StyledScreen(rows, cursor)[k])) == PlainScreen(rows, cursor)[k]
    {
      ViewsAgree(rows[k], CursorOn(cursor, k));
    }
  }

  /** The plain screen ends with its last line that is not blank; the kept lines lose white space at their end. */
  lemma {:induction false} PlainScreenEnds(rows: seq<seq<Cell>>, cursor: ScreenCursor, k: nat)
    requires k < |rows|
    ensures var (screen, text) := (PlainScreen(rows, cursor), PlainText(rows[k], CursorOn(cursor, k)));
            && (k < |screen| <==> exists j | k <= j < |rows| :: Trim(PlainText(rows[j], CursorOn(cursor, j))) != "")
            && (k < |screen| ==> screen[k] == TrimEnd(text))
  {
    hide Trim, TrimEnd, PlainText;
    var (lines, kept) := (PlainLines(rows, cursor), DropBlankLines(PlainLines(rows, cursor)));
    BlankLinesDropped(lines);
    assert forall j | 0 <= j < |rows| :: lines[j] == PlainText(rows[j], CursorOn(cursor, j));
    if k < |kept| {
      assert Trim(lines[|kept| - 1]) != "";
    }
  }

  lemma {:induction false} BlankLinesDropped(lines: seq<string>)
    ensures var kept := DropBlankLines(lines);
            && (kept != [] ==> Trim(lines[|kept| - 1]) != "")
            && forall j | |kept| <= j < |lines| :: Trim(lines[j]) == ""
  {
    hide Trim;
    if lines != [] && Trim(lines[|lines| - 1]) == "" {
      BlankLinesDropped(lines[..|lines| - 1]);
    }
  }

  /** The styled screen ends with the last line that has a run that shows; the lines up to there are as they are. */
  lemma StyledScreenEnds(rows: seq<seq<Cell>>, cursor: ScreenCursor, k: nat)
    requires k < |rows|
    ensures var (screen, line) := (StyledScreen(rows, cursor), StyledLine(rows[k], CursorOn(cursor, k)));
            && (k < |screen| <==> exists j | k <= j < |rows| :: StyledLine(rows[j], CursorOn(cursor, j)) != [])
            && (k < |screen| ==> screen[k] == line)
  {
    hide StyledLine;
    var (lines, screen) := (StyledLines(rows, cursor), StyledScreen(rows, cursor));
    EmptyLinesDropped(lines);
    assert forall j | 0 <= j < |rows| :: lines[j] == StyledLine(rows[j], CursorOn(cursor, j));
    if k < |screen| {
      assert lines[|screen| - 1] != [];
    }
  }

  lemma {:induction false} EmptyLinesDropped(lines: seq<seq<Run>>)
    ensures var kept := DropEmptyLines(lines);
            && (kept != [] ==> lines[|kept| - 1] != [])
            && forall j | |kept| <= j < |lines| :: lines[j] == []
  {
    if lines != [] && lines[|lines| - 1] == [] {
      EmptyLinesDropped(lines[..|lines| - 1]);
    }
  }

  // ---------------------------------------------------------------- the loop over the cells

  /** The runs so far with the one that is being collected. */
  function Flushed(runs: seq<Run>, text: string, style: Option<Style>): seq<Run> {
    if text == "" || style.None? then runs else runs + [Run(text, style.value)]
  }

  lemma ExtendsRun(runs: seq<Run>, text: string, style: Style, more: string)
    requires text != "" && more != ""
    ensures Appended(Flushed(runs, text, Some(style)), style, more) == Flushed(runs, text + more, Some(style))
  {
    assert (runs + [Run(text, style)])[..|runs|] == runs;
  }

  lemma BeginsRun(runs: seq<Run>, text: string, style: Option<Style>, next: Style, more: string)
    requires more != "" && (if text == "" then runs == [] else style.Some? && style.value != next)
    ensures Appended(Flushed(runs, text, style), next, more) == Flushed(Flushed(runs, text, style), more, Some(next))
  {
  }

  lemma CoalescedStep(cells: seq<Cell>, cursor: Cursor, k: nat)
    requires k < |cells|
    ensures Coalesced(cells[..k + 1], cursor) ==
            if cells[k].spacer then Coalesced(cells[..k], cursor)
            else Appended(Coalesced(cells[..k], cursor), cells[k].style, StyledCell(cells[k], cursor, k))
    ensures !cells[k].spacer ==> StyledCell(cells[k], cursor, k) != ""
  {
    hide IsUnderCursor, Appended;
    assert cells[..k + 1][..k] == cells[..k];
  }

  method CoalesceCells(cells: seq<Cell>, cursor: Cursor) returns (runs: seq<Run>)
    ensures runs == Coalesced(cells, cursor)
  {
    hide StyledCell, Coalesced, Appended;
    runs := [];
    var text, style: Option<Style> := "", None;
    NothingCoalesced(cells, cursor);
    for k := 0 to |cells|
      invariant if text == "" then style.None? && runs == [] else style.Some?
      invariant Coalesced(cells[..k], cursor) == Flushed(runs, text, style)
    {
      CoalescedStep(cells, cursor, k);
      var cell := cells[k];
      if cell.spacer {
        continue;
      }
      var shown := StyledCell(cell, cursor, k);
      if style.Some? && style.value == cell.style {
        ExtendsRun(runs, text, cell.style, shown);
      } else {
        BeginsRun(runs, text, style, cell.style, shown);
        if style.Some? {
          runs := runs + [Run(text, style.value)];
        }
        text, style := "", Some(cell.style);
        assert "" + shown == shown;
      }
      text := text + shown;
    }
    assert cells[..|cells|] == cells;
    if text != "" {
      runs := runs + [Run(text, style.value)];
    }
  }

  lemma NothingCoalesced(cells: seq<Cell>, cursor: Cursor)
    ensures Coalesced(cells[..0], cursor) == []
  {
  }

  method ExtractStyledLine(cells: seq<Cell>, cursor: Cursor) returns (runs: seq<Run>)
    ensures runs == StyledLine(cells, cursor)
  {
    hide Coalesced, IsInvisible;
    runs := CoalesceCells(cells, cursor);
    while runs != [] && IsInvisible(runs[|runs| - 1])
      invariant TrimRuns(runs) == StyledLine(cells, cursor)
    {
      runs := runs[..|runs| - 1];
    }
  }
}

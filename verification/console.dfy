// The text console of student-distrib/lib.c as functions on one 4096-byte video
// page: 80x25 cells of two bytes (character, attribute), then 96 spare bytes.
module Console {
  import opened Words

  const COLS := 80
  const ROWS := 25
  const CELLS := 2000
  const SCREEN_BYTES := 4000
  const PAGE := 4096
  const SPACE: byte := 32
  const ATTRIB: byte := 7
  const NEWLINE: byte := 10
  const RETURN: byte := 13

  type Page = p: seq<byte> | |p| == PAGE witness seq(PAGE, _ => 0)

  // One terminal's screen: its page and its cursor.
  datatype Screen = Screen(page: Page, x: nat, y: nat)

  // The cursor is on the screen, or has just wrapped past its last cell and the
  // scroll is still owed.
  predicate CursorOk(x: int, y: int) {
    0 <= x < COLS && 0 <= y <= ROWS && (y == ROWS ==> x == 0)
  }

  function Blanks(cells: nat): (s: seq<byte>)
    ensures |s| == 2 * cells
  {
    seq(2 * cells, i => if i % 2 == 0 then SPACE else ATTRIB)
  }

  // Every row moves up one; the last row becomes blank.
  function Scrolled(p: Page): Page {
    p[2 * COLS..SCREEN_BYTES] + Blanks(COLS) + p[SCREEN_BYTES..]
  }

  function Cleared(p: Page): Page {
    Blanks(CELLS) + p[SCREEN_BYTES..]
  }

  function WithCell(p: Page, pos: nat, c: byte): Page
    requires pos < CELLS
  {
    p[2 * pos := c][2 * pos + 1 := ATTRIB]
  }

  predicate IsBreak(c: byte) {
    c == NEWLINE || c == RETURN
  }

  // The scroll owed by an earlier wrap is paid before the next character.
  function Settled(s: Screen): (r: Screen)
    requires CursorOk(s.x, s.y)
    ensures CursorOk(r.x, r.y) && r.y < ROWS
  {
    if COLS * s.y + s.x >= CELLS then Screen(Scrolled(s.page), 0, ROWS - 1) else s
  }

  function BrokenLine(s: Screen): (r: Screen)
    requires CursorOk(s.x, s.y) && s.y < ROWS
    ensures CursorOk(r.x, r.y)
  {
    if s.y + 1 >= ROWS then Screen(Scrolled(s.page), 0, ROWS - 1) else Screen(s.page, 0, s.y + 1)
  }

  function Written(s: Screen, c: byte): (r: Screen)
    requires CursorOk(s.x, s.y) && s.y < ROWS
    ensures CursorOk(r.x, r.y)
  {
    var page := WithCell(s.page, COLS * s.y + s.x, c);
    if s.x + 1 >= COLS then Screen(page, 0, s.y + 1) else Screen(page, s.x + 1, s.y)
  }

  function Putc(s: Screen, c: byte): (r: Screen)
    requires CursorOk(s.x, s.y)
    ensures CursorOk(r.x, r.y)
  {
    if IsBreak(c) then BrokenLine(Settled(s)) else Written(Settled(s), c)
  }

  function Puts(s: Screen, text: seq<byte>): (r: Screen)
    requires CursorOk(s.x, s.y)
    ensures CursorOk(r.x, r.y)
  {
    if text == [] then s else Putc(Puts(s, text[..|text| - 1]), text[|text| - 1])
  }

  // Backspace: step back one cell and blank it; nothing happens at the origin.
  function Back(s: Screen): (r: Screen)
    requires CursorOk(s.x, s.y)
    ensures CursorOk(r.x, r.y)
  {
    if s.x == 0 && s.y == 0 then s
    else if s.x == 0 then Screen(WithCell(s.page, COLS * (s.y - 1) + COLS - 1, SPACE), COLS - 1, s.y - 1)
    else Screen(WithCell(s.page, COLS * s.y + s.x - 1, SPACE), s.x - 1, s.y)
  }

  function Clear(s: Screen): (r: Screen)
    ensures CursorOk(r.x, r.y)
  {
    Screen(Cleared(s.page), 0, 0)
  }

  // What set_cursor_position sends to the display controller.
  function CursorCell(x: nat, y: nat): nat {
    (y * COLS + x) % CELLS
  }

  // The register names the cursor's row and column, and the top row while a scroll is owed.
  lemma CursorCellIs(x: nat, y: nat)
    requires CursorOk(x, y)
    ensures CursorCell(x, y) % 80 == x && CursorCell(x, y) / 80 == if y == 25 then 0 else y
  {
    var c := CursorCell(x, y);
    if y < 25 {
      assert c == 80 * y + x;
      CellsApart(c / 80, c % 80, y, x);
    }
  }

  // The cell before the cursor, or the last one while a scroll is owed, holds the
  // character just put.
  lemma CursorFollowsCharacter(s: Screen, c: byte)
    requires CursorOk(s.x, s.y) && !IsBreak(c)
    ensures var r := Putc(s, c); r.page[2 * ((CursorCell(r.x, r.y) + 1999) % 2000)] == c
  {
    var at, r := Settled(s), Putc(s, c);
    var pos := COLS * at.y + at.x;
    assert r.page == WithCell(at.page, pos, c) && r.y * COLS + r.x == pos + 1;
    hide *;
    PlaceBefore(pos, r.x, r.y);
    CellHolds(at.page, pos, c);
  }

  lemma PlaceBefore(pos: nat, x: nat, y: nat)
    requires pos < CELLS && y * COLS + x == pos + 1
    ensures (CursorCell(x, y) + 1999) % 2000 == pos
  {
  }

  lemma CellHolds(p: Page, pos: nat, c: byte)
    requires pos < CELLS
    ensures WithCell(p, pos, c)[2 * pos] == c
  {
  }

  // ----- Reading the page by rows and columns -----

  function Char(p: Page, r: nat, c: nat): byte
    requires r < ROWS && c < COLS
  {
    p[2 * (COLS * r + c)]
  }

  function Attr(p: Page, r: nat, c: nat): byte
    requires r < ROWS && c < COLS
  {
    p[2 * (COLS * r + c) + 1]
  }

  lemma ScrolledCells(p: Page)
    ensures forall r, c :: 0 <= r < ROWS && 0 <= c < COLS ==>
      Char(Scrolled(p), r, c) == if r < ROWS - 1 then Char(p, r + 1, c) else SPACE
    ensures forall r, c :: 0 <= r < ROWS && 0 <= c < COLS ==>
      Attr(Scrolled(p), r, c) == if r < ROWS - 1 then Attr(p, r + 1, c) else ATTRIB
    ensures Scrolled(p)[SCREEN_BYTES..] == p[SCREEN_BYTES..]
  {
  }

  lemma CellsApart(r: nat, c: nat, y: nat, x: nat)
    requires c < COLS && x < COLS
    ensures COLS * r + c == COLS * y + x <==> r == y && c == x
  {
    if r < y {
      assert COLS * r + COLS <= COLS * y;
    } else if y < r {
      assert COLS * y + COLS <= COLS * r;
    }
  }

  lemma WrittenCell(p: Page, y: nat, x: nat, ch: byte, r: nat, c: nat)
    requires y < ROWS && x < COLS && r < ROWS && c < COLS
    ensures Char(WithCell(p, COLS * y + x, ch), r, c) == if r == y && c == x then ch else Char(p, r, c)
    ensures Attr(WithCell(p, COLS * y + x, ch), r, c) == if r == y && c == x then ATTRIB else Attr(p, r, c)
  {
    CellsApart(r, c, y, x);
  }

  // ----- Backspace against putc -----

  predicate IsBlank(p: Page, pos: nat)
    requires pos < CELLS
  {
    p[2 * pos] == SPACE && p[2 * pos + 1] == ATTRIB
  }

  lemma BlankingKeeps(p: Page, pos: nat, c: byte)
    requires pos < CELLS
    ensures WithCell(WithCell(p, pos, c), pos, SPACE) == WithCell(p, pos, SPACE)
    ensures WithCell(p, pos, SPACE) == p <==> IsBlank(p, pos)
  {
    assert WithCell(p, pos, SPACE)[2 * pos] == SPACE && WithCell(p, pos, SPACE)[2 * pos + 1] == ATTRIB;
  }

  // Backspace is described as the reverse of putc. It is exactly when the character
  // went to a blank cell with no scroll owed, or was a break at the end of a row
  // whose last cell is blank, above the bottom of the screen.
  lemma BackReversesPutcExactlyWhen(s: Screen, c: byte)
    requires CursorOk(s.x, s.y)
    ensures Back(Putc(s, c)) == s <==>
      && s.y < ROWS && IsBlank(s.page, COLS * s.y + s.x)
      && (IsBreak(c) ==> s.x == COLS - 1 && s.y < ROWS - 1)
  {
    if s.y < ROWS {
      BlankingKeeps(s.page, COLS * s.y + s.x, c);
    }
  }

  // ----- The unbounded layout -----

  // Text laid out on rows of at most 80 characters with no bottom: a break starts
  // a row, and so does filling one.
  type Rows = rows: seq<seq<byte>> | |rows| > 0 witness [[]]

  function LastRow(rows: Rows): seq<byte> {
    rows[|rows| - 1]
  }

  function Extended(rows: Rows, c: byte): Rows {
    var n := |rows| - 1;
    if IsBreak(c) then rows + [[]]
    else if |rows[n]| + 1 >= COLS then rows[..n] + [rows[n] + [c]] + [[]]
    else rows[..n] + [rows[n] + [c]]
  }

  function Layout(text: seq<byte>): (rows: Rows)
    ensures |LastRow(rows)| < COLS
  {
    if text == [] then [[]] else Extended(Layout(text[..|text| - 1]), text[|text| - 1])
  }

  function LayoutChar(rows: Rows, r: int, c: nat): byte {
    if 0 <= r < |rows| && c < |rows[r]| then rows[r][c] else SPACE
  }

  lemma LayoutPut(text: seq<byte>, c: byte)
    ensures Layout(text + [c]) == Extended(Layout(text), c)
  {
    assert (text + [c])[..|text|] == text;
  }

  lemma ExtendedChar(rows: Rows, c: byte, r: int, k: nat)
    requires !IsBreak(c)
    ensures LayoutChar(Extended(rows, c), r, k) ==
      if r == |rows| - 1 && k == |rows[r]| then c else LayoutChar(rows, r, k)
  {
  }

  // The screen is the window of 25 rows onto the layout that has the cursor at its end.
  ghost predicate Windowed(s: Screen, rows: Rows) {
    var n := |rows| - 1;
    && CursorOk(s.x, s.y)
    && s.x == |rows[n]|
    && s.y <= n
    && (forall r, c :: 0 <= r < ROWS && 0 <= c < COLS ==>
        Char(s.page, r, c) == LayoutChar(rows, n - s.y + r, c))
    && (forall r, c :: 0 <= r < ROWS && 0 <= c < COLS ==> Attr(s.page, r, c) == ATTRIB)
  }

  // And the window has moved only if the layout reached the bottom of the screen.
  ghost predicate Shows(s: Screen, rows: Rows) {
    Windowed(s, rows) && (s.y < ROWS - 1 ==> s.y == |rows| - 1)
  }

  lemma SettledShows(s: Screen, rows: Rows)
    requires Windowed(s, rows)
    ensures Windowed(Settled(s), rows) && (Shows(s, rows) ==> Shows(Settled(s), rows))
    ensures Settled(s).page[SCREEN_BYTES..] == s.page[SCREEN_BYTES..]
  {
    ScrolledCells(s.page);
  }

  lemma BreakShows(s: Screen, rows: Rows)
    requires Windowed(s, rows) && s.y < ROWS
    ensures Windowed(BrokenLine(s), rows + [[]]) && (Shows(s, rows) ==> Shows(BrokenLine(s), rows + [[]]))
    ensures BrokenLine(s).page[SCREEN_BYTES..] == s.page[SCREEN_BYTES..]
  {
    ScrolledCells(s.page);
  }

  lemma WriteShowsCell(s: Screen, rows: Rows, c: byte, r: nat, k: nat)
    requires Windowed(s, rows) && s.y < ROWS && !IsBreak(c) && r < ROWS && k < COLS
    ensures Char(Written(s, c).page, r, k) == LayoutChar(Extended(rows, c), |rows| - 1 - s.y + r, k)
    ensures Attr(Written(s, c).page, r, k) == ATTRIB
  {
    WrittenCell(s.page, s.y, s.x, c, r, k);
    ExtendedChar(rows, c, |rows| - 1 - s.y + r, k);
    assert Char(s.page, r, k) == LayoutChar(rows, |rows| - 1 - s.y + r, k);
    assert Attr(s.page, r, k) == ATTRIB;
  }

  lemma WriteShows(s: Screen, rows: Rows, c: byte)
    requires Windowed(s, rows) && s.y < ROWS && !IsBreak(c)
    ensures Windowed(Written(s, c), Extended(rows, c)) && (Shows(s, rows) ==> Shows(Written(s, c), Extended(rows, c)))
    ensures Written(s, c).page[SCREEN_BYTES..] == s.page[SCREEN_BYTES..]
  {
    forall r, k | 0 <= r < ROWS && 0 <= k < COLS
      ensures Char(Written(s, c).page, r, k) == LayoutChar(Extended(rows, c), |rows| - 1 - s.y + r, k)
      ensures Attr(Written(s, c).page, r, k) == ATTRIB
    {
      WriteShowsCell(s, rows, c, r, k);
    }
  }

  lemma PutcShows(s: Screen, text: seq<byte>, c: byte)
    requires Windowed(s, Layout(text))
    ensures Windowed(Putc(s, c), Layout(text + [c]))
    ensures Shows(s, Layout(text)) ==> Shows(Putc(s, c), Layout(text + [c]))
    ensures Putc(s, c).page[SCREEN_BYTES..] == s.page[SCREEN_BYTES..]
  {
    LayoutPut(text, c);
    SettledShows(s, Layout(text));
    if IsBreak(c) {
      BreakShows(Settled(s), Layout(text));
    } else {
      WriteShows(Settled(s), Layout(text), c);
    }
  }

  lemma {:induction false} PutsShows(s: Screen, text: seq<byte>, more: seq<byte>)
    requires Windowed(s, Layout(text))
    ensures Windowed(Puts(s, more), Layout(text + more))
    ensures Shows(s, Layout(text)) ==> Shows(Puts(s, more), Layout(text + more))
    ensures Puts(s, more).page[SCREEN_BYTES..] == s.page[SCREEN_BYTES..]
  {
    assert CursorOk(s.x, s.y);
    hide Windowed, Shows, Putc;
    if more == [] {
      assert text + more == text;
    } else {
      var init, c := more[..|more| - 1], more[|more| - 1];
      PutsShows(s, text, init);
      PutcShows(Puts(s, init), text + init, c);
      assert text + init + [c] == text + more;
    }
  }

  lemma {:induction false} PutsJoins(s: Screen, a: seq<byte>, b: seq<byte>)
    requires CursorOk(s.x, s.y)
    ensures Puts(s, a + b) == Puts(Puts(s, a), b)
    decreases |b|
  {
    hide Putc;
    if b == [] {
      assert a + b == a;
    } else {
      var ab := a + b;
      assert ab[..|ab| - 1] == a + b[..|b| - 1];
      PutsJoins(s, a, b[..|b| - 1]);
    }
  }

  lemma ClearShows(s: Screen)
    ensures Shows(Clear(s), Layout([]))
    ensures Clear(s).page[SCREEN_BYTES..] == s.page[SCREEN_BYTES..]
  {
  }

  // For every text, what is on the screen is a window onto the layout of the
  // whole text, and no write touches the page beyond its 4000 screen bytes.
  lemma ConsoleShowsLayout(s: Screen, text: seq<byte>)
    ensures Shows(Puts(Clear(s), text), Layout(text))
    ensures Puts(Clear(s), text).page[SCREEN_BYTES..] == s.page[SCREEN_BYTES..]
  {
    ClearShows(s);
    PutsShows(Clear(s), [], text);
    assert [] + text == text;
  }

  // ----- Backspace on the layout -----

  function Spaces(n: nat): (r: seq<byte>)
    ensures |r| == n
  {
    if n == 0 then [] else Spaces(n - 1) + [SPACE]
  }

  // Backspace takes back the last character. Over a break it goes to the last column
  // of the row above, so the text becomes one with spaces up to there.
  function RubbedText(text: seq<byte>): seq<byte> {
    if text == [] then []
    else
      var init := text[..|text| - 1];
      if IsBreak(text[|text| - 1]) then init + Spaces(COLS - 1 - |LastRow(Layout(init))|) else init
  }

  lemma {:induction false} LayoutSpaces(text: seq<byte>, n: nat)
    requires |LastRow(Layout(text))| + n < COLS
    ensures var rows := Layout(text);
      Layout(text + Spaces(n)) == rows[..|rows| - 1] + [LastRow(rows) + Spaces(n)]
    decreases n
  {
    if n == 0 {
      assert text + Spaces(n) == text && LastRow(Layout(text)) + Spaces(n) == LastRow(Layout(text));
    } else {
      LayoutSpaces(text, n - 1);
      assert text + Spaces(n) == text + Spaces(n - 1) + [SPACE];
      LayoutPut(text + Spaces(n - 1), SPACE);
      assert LastRow(Layout(text)) + Spaces(n) == LastRow(Layout(text)) + Spaces(n - 1) + [SPACE];
    }
  }

  lemma {:induction false} SpacesAreSpaces(n: nat, i: nat)
    requires i < n
    ensures Spaces(n)[i] == SPACE
  {
    if i < n - 1 {
      SpacesAreSpaces(n - 1, i);
    }
  }

  // Rows with the last one filled with spaces up to the last column.
  function RowsPadded(rows: Rows): (r: Rows)
    requires |LastRow(rows)| < COLS
    ensures |r| == |rows| && |LastRow(r)| == COLS - 1
  {
    rows[..|rows| - 1] + [LastRow(rows) + Spaces(COLS - 1 - |LastRow(rows)|)]
  }

  lemma PaddedChar(rows: Rows, r: int, k: nat)
    requires |LastRow(rows)| < COLS
    ensures LayoutChar(RowsPadded(rows), r, k) == LayoutChar(rows, r, k)
  {
    var at := |LastRow(rows)|;
    if at <= k < COLS - 1 {
      SpacesAreSpaces(COLS - 1 - at, k - at);
    }
  }

  lemma RubbedRows(text: seq<byte>)
    requires text != []
    ensures var init, c := text[..|text| - 1], text[|text| - 1];
      && Layout(text) == Extended(Layout(init), c)
      && Layout(RubbedText(text)) == if IsBreak(c) then RowsPadded(Layout(init)) else Layout(init)
  {
    hide Extended, Spaces;
    var init, c := text[..|text| - 1], text[|text| - 1];
    if IsBreak(c) {
      LayoutSpaces(init, COLS - 1 - |LastRow(Layout(init))|);
    }
  }

  // What is left differs from what was there in one blanked cell.
  lemma RubbedChar(prev: Rows, c: byte, r: int, k: nat)
    requires |LastRow(prev)| < COLS && k < COLS
    ensures var rows, less := Extended(prev, c), if IsBreak(c) then RowsPadded(prev) else prev;
      && (LastRow(rows) == [] ==> |less| == |rows| - 1 && |LastRow(less)| == COLS - 1)
      && (LastRow(rows) != [] ==> |less| == |rows| && |LastRow(less)| == |LastRow(rows)| - 1)
      && LayoutChar(less, r, k) ==
         if r == |less| - 1 && k == |LastRow(less)| then SPACE else LayoutChar(rows, r, k)
  {
    if IsBreak(c) {
      hide Spaces;
      PaddedChar(prev, r, k);
    } else {
      ExtendedChar(prev, c, r, k);
    }
  }

  lemma BackShows(s: Screen, text: seq<byte>)
    requires Windowed(s, Layout(text)) && (s.x != 0 || s.y != 0)
    ensures Windowed(Back(s), Layout(RubbedText(text)))
  {
    assert text != [];
    RubbedRows(text);
    BackShowsRows(s, Layout(text[..|text| - 1]), text[|text| - 1]);
  }

  lemma BackShowsRows(s: Screen, prev: Rows, c: byte)
    requires |LastRow(prev)| < COLS && Windowed(s, Extended(prev, c)) && (s.x != 0 || s.y != 0)
    ensures Windowed(Back(s), if IsBreak(c) then RowsPadded(prev) else prev)
  {
    hide Extended, RowsPadded, LayoutChar, Scrolled, WithCell, Char, Attr;
    var rows, less, r := Extended(prev, c), if IsBreak(c) then RowsPadded(prev) else prev, Back(s);
    RubbedChar(prev, c, 0, 0);
    forall i, k | 0 <= i < ROWS && 0 <= k < COLS
      ensures Char(r.page, i, k) == LayoutChar(less, |less| - 1 - r.y + i, k)
      ensures Attr(r.page, i, k) == ATTRIB
    {
      RubbedChar(prev, c, |less| - 1 - r.y + i, k);
      WrittenCell(s.page, r.y, r.x, SPACE, i, k);
      assert Char(s.page, i, k) == LayoutChar(rows, |rows| - 1 - s.y + i, k);
      assert Attr(s.page, i, k) == ATTRIB;
    }
  }

  // ----- An input on which backspace is no reverse -----

  lemma {:induction false} FilledCursor(s: Screen, text: seq<byte>)
    requires |text| <= CELLS && forall c :: c in text ==> !IsBreak(c)
    ensures var r := Puts(Clear(s), text); r.x < COLS && COLS * r.y + r.x == |text|
  {
    if text != [] {
      var init := text[..|text| - 1];
      FilledCursor(s, init);
      var before := Puts(Clear(s), init);
      assert before.y < ROWS;
      assert !IsBreak(text[|text| - 1]);
    }
  }

  // After any 2000 characters without a break, one more makes the screen scroll, and
  // backspace does not bring back what it showed.
  lemma BackLosesTheScroll(s: Screen, text: seq<byte>, c: byte)
    requires |text| == CELLS && forall c :: c in text ==> !IsBreak(c)
    ensures var full := Puts(Clear(s), text); full.y == ROWS && Back(Putc(full, c)) != full
  {
    FilledCursor(s, text);
    BackReversesPutcExactlyWhen(Puts(Clear(s), text), c);
  }
}

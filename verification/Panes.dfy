/** A screen with its cursor against the lines of text behind it: when they show the same, and what keeps
    them together. */
module Panes {
  import opened Bytes
  import opened Layout
  import opened Scrollback
  import opened Pixels

  /** The bytes of the framebuffer and the position of the cursor. */
  datatype Pane = Pane(buf: seq<byte>, x: nat, y: nat)

  // ---- The viewport ----

  /** The lines a viewport of `rows` rows shows, `back` lines away from the newest one. */
  function Window(all: seq<Line>, rows: nat, back: nat): seq<Line> {
    var off := if back <= MaxBack(|all|, rows) then back else MaxBack(|all|, rows);
    var first := if |all| <= rows + off then 0 else |all| - (rows + off);
    all[first..|all| - off]
  }

  /** How far a viewport can be scrolled back. */
  function MaxBack(total: nat, rows: nat): (r: nat)
    ensures r <= total
  {
    if total <= rows then 0 else total - rows
  }

  lemma WindowSize(all: seq<Line>, rows: nat, back: nat)
    ensures |Window(all, rows, back)| == if |all| < rows then |all| else rows
  {
  }

  /** The window holds as many lines as there are rows, or all of them, and ends `back` lines before the newest,
      or as far back as the lines go. */
  lemma WindowMeans(all: seq<Line>, rows: nat, back: nat, i: nat)
    requires i < |Window(all, rows, back)|
    ensures var n := if |all| < rows then |all| else rows;
            var off := if back < |all| - n then back else |all| - n;
            |Window(all, rows, back)| == n && Window(all, rows, back)[i] == all[|all| - off - n + i]
  {
  }

  lemma WindowIs(all: seq<Line>, rows: nat, back: nat, first: nat, last: nat)
    requires last == |all| - (if back <= MaxBack(|all|, rows) then back else MaxBack(|all|, rows))
    requires first == if last <= rows then 0 else last - rows
    ensures first <= last && Window(all, rows, back) == all[first..last]
  {
  }

  /** The pane shows the window `back` lines from the newest, with the cursor behind its last line. */
  ghost predicate Shows(sc: Screen, p: Pane, all: seq<Line>, back: nat)
    requires sc.Ok()
  {
    var window := Window(all, sc.Rows(), back);
    && Displays(sc, p.buf, window) && window != []
    && p.y == BORDER + (|window| - 1) * ROW_HEIGHT && LineEnd(sc, window[|window| - 1], p.x)
  }

  /** What a pane that shows a window says of the cursor: in the last row of the window, behind its last character
      that ends left of the last pixel column. */
  lemma CursorMeans(sc: Screen, p: Pane, all: seq<Line>, back: nat) returns (line: Line, k: nat)
    requires sc.Ok() && Shows(sc, p, all, back)
    ensures var rows := (sc.height - 2) / 18;
            var n := if |all| < rows then |all| else rows;
            var off := if back < |all| - n then back else |all| - n;
            n > 0 && line == all[|all| - off - 1] && p.y == 1 + (n - 1) * 18
    ensures k <= |line| && p.x == 1 + k * sc.glyphWidth && (k > 0 ==> p.x < sc.width)
    ensures k < |line| ==> p.x + sc.glyphWidth >= sc.width
  {
    var window := Window(all, sc.Rows(), back);
    WindowMeans(all, sc.Rows(), back, |window| - 1);
    line := window[|window| - 1];
    k :| k <= |line| && ColumnAt(sc, k, p.x) && (k < |line| ==> !ColumnFits(sc, k))
    && (k > 0 ==> ColumnFits(sc, k - 1));
    MulStep(k, sc.glyphWidth);
  }

  lemma ShowsOf(sc: Screen, p: Pane, all: seq<Line>, back: nat, first: nat, last: nat)
    requires sc.Ok() && all != []
    requires last == |all| - (if back <= MaxBack(|all|, sc.Rows()) then back else MaxBack(|all|, sc.Rows()))
    requires first == if last <= sc.Rows() then 0 else last - sc.Rows()
    requires first < last && Displays(sc, p.buf, all[first..last]) && LineEnd(sc, all[last - 1], p.x)
    requires p.y == BORDER + (last - first - 1) * ROW_HEIGHT
    ensures Shows(sc, p, all, back)
  {
    WindowIs(all, sc.Rows(), back, first, last);
  }

  /** A blank screen with the cursor home shows one empty line. */
  lemma ShowsBlank(sc: Screen, p: Pane)
    requires sc.Ok() && Displays(sc, p.buf, []) && p.x == p.y == BORDER
    ensures Shows(sc, p, [[]], 0)
  {
    RowsSize(sc);
    EmptyEnds(sc);
    DisplaysEmpty(sc, p.buf, []);
    var empty: Line := [];
    assert [] + [empty] == [empty] && Window([empty], sc.Rows(), 0) == [empty];
  }

  // ---- Advancing a row ----

  /** The row below, or the bottom row when there is none. */
  function NextRow(sc: Screen, y: nat): nat {
    if Overflows(sc, y) then BORDER + (if sc.Rows() == 0 then 0 else sc.Rows() - 1) * ROW_HEIGHT else y + ROW_HEIGHT
  }

  predicate Overflows(sc: Screen, y: nat) {
    y + ROW_HEIGHT + GLYPH_HEIGHT + BORDER >= sc.height
  }

  /** The cursor went to the next row: the screen stays, or the newest window of `all` was redrawn. */
  ghost predicate Advanced(sc: Screen, was: Pane, now: Pane, all: seq<Line>)
    requires sc.Ok()
  {
    && now.x == BORDER && now.y == NextRow(sc, was.y)
    && if Overflows(sc, was.y) then Displays(sc, now.buf, Window(all, sc.Rows(), 0)) else now.buf == was.buf
  }

  // ---- Drawing a glyph at the cursor ----

  /** `GlyphDrawn`, folded. */
  ghost predicate Inked(sc: Screen, was: seq<byte>, now: seq<byte>, x: nat, y: nat, c: char)
    requires sc.Ok()
  {
    forall ch: char {:trigger GlyphDrawn(sc, was, now, x, y, ch)} :: ch == c ==> GlyphDrawn(sc, was, now, x, y, ch)
  }

  /** The cursor must leave its row before the next glyph. */
  predicate Wraps(sc: Screen, was: Pane, full: bool) {
    full || was.x + sc.glyphWidth >= sc.width
  }

  /** The glyph of `c` was drawn at the cursor, after a new row if the line was full or the glyph would
      touch the edge, and the cursor is behind it. `base` is the screen before the glyph: unchanged, or
      the newest window of `all` if the new row made it redraw. No other pixel changed. */
  ghost predicate LiveDrawn(sc: Screen, was: Pane, base: seq<byte>, now: Pane, c: char, full: bool, all: seq<Line>)
    requires sc.Ok()
  {
    var wraps := Wraps(sc, was, full);
    var x, y := if wraps then BORDER else was.x, if wraps then NextRow(sc, was.y) else was.y;
    && (if wraps && Overflows(sc, was.y) then Displays(sc, base, Window(all, sc.Rows(), 0)) else base == was.buf)
    && Inked(sc, base, now.buf, x, y, c) && now.x == x + sc.glyphWidth && now.y == y
  }

  ghost predicate Drawn(sc: Screen, was: Pane, now: Pane, c: char, full: bool, all: seq<Line>)
    requires sc.Ok()
  {
    exists base :: LiveDrawn(sc, was, base, now, c, full, all)
  }

  /** A new row for a full line, then the glyph. */
  lemma FullThenDrawn(sc: Screen, was: Pane, mid: Pane, base: seq<byte>, now: Pane, c: char, all: seq<Line>)
    requires sc.Ok() && Advanced(sc, was, mid, all) && LiveDrawn(sc, mid, base, now, c, false, all)
    ensures LiveDrawn(sc, was, base, now, c, true, all)
  {
  }

  // ---- Staying in step ----

  /** Whether a newline keeps the screen in step with a ring of `n` lines: while the viewport is not full,
      as long as the ring is not; then always, except on a screen with room for a row more than
      `viewport_rows` says. */
  predicate NewlineKeeps(sc: Screen, n: nat) {
    if n + 1 < sc.Rows() then n < SCROLLBACK_LINES else sc.height % ROW_HEIGHT != 1
  }

  /** The two characters look the same on this screen. */
  ghost predicate LookAlike(sc: Screen, c: char, d: char)
    requires sc.Ok()
  {
    forall gx: nat, gy: nat {:trigger sc.Ink(c, gx, gy)} :: gx < sc.glyphWidth && gy < GLYPH_HEIGHT ==>
      sc.Ink(c, gx, gy) == sc.Ink(d, gx, gy)
  }

  /** Whether a character that does not fit its line leaves the screen in step. It goes to the next row,
      where no line of the log has it. Only on a screen of one column can that pass unnoticed: in the
      bottom row, redrawn, where it covers the first character of its line and looks just like it. */
  ghost predicate OverhangKeeps(sc: Screen, n: nat, line: Line, c: char)
    requires sc.Ok() && line != []
  {
    !ColumnFits(sc, 1) && n + 1 >= sc.Rows() && sc.height % ROW_HEIGHT != 1 && LookAlike(sc, c, line[0])
  }

  /** Whether writing `c` keeps the screen in step. */
  ghost predicate Tame(sc: Screen, log: Log, c: char)
    requires sc.Ok()
  {
    var n := |LastLines(log.lines)|;
    if c == '\n' then NewlineKeeps(sc, n)
    else if c == '\r' then log.current == []
    else if ByteLen(log.current) >= MAX_LINE_LEN then NewlineKeeps(sc, n)
    else ColumnFits(sc, |log.current|) || (log.current != [] && OverhangKeeps(sc, n, log.current, c))
  }

  lemma RowsSize(sc: Screen)
    requires sc.Ok()
    ensures sc.Rows() >= 1 && sc.Rows() * ROW_HEIGHT <= sc.height - 2 < (sc.Rows() + 1) * ROW_HEIGHT
    ensures (sc.Rows() + 1) * ROW_HEIGHT >= sc.height <==> sc.height % ROW_HEIGHT != 1
  {
  }

  /** The bottom row of a full viewport overflows, unless the height leaves one pixel too many. */
  lemma OverflowIs(sc: Screen, w: nat)
    requires sc.Ok() && 1 <= w <= sc.Rows()
    ensures Overflows(sc, BORDER + (w - 1) * ROW_HEIGHT) <==> w == sc.Rows() && sc.height % ROW_HEIGHT != 1
  {
    RowsSize(sc);
    MulMono(w + 1, sc.Rows() + 1, ROW_HEIGHT);
  }

  /** The ring after a line was pushed. */
  function Ringed(ring: seq<Line>, line: Line): (r: seq<Line>)
    ensures |r| == if |ring| == SCROLLBACK_LINES then |ring| else |ring| + 1
  {
    (if |ring| == SCROLLBACK_LINES then ring[1..] else ring) + [line]
  }

  lemma WindowLast(all: seq<Line>, rows: nat)
    requires all != [] && rows >= 1
    ensures Window(all, rows, 0) != [] && Window(all, rows, 0)[|Window(all, rows, 0)| - 1] == all[|all| - 1]
  {
  }

  lemma EmptyEnds(sc: Screen)
    ensures LineEnd(sc, [], BORDER)
  {
    assert ColumnAt(sc, 0, BORDER);
  }

  /** A newline keeps the pane in step exactly when `NewlineKeeps` says so. */
  lemma NewlineSync(sc: Screen, was: Pane, now: Pane, ring: seq<Line>, current: Line)
    requires sc.Ok() && |ring| <= SCROLLBACK_LINES && Shows(sc, was, ring + [current], 0)
    requires Advanced(sc, was, now, Ringed(ring, current) + [[]])
    ensures Shows(sc, now, Ringed(ring, current) + [[]], 0) <==> NewlineKeeps(sc, |ring|)
  {
    var rows := sc.Rows();
    var all, all' := ring + [current], Ringed(ring, current) + [[]];
    var w := |Window(all, rows, 0)|;
    RowsSize(sc);
    WindowSize(all, rows, 0);
    WindowSize(all', rows, 0);
    WindowLast(all', rows);
    EmptyEnds(sc);
    OverflowIs(sc, w);
    if w < rows && |ring| < SCROLLBACK_LINES {
      assert Window(all, rows, 0) == all && Window(all', rows, 0) == all + [[]];
      DisplaysEmpty(sc, was.buf, all);
    }
  }

  lemma FitsBefore(sc: Screen, j: nat, k: nat)
    requires k <= j && ColumnFits(sc, j)
    ensures ColumnFits(sc, k)
  {
    MulMono(k + 1, j + 1, sc.glyphWidth);
  }

  /** A line that fits ends behind its last character. */
  lemma FittingEnd(sc: Screen, line: Line, x: nat)
    requires LineEnd(sc, line, x) && ColumnFits(sc, |line|)
    ensures ColumnAt(sc, |line|, x) && x + sc.glyphWidth < sc.width
  {
    var k: nat :| k <= |line| && ColumnAt(sc, k, x) && (k < |line| ==> !ColumnFits(sc, k));
    FitsBefore(sc, |line|, k);
    MulStep(|line|, sc.glyphWidth);
  }

  lemma EndsAfter(sc: Screen, line: Line, c: char, x: nat)
    requires ColumnAt(sc, |line|, x) && ColumnFits(sc, |line|)
    ensures LineEnd(sc, line + [c], x + sc.glyphWidth)
  {
    MulStep(|line|, sc.glyphWidth);
    assert ColumnAt(sc, |line| + 1, x + sc.glyphWidth);
  }

  lemma WindowGrows(ring: seq<Line>, current: Line, rows: nat, c: char) returns (above: seq<Line>)
    requires rows >= 1
    ensures Window(ring + [current], rows, 0) == above + [current]
    ensures Window(ring + [current + [c]], rows, 0) == above + [current + [c]]
  {
    var first := if |ring| + 1 <= rows then 0 else |ring| + 1 - rows;
    above := ring[first..];
  }

  /** A character that fits keeps the pane in step. */
  lemma CharSync(sc: Screen, was: Pane, base: seq<byte>, now: Pane, ring: seq<Line>, current: Line, c: char)
    requires sc.Ok() && Shows(sc, was, ring + [current], 0) && ColumnFits(sc, |current|)
    requires LiveDrawn(sc, was, base, now, c, false, ring + [current])
    ensures Shows(sc, now, ring + [current + [c]], 0)
  {
    RowsSize(sc);
    var above := WindowGrows(ring, current, sc.Rows(), c);
    FittingEnd(sc, current, was.x);
    EndsAfter(sc, current, c, was.x);
    var _ := GlyphDrawn(sc, base, now.buf, was.x, was.y, c);
    DisplaysNext(sc, was.buf, now.buf, above, current, c, |current|, was.x, was.y);
  }

  /** A carriage return keeps the pane in step only on an empty line. */
  lemma ReturnSync(sc: Screen, was: Pane, ring: seq<Line>, current: Line)
    requires sc.Ok() && Shows(sc, was, ring + [current], 0)
    ensures Shows(sc, was.(x := BORDER), ring + [current], 0) <==> current == []
  {
    RowsSize(sc);
    WindowLast(ring + [current], sc.Rows());
    EmptyEnds(sc);
    FirstFits(sc);
    if LineEnd(sc, current, BORDER) {
      var k: nat :| k <= |current| && ColumnAt(sc, k, BORDER) && (k < |current| ==> !ColumnFits(sc, k));
      ColumnsApart(sc, k, 0, BORDER);
    }
  }

  lemma FirstFits(sc: Screen)
    requires sc.Ok()
    ensures ColumnFits(sc, 0)
  {
  }

  lemma ColumnsApart(sc: Screen, j: nat, k: nat, x: nat)
    requires sc.Ok() && ColumnAt(sc, j, x) && ColumnAt(sc, k, x)
    ensures j == k
  {
    RowsDisjoint(j, 0, k, 0, sc.glyphWidth);
  }

  /** After a full line, a character keeps the pane in step exactly when the newline does. */
  lemma FullSync(sc: Screen, was: Pane, base: seq<byte>, now: Pane, ring: seq<Line>, current: Line, c: char)
    requires sc.Ok() && |ring| <= SCROLLBACK_LINES && Shows(sc, was, ring + [current], 0)
    requires LiveDrawn(sc, was, base, now, c, true, Ringed(ring, current) + [[]])
    ensures Shows(sc, now, Ringed(ring, current) + [[c]], 0) <==> NewlineKeeps(sc, |ring|)
  {
    var ring' := Ringed(ring, current);
    var mid := Pane(base, BORDER, NextRow(sc, was.y));
    FirstFits(sc);
    NewlineSync(sc, was, mid, ring, current);
    if NewlineKeeps(sc, |ring|) {
      var empty: Line := [];
      assert empty + [c] == [c];
      CharSync(sc, mid, base, now, ring', empty, c);
    } else {
      LostRow(sc, was, now, ring, current, [c]);
    }
  }

  /** Where a newline loses the viewport's row, the cursor is not where a redraw would put it. */
  lemma LostRow(sc: Screen, was: Pane, now: Pane, ring: seq<Line>, current: Line, last: Line)
    requires sc.Ok() && |ring| <= SCROLLBACK_LINES && Shows(sc, was, ring + [current], 0)
    requires !NewlineKeeps(sc, |ring|) && now.y == NextRow(sc, was.y)
    ensures !Shows(sc, now, Ringed(ring, current) + [last], 0)
  {
    var rows := sc.Rows();
    RowsSize(sc);
    WindowSize(ring + [current], rows, 0);
    WindowSize(Ringed(ring, current) + [last], rows, 0);
    OverflowIs(sc, |Window(ring + [current], rows, 0)|);
  }

  /** A line that does not fit ends where the next glyph would touch the edge. */
  lemma CutEnd(sc: Screen, line: Line, x: nat)
    requires sc.Ok() && LineEnd(sc, line, x) && !ColumnFits(sc, |line|)
    ensures x + sc.glyphWidth >= sc.width
  {
    var k: nat :| k <= |line| && ColumnAt(sc, k, x) && (k < |line| ==> !ColumnFits(sc, k));
    MulStep(k, sc.glyphWidth);
  }

  /** One column in, a longer line ends exactly when the screen has just that column. */
  lemma OneColumnEnd(sc: Screen, line: Line)
    requires sc.Ok() && |line| >= 2
    ensures LineEnd(sc, line, BORDER + sc.glyphWidth) <==> !ColumnFits(sc, 1)
  {
    var x := BORDER + sc.glyphWidth;
    FirstFits(sc);
    assert ColumnAt(sc, 1, x);
    if LineEnd(sc, line, x) {
      var k: nat :| k <= |line| && ColumnAt(sc, k, x) && (k < |line| ==> !ColumnFits(sc, k));
      ColumnsApart(sc, k, 1, x);
    }
  }

  /** On a screen of one column, drawing `c` over the first character of the last line is no change if
      they look alike. */
  lemma CoverAlike(sc: Screen, base: seq<byte>, now: seq<byte>, above: seq<Line>, line: Line, c: char, y: nat)
    requires sc.Ok() && line != [] && !ColumnFits(sc, 1) && y == BORDER + |above| * ROW_HEIGHT
    requires Displays(sc, base, above + [line]) && GlyphDrawn(sc, base, now, BORDER, y, c)
    requires LookAlike(sc, c, line[0])
    ensures Displays(sc, now, above + [line + [c]])
  {
    assert PixelsMatch(sc, base, above + [line]);
    forall u: nat, v: nat {:trigger Pixel(sc, now, u, v)} | u < sc.stride && v < sc.height
      ensures Pixel(sc, now, u, v) == Picture(sc, above + [line + [c]], u, v)
    {
      assert Pixel(sc, base, u, v) == Picture(sc, above + [line], u, v);
      CoverAt(sc, base, now, above, line, c, y, u, v);
    }
    assert PixelsMatch(sc, now, above + [line + [c]]);
  }

  /** And only if they look alike. */
  lemma CoverSeen(sc: Screen, base: seq<byte>, now: seq<byte>, above: seq<Line>, line: Line, c: char, y: nat)
    requires sc.Ok() && line != [] && !ColumnFits(sc, 1) && |above| < sc.Rows() && y == BORDER + |above| * ROW_HEIGHT
    requires Displays(sc, base, above + [line]) && GlyphDrawn(sc, base, now, BORDER, y, c)
    requires Displays(sc, now, above + [line + [c]])
    ensures LookAlike(sc, c, line[0])
  {
    assert PixelsMatch(sc, base, above + [line]) && PixelsMatch(sc, now, above + [line + [c]]);
    RowInside(sc, |above|);
    forall gx: nat, gy: nat {:trigger sc.Ink(c, gx, gy)} | gx < sc.glyphWidth && gy < GLYPH_HEIGHT
      ensures sc.Ink(c, gx, gy) == sc.Ink(line[0], gx, gy)
    {
      var u, v := BORDER + gx, y + gy;
      assert Pixel(sc, now, u, v) == Picture(sc, above + [line + [c]], u, v);
      assert Pixel(sc, base, u, v) == Picture(sc, above + [line], u, v);
      CoverAt(sc, base, now, above, line, c, y, u, v);
    }
  }

  /** What the pixels of that row show and should show. */
  lemma CoverAt(sc: Screen, base: seq<byte>, now: seq<byte>, above: seq<Line>, line: Line, c: char, y: nat, u: nat,
                v: nat)
    requires sc.Ok() && line != [] && !ColumnFits(sc, 1) && y == BORDER + |above| * ROW_HEIGHT && u < sc.stride
    requires GlyphDrawn(sc, base, now, BORDER, y, c) && Pixel(sc, base, u, v) == Picture(sc, above + [line], u, v)
    ensures if InCell(sc, BORDER, y, u, v)
            then Pixel(sc, now, u, v) == sc.Ink(c, u - BORDER, v - y)
                 && Picture(sc, above + [line + [c]], u, v) == sc.Ink(line[0], u - BORDER, v - y)
            else Pixel(sc, now, u, v) == Picture(sc, above + [line + [c]], u, v)
  {
    CellPixels(sc, 0, |above|, BORDER, y, u, v);
    PictureOver(sc, above, line, c, u, v);
    assert (above + [line])[|above|] == line;
  }

  /** Beyond the first column nothing is shown. */
  lemma PictureOver(sc: Screen, above: seq<Line>, line: Line, c: char, u: nat, v: nat)
    requires sc.Ok() && line != [] && !ColumnFits(sc, 1)
    ensures Picture(sc, above + [line + [c]], u, v) == Picture(sc, above + [line], u, v)
  {
    assert (line + [c])[..1] == line[..1];
    PictureCut(sc, above, line + [c], 1, u, v);
    PictureCut(sc, above, line, 1, u, v);
  }

  /** A character that does not fit its line keeps the pane in step exactly when `OverhangKeeps`. */
  lemma OverhangSync(sc: Screen, was: Pane, base: seq<byte>, now: Pane, ring: seq<Line>, current: Line, c: char)
    requires sc.Ok() && Shows(sc, was, ring + [current], 0) && !ColumnFits(sc, |current|)
    requires LiveDrawn(sc, was, base, now, c, false, ring + [current])
    ensures current != []
    ensures Shows(sc, now, ring + [current + [c]], 0) <==> OverhangKeeps(sc, |ring|, current, c)
  {
    RowsSize(sc);
    FirstFits(sc);
    var above := WindowGrows(ring, current, sc.Rows(), c);
    WindowSize(ring + [current], sc.Rows(), 0);
    CutEnd(sc, current, was.x);
    OneColumnEnd(sc, current + [c]);
    OverflowIs(sc, |above| + 1);
    if Overflows(sc, was.y) && !ColumnFits(sc, 1) {
      var _ := GlyphDrawn(sc, base, now.buf, BORDER, now.y, c);
      if LookAlike(sc, c, current[0]) {
        CoverAlike(sc, base, now.buf, above, current, c, now.y);
      } else if Displays(sc, now.buf, above + [current + [c]]) {
        CoverSeen(sc, base, now.buf, above, current, c, now.y);
      }
    }
  }

  // ---- Whole texts ----

  /** The pane shows the newest lines of the log; folded like `Displays`. */
  ghost predicate InStep(sc: Screen, p: Pane, log: Log)
    requires sc.Ok()
  {
    forall l: Log {:trigger ShowsLog(sc, p, l)} :: l == log ==> ShowsLog(sc, p, l)
  }

  ghost predicate ShowsLog(sc: Screen, p: Pane, log: Log)
    requires sc.Ok()
  {
    Shows(sc, p, LastLines(log.lines) + [log.current], 0)
  }

  /** What writing `c` at the live tail does to the pane, `log` being the log before. */
  ghost predicate CharStep(sc: Screen, was: Pane, now: Pane, log: Log, c: char)
    requires sc.Ok()
  {
    var log' := Put(log, c);
    var ring, current := LastLines(log'.lines), log'.current;
    if c == '\n' then Advanced(sc, was, now, ring + [current])
    else if c == '\r' then now == was.(x := BORDER)
    else
      var full := ByteLen(log.current) >= MAX_LINE_LEN;
      current != [] && Drawn(sc, was, now, c, full, ring + [current[..|current| - 1]])
  }

  lemma FullStepSync(sc: Screen, was: Pane, now: Pane, log: Log, c: char)
    requires sc.Ok() && ShowsLog(sc, was, log) && CharStep(sc, was, now, log, c)
    requires c != '\n' && c != '\r' && ByteLen(log.current) >= MAX_LINE_LEN
    ensures ShowsLog(sc, now, Put(log, c)) <==> NewlineKeeps(sc, |LastLines(log.lines)|)
  {
    var ring := LastLines(log.lines);
    LastLinesSnoc(log.lines, log.current);
    assert [c][..0] == [];
    var base :| LiveDrawn(sc, was, base, now, c, true, Ringed(ring, log.current) + [[]]);
    FullSync(sc, was, base, now, ring, log.current, c);
  }

  lemma LineStepSync(sc: Screen, was: Pane, now: Pane, log: Log, c: char)
    requires sc.Ok() && ShowsLog(sc, was, log) && CharStep(sc, was, now, log, c)
    requires c != '\n' && c != '\r' && ByteLen(log.current) < MAX_LINE_LEN
    ensures ColumnFits(sc, |log.current|) ==> ShowsLog(sc, now, Put(log, c))
    ensures !ColumnFits(sc, |log.current|) ==>
              log.current != []
              && (ShowsLog(sc, now, Put(log, c)) <==> OverhangKeeps(sc, |LastLines(log.lines)|, log.current, c))
  {
    var ring, current := LastLines(log.lines), log.current;
    assert (current + [c])[..|current|] == current;
    var base :| LiveDrawn(sc, was, base, now, c, false, ring + [current]);
    if ColumnFits(sc, |current|) {
      CharSync(sc, was, base, now, ring, current, c);
    } else {
      OverhangSync(sc, was, base, now, ring, current, c);
    }
  }

  /** A character keeps the pane in step with the log if and only if it is tame. */
  lemma StepSync(sc: Screen, was: Pane, now: Pane, log: Log, c: char)
    requires sc.Ok() && ShowsLog(sc, was, log) && CharStep(sc, was, now, log, c)
    ensures ShowsLog(sc, now, Put(log, c)) <==> Tame(sc, log, c)
  {
    if c == '\n' {
      LastLinesSnoc(log.lines, log.current);
      NewlineSync(sc, was, now, LastLines(log.lines), log.current);
    } else if c == '\r' {
      ReturnSync(sc, was, LastLines(log.lines), log.current);
    } else if ByteLen(log.current) >= MAX_LINE_LEN {
      FullStepSync(sc, was, now, log, c);
    } else {
      LineStepSync(sc, was, now, log, c);
    }
  }

  /** A glyph drawn on the line is what writing the character does. */
  lemma LineStep(sc: Screen, was: Pane, base: seq<byte>, now: Pane, log: Log, c: char)
    requires sc.Ok() && c != '\n' && c != '\r' && ByteLen(log.current) < MAX_LINE_LEN
    requires LiveDrawn(sc, was, base, now, c, false, LastLines(log.lines) + [log.current])
    ensures CharStep(sc, was, now, log, c)
  {
    assert (log.current + [c])[..|log.current|] == log.current;
  }

  /** A new row and a glyph at its start are what writing the character after a full line does. */
  lemma NewLineStep(sc: Screen, was: Pane, mid: Pane, base: seq<byte>, now: Pane, log: Log, c: char)
    requires sc.Ok() && c != '\n' && c != '\r' && ByteLen(log.current) >= MAX_LINE_LEN
    requires Advanced(sc, was, mid, LastLines(log.lines + [log.current]) + [[]])
    requires LiveDrawn(sc, mid, base, now, c, false, LastLines(log.lines + [log.current]) + [[]])
    ensures CharStep(sc, was, now, log, c)
  {
    assert [c][..0] == [];
    FullThenDrawn(sc, was, mid, base, now, c, LastLines(log.lines + [log.current]) + [[]]);
  }

  /** The row below is 18 pixels down; from where its glyphs would touch the lower border it is the bottom row. */
  lemma NextRowMeans(sc: Screen, y: nat)
    requires sc.Ok()
    ensures Overflows(sc, y) <==> y + 35 >= sc.height
    ensures NextRow(sc, y) == if y + 35 < sc.height then y + 18 else 1 + ((sc.height - 2) / 18 - 1) * 18
  {
    RowsSize(sc);
  }

  /** What writing a character at the live tail does to the screen: a character after a line of 256 bytes or at the
      right edge goes to the row below, which may redraw the screen; then its glyph is drawn at the cursor, no other
      byte changes, and the cursor is right of it. */
  lemma StepMeans(sc: Screen, was: Pane, now: Pane, log: Log, c: char) returns (base: seq<byte>, x: nat, y: nat)
    requires sc.Ok() && CharStep(sc, was, now, log, c) && c != '\n' && c != '\r'
    ensures var wraps := ByteLen(log.current) >= 256 || was.x + sc.glyphWidth >= sc.width;
            && x == (if wraps then 1 else was.x) && y == (if wraps then NextRow(sc, was.y) else was.y)
            && (base == was.buf || (wraps && was.y + 35 >= sc.height))
    ensures now.x == x + sc.glyphWidth && now.y == y && GlyphDrawn(sc, base, now.buf, x, y, c)
  {
    var log' := Put(log, c);
    var full := ByteLen(log.current) >= MAX_LINE_LEN;
    var all := LastLines(log'.lines) + [log'.current[..|log'.current| - 1]];
    base :| LiveDrawn(sc, was, base, now, c, full, all);
    var wraps := Wraps(sc, was, full);
    x, y := if wraps then BORDER else was.x, if wraps then NextRow(sc, was.y) else was.y;
    var _ := GlyphDrawn(sc, base, now.buf, x, y, c);
    NextRowMeans(sc, was.y);
  }

  /** `CharStep` and `Tame` at character `i` of `s`, written after `text`; folded like `Displays`. */
  ghost predicate StepAt(sc: Screen, was: Pane, now: Pane, text: seq<char>, s: seq<char>, i: nat)
    requires sc.Ok() && i < |s|
  {
    forall l: Log {:trigger CharStep(sc, was, now, l, s[i])} :: l == LogOf(text + s[..i]) ==>
      CharStep(sc, was, now, l, s[i])
  }

  ghost predicate TameAt(sc: Screen, text: seq<char>, s: seq<char>, i: nat)
    requires sc.Ok() && i < |s|
  {
    forall l: Log {:trigger Tame(sc, l, s[i])} :: l == LogOf(text + s[..i]) ==> Tame(sc, l, s[i])
  }

  /** The panes while the first `n` characters of `s` are written after `text`, one more than characters. */
  ghost predicate WrittenTo(sc: Screen, panes: seq<Pane>, text: seq<char>, s: seq<char>, n: nat)
    requires sc.Ok() && n <= |s| && n < |panes|
  {
    n == 0 || (WrittenTo(sc, panes, text, s, n - 1) && StepAt(sc, panes[n - 1], panes[n], text, s, n - 1))
  }

  /** Whether each pane is in step. */
  ghost function PaneSteps(sc: Screen, panes: seq<Pane>, text: seq<char>, s: seq<char>): (r: seq<bool>)
    requires sc.Ok() && |panes| == |s| + 1
    ensures |r| == |panes| && forall i :: 0 <= i < |r| ==> r[i] == InStep(sc, panes[i], LogOf(text + s[..i]))
  {
    seq(|panes|, i requires 0 <= i < |panes| => InStep(sc, panes[i], LogOf(text + s[..i])))
  }

  /** Whether each character is tame. */
  ghost function CharSteps(sc: Screen, text: seq<char>, s: seq<char>): (r: seq<bool>)
    requires sc.Ok()
    ensures |r| == |s| && forall i :: 0 <= i < |r| ==> r[i] == TameAt(sc, text, s, i)
  {
    seq(|s|, i requires 0 <= i < |s| => TameAt(sc, text, s, i))
  }

  ghost predicate All(b: seq<bool>) {
    forall i :: 0 <= i < |b| ==> b[i]
  }

  /** Every pane while `s` is written is in step. */
  ghost predicate AllInStep(sc: Screen, panes: seq<Pane>, text: seq<char>, s: seq<char>)
    requires sc.Ok() && |panes| == |s| + 1
  {
    All(PaneSteps(sc, panes, text, s))
  }

  /** Every character of `s`, written after `text`, is tame. */
  ghost predicate AllTame(sc: Screen, text: seq<char>, s: seq<char>)
    requires sc.Ok()
  {
    All(CharSteps(sc, text, s))
  }

  /** If, as long as `a` holds, it goes on to hold exactly where `b` does, then both hold throughout or
      neither. */
  lemma {:induction false} Throughout(a: seq<bool>, b: seq<bool>)
    requires |a| == |b| + 1 && a[0] && forall i :: 0 <= i < |b| && a[i] ==> a[i + 1] == b[i]
    ensures All(a) == All(b)
    decreases |b|
  {
    if b != [] {
      var n := |b| - 1;
      Throughout(a[..n + 1], b[..n]);
      AllSnoc(a);
      AllSnoc(b);
    }
  }

  lemma AllSnoc(b: seq<bool>)
    requires b != []
    ensures All(b) == (All(b[..|b| - 1]) && b[|b| - 1])
    ensures |b| >= 2 && All(b[..|b| - 1]) ==> b[|b| - 2]
  {
    if All(b[..|b| - 1]) {
      assert forall i :: 0 <= i < |b| - 1 ==> b[..|b| - 1][i] == b[i];
    }
    if All(b) {
      assert forall i :: 0 <= i < |b| - 1 ==> b[..|b| - 1][i] == b[i];
    }
  }

  /** One more pane. */
  lemma TextNext(text: seq<char>, s: seq<char>, i: nat)
    requires i < |s|
    ensures text + s[..i] + [s[i]] == text + s[..i + 1]
  {
  }

  lemma {:induction false} WrittenKept(sc: Screen, panes: seq<Pane>, text: seq<char>, s: seq<char>, n: nat, p: Pane)
    requires sc.Ok() && n <= |s| && n < |panes| && WrittenTo(sc, panes, text, s, n)
    ensures WrittenTo(sc, panes + [p], text, s, n)
  {
    if n > 0 {
      WrittenKept(sc, panes, text, s, n - 1, p);
    }
  }

  lemma InStepIs(sc: Screen, p: Pane, log: Log)
    requires sc.Ok()
    ensures InStep(sc, p, log) <==> ShowsLog(sc, p, log)
  {
  }

  lemma StepInStep(sc: Screen, was: Pane, now: Pane, log: Log, c: char)
    requires sc.Ok() && InStep(sc, was, log) && CharStep(sc, was, now, log, c)
    ensures InStep(sc, now, Put(log, c)) <==> Tame(sc, log, c)
  {
    InStepIs(sc, was, log);
    InStepIs(sc, now, Put(log, c));
    StepSync(sc, was, now, log, c);
  }

  lemma TextStep(sc: Screen, was: Pane, now: Pane, text: seq<char>, s: seq<char>, n: nat)
    requires sc.Ok() && n < |s| && InStep(sc, was, LogOf(text + s[..n])) && StepAt(sc, was, now, text, s, n)
    ensures InStep(sc, now, LogOf(text + s[..n + 1])) == TameAt(sc, text, s, n)
  {
    var log := LogOf(text + s[..n]);
    assert text + s[..n + 1] == text + s[..n] + [s[n]];
    LogSnoc(text + s[..n], s[n]);
    assert CharStep(sc, was, now, log, s[n]);
    StepInStep(sc, was, now, log, s[n]);
    assert TameAt(sc, text, s, n) <==> Tame(sc, log, s[n]);
  }

  lemma {:induction false} WrittenAt(sc: Screen, panes: seq<Pane>, text: seq<char>, s: seq<char>, n: nat, i: nat)
    requires sc.Ok() && n <= |s| && n < |panes| && WrittenTo(sc, panes, text, s, n) && i < n
    ensures StepAt(sc, panes[i], panes[i + 1], text, s, i)
    decreases n
  {
    if i < n - 1 {
      WrittenAt(sc, panes, text, s, n - 1, i);
    }
  }

  /** A whole text keeps the screen in step at every character if and only if every character is tame. */
  lemma TextSync(sc: Screen, panes: seq<Pane>, text: seq<char>, s: seq<char>)
    requires sc.Ok() && |panes| == |s| + 1 && WrittenTo(sc, panes, text, s, |s|) && InStep(sc, panes[0], LogOf(text))
    ensures AllInStep(sc, panes, text, s) == AllTame(sc, text, s)
  {
    var a, b := PaneSteps(sc, panes, text, s), CharSteps(sc, text, s);
    assert text + s[..0] == text;
    forall i | 0 <= i < |b| && a[i]
      ensures a[i + 1] == b[i]
    {
      WrittenAt(sc, panes, text, s, |s|, i);
      TextStep(sc, panes[i], panes[i + 1], text, s, i);
    }
    Throughout(a, b);
  }

  lemma TextOutcome(sc: Screen, panes: seq<Pane>, text: seq<char>, s: seq<char>)
    requires sc.Ok() && |panes| == |s| + 1 && WrittenTo(sc, panes, text, s, |s|) && ShowsLog(sc, panes[0], LogOf(text))
    ensures AllInStep(sc, panes, text, s) == AllTame(sc, text, s)
    ensures AllTame(sc, text, s) ==> ShowsLog(sc, panes[|s|], LogOf(text + s))
  {
    InStepIs(sc, panes[0], LogOf(text));
    TextSync(sc, panes, text, s);
    if AllTame(sc, text, s) {
      assert PaneSteps(sc, panes, text, s)[|s|];
      assert s[..|s|] == s;
      InStepIs(sc, panes[|s|], LogOf(text + s));
    }
  }

  // ---- A screen that loses step ----

  /** A screen of 37 pixel rows: `viewport_rows` is 1, but two rows of text fit. */
  ghost function OddScreen(): (sc: Screen)
    ensures sc.Ok() && sc.Rows() == 1
  {
    Screen(640, 37, 640, 4, Rgb, 9, (c: char) => seq(GLYPH_HEIGHT, _ => Zeros(9)))
  }

  /** There, a newline on the blank screen leaves the cursor in a second row that no redraw would use. */
  lemma OddScreenLosesStep(was: Pane, now: Pane)
    requires ShowsLog(OddScreen(), was, Log([], [])) && CharStep(OddScreen(), was, now, Log([], []), '\n')
    ensures now.y == BORDER + ROW_HEIGHT && !ShowsLog(OddScreen(), now, Put(Log([], []), '\n'))
  {
    var sc := OddScreen();
    var empty: Line := [];
    assert [] + [empty] == [empty] && Window([empty], 1, 0) == [empty];
    StepSync(sc, was, now, Log([], []), '\n');
  }
}

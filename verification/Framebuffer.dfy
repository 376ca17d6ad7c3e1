/** The framebuffer writer: a text cursor on a pixel buffer, and a bounded ring of past lines. */
module Framebuffer {
  import opened Bytes
  import opened Layout
  import opened Scrollback
  import opened Pixels
  import opened Panes

  class Writer {
    const screen: Screen
    const buffer: array<byte>
    var x: nat
    var y: nat
    var ring: seq<Line>
    var current: Line
    var scrollBack: nat
    ghost var text: seq<char>

    /** The ring holds the last lines of the log of all text written; the cursor's glyph row is on the
        screen; the viewport is not scrolled past the oldest line. */
    ghost predicate Valid()
      reads this
    {
      && screen.Ok() && screen.Fits(buffer.Length)
      && ring == LastLines(LogOf(text).lines) && current == LogOf(text).current
      && y + GLYPH_HEIGHT <= screen.height
      && scrollBack <= MaxBack(|ring| + 1, screen.Rows())
    }

    ghost function View(): Pane
      reads this, buffer
    {
      Pane(buffer[..], x, y)
    }

    /** At the live tail, the screen shows the newest lines with the cursor behind the last one. */
    ghost predicate Synced()
      requires screen.Ok()
      reads this, buffer
    {
      scrollBack == 0 && Shows(screen, View(), ring + [current], 0)
    }

    constructor (sc: Screen, buf: array<byte>)
      requires sc.Ok() && sc.Fits(buf.Length)
      modifies buf
      ensures Valid() && screen == sc && buffer == buf && text == [] && scrollBack == 0
      ensures Synced()
    {
      screen, buffer := sc, buf;
      x, y := BORDER, BORDER;
      ring, current, scrollBack := [], [], 0;
      text := [];
      new;
      ClearVisible();
      assert ring + [current] == [[]];
      ShowsBlank(screen, View());
    }

    /** `clear_visible`: fill with zeros. */
    method ClearVisible()
      requires screen.Ok() && screen.Fits(buffer.Length)
      modifies buffer
      ensures Displays(screen, buffer[..], []) && forall k :: 0 <= k < buffer.Length ==> buffer[k] == 0
    {
      for i := 0 to buffer.Length
        invariant forall k :: 0 <= k < i ==> buffer[k] == 0
      {
        buffer[i] := 0;
      }
      DisplaysNothing(screen, buffer[..]);
    }

    /** `clear`: blank screen, cursor home; the ring stays. */
    method Clear()
      requires Valid()
      modifies this`x, this`y, buffer
      ensures Valid() && Displays(screen, buffer[..], []) && x == y == 1
      ensures forall k :: 0 <= k < buffer.Length ==> buffer[k] == 0
    {
      x, y := BORDER, BORDER;
      ClearVisible();
    }

    // ---- Pixels ----

    /** `write_pixel`. */
    method WritePixel(px: nat, py: nat, intensity: byte)
      requires screen.Ok() && screen.Fits(buffer.Length) && px < screen.stride && py < screen.height
      modifies buffer
      ensures PixelSet(screen, old(buffer[..]), buffer[..], px, py, intensity)
    {
      PixelInside(screen, buffer.Length, px, py);
      ghost var was := buffer[..];
      PutBytes(screen.Offset(px, py), screen.Color(intensity));
      PixelIsSet(screen, was, px, py, intensity);
    }

    /** `copy_from_slice` into the framebuffer. */
    method PutBytes(at: nat, bytes: seq<byte>)
      requires at + |bytes| <= buffer.Length
      modifies buffer
      ensures buffer[..] == Splice(old(buffer[..]), at, bytes)
    {
      forall k | 0 <= k < |bytes| {
        buffer[at + k] := bytes[k];
      }
    }

    /** Draw the glyph of `c` with its corner at `(gx, gy)`. */
    method DrawGlyph(gx: nat, gy: nat, c: char)
      requires screen.Ok() && screen.Fits(buffer.Length)
      requires gx + screen.glyphWidth <= screen.stride && gy + GLYPH_HEIGHT <= screen.height
      modifies buffer
      ensures GlyphDrawn(screen, old(buffer[..]), buffer[..], gx, gy, c)
    {
      var raster := screen.font(c);
      ghost var was := buffer[..];
      DrawStart(screen, was, gx, gy, raster);
      for row := 0 to GLYPH_HEIGHT
        invariant PartDrawn(screen, was, buffer[..], gx, gy, raster, row, 0)
      {
        DrawGlyphRow(gx, gy, raster, row, was);
      }
      DrawEnd(screen, was, buffer[..], gx, gy, c);
    }

    /** One row of a glyph. */
    method DrawGlyphRow(gx: nat, gy: nat, raster: seq<seq<byte>>, row: nat, ghost was: seq<byte>)
      requires screen.Ok() && screen.IsRaster(raster) && screen.Fits(buffer.Length) && row < GLYPH_HEIGHT
      requires gx + screen.glyphWidth <= screen.stride && gy + GLYPH_HEIGHT <= screen.height
      requires PartDrawn(screen, was, buffer[..], gx, gy, raster, row, 0)
      modifies buffer
      ensures PartDrawn(screen, was, buffer[..], gx, gy, raster, row + 1, 0)
    {
      for col := 0 to screen.glyphWidth
        invariant PartDrawn(screen, was, buffer[..], gx, gy, raster, row, col)
      {
        DrawGlyphPixel(gx, gy, raster, row, col, was);
      }
      DrawRowNext(screen, was, buffer[..], gx, gy, raster, row);
    }

    /** One pixel of a glyph. */
    method DrawGlyphPixel(gx: nat, gy: nat, raster: seq<seq<byte>>, row: nat, col: nat, ghost was: seq<byte>)
      requires screen.Ok() && screen.IsRaster(raster) && screen.Fits(buffer.Length)
      requires row < GLYPH_HEIGHT && col < screen.glyphWidth
      requires gx + screen.glyphWidth <= screen.stride && gy + GLYPH_HEIGHT <= screen.height
      requires PartDrawn(screen, was, buffer[..], gx, gy, raster, row, col)
      modifies buffer
      ensures PartDrawn(screen, was, buffer[..], gx, gy, raster, row, col + 1)
    {
      ghost var before := buffer[..];
      WritePixel(gx + col, gy + row, raster[row][col]);
      DrawPixelNext(screen, was, before, buffer[..], gx, gy, raster, row, col);
    }

    // ---- Redrawing ----

    /** One line of a redraw: glyph after glyph, as far as they fit. */
    method DrawLine(line: Line, py: nat, ghost above: seq<Line>) returns (px: nat)
      requires screen.Ok() && screen.Fits(buffer.Length) && |above| < screen.Rows()
               && py == BORDER + |above| * ROW_HEIGHT
      requires Displays(screen, buffer[..], above)
      modifies buffer
      ensures Displays(screen, buffer[..], above + [line]) && LineEnd(screen, line, px)
    {
      px := BORDER;
      var k := 0;
      DisplaysEmpty(screen, buffer[..], above);
      assert line[..0] == [];
      while k < |line|
        invariant k <= |line| && CellAt(screen, k, |above|, px, py) && (k > 0 ==> ColumnFits(screen, k - 1))
        invariant Displays(screen, buffer[..], above + [line[..k]])
      {
        MulStep(k, screen.glyphWidth);
        if px + screen.glyphWidth >= screen.width {
          break;
        }
        DrawColumn(line, k, px, py, above);
        px := px + screen.glyphWidth;
        k := k + 1;
      }
      DisplaysLine(screen, buffer[..], above, line, k);
      assert ColumnAt(screen, k, px);
    }

    /** Character `k` of a line of a redraw. */
    method DrawColumn(line: Line, k: nat, px: nat, py: nat, ghost above: seq<Line>)
      requires screen.Ok() && screen.Fits(buffer.Length) && |above| < screen.Rows() && k < |line|
      requires CellAt(screen, k, |above|, px, py) && px + screen.glyphWidth < screen.width
      requires Displays(screen, buffer[..], above + [line[..k]])
      modifies buffer
      ensures Displays(screen, buffer[..], above + [line[..k + 1]])
    {
      CellRoom(screen, k, |above|, px, py);
      ghost var was := buffer[..];
      DrawGlyph(px, py, line[k]);
      DisplaysNext(screen, was, buffer[..], above, line[..k], line[k], k, px, py);
      assert line[..k] + [line[k]] == line[..k + 1];
    }

    /** `redraw_visible`: blank the screen and draw the window of lines, from the top row down. */
    method RedrawVisible(back: nat)
      requires screen.Ok() && screen.Fits(buffer.Length)
      modifies this`x, this`y, buffer
      ensures y + GLYPH_HEIGHT <= screen.height
      ensures Shows(screen, View(), ring + [current], back)
    {
      ClearVisible();
      var rows := screen.Rows();
      var total := |ring| + 1;
      var off := if back <= MaxBack(total, rows) then back else MaxBack(total, rows);
      var first := if total <= rows + off then 0 else total - (rows + off);
      var last := total - off;
      RowsSize(screen);
      var row, px := DrawWindow(first, last, rows);
      x := px;
      y := BORDER + (if row == 0 then 0 else row - 1) * ROW_HEIGHT;
      RowInside(screen, row - 1);
      ShowsOf(screen, View(), ring + [current], back, first, last);
    }

    /** The lines `first` to `last` of the ring and the current line, from the top row down. */
    method DrawWindow(first: nat, last: nat, rows: nat) returns (row: nat, px: nat)
      requires screen.Ok() && screen.Fits(buffer.Length) && rows == screen.Rows()
      requires first <= last <= |ring| + 1 && last - first <= rows && Displays(screen, buffer[..], [])
      modifies buffer
      ensures row == last - first && Displays(screen, buffer[..], (ring + [current])[first..last])
      ensures first < last ==> LineEnd(screen, (ring + [current])[last - 1], px)
    {
      ghost var all := ring + [current];
      row := 0;
      px := BORDER;
      var py := BORDER;
      var idx := first;
      assert all[first..first] == [];
      while idx < last
        invariant first <= idx <= last && row == idx - first && py == BORDER + row * ROW_HEIGHT
        invariant Displays(screen, buffer[..], all[first..idx])
        invariant idx > first ==> LineEnd(screen, all[idx - 1], px)
        decreases last - idx
      {
        px := DrawNth(first, idx, py, all);
        py := py + ROW_HEIGHT;
        row := row + 1;
        idx := idx + 1;
        if row >= rows {
          break;
        }
      }
    }

    /** Line `idx` of the ring and the current line, below the lines from `first` on. */
    method DrawNth(first: nat, idx: nat, py: nat, ghost all: seq<Line>) returns (px: nat)
      requires screen.Ok() && screen.Fits(buffer.Length) && all == ring + [current] && first <= idx < |all|
      requires idx - first < screen.Rows() && py == BORDER + (idx - first) * ROW_HEIGHT
      requires Displays(screen, buffer[..], all[first..idx])
      modifies buffer
      ensures Displays(screen, buffer[..], all[first..idx + 1]) && LineEnd(screen, all[idx], px)
    {
      px := DrawLine(if idx < |ring| then ring[idx] else current, py, all[first..idx]);
      assert all[first..idx] + [all[idx]] == all[first..idx + 1];
    }

    /** `advance_visual_row`: next row, or redraw with the cursor in the bottom row. */
    method AdvanceVisualRow()
      requires screen.Ok() && screen.Fits(buffer.Length)
      modifies this`x, this`y, buffer
      ensures y + GLYPH_HEIGHT <= screen.height && Advanced(screen, old(View()), View(), ring + [current])
      ensures x == 1
              && y == if old(y) + 35 < screen.height then old(y) + 18 else 1 + ((screen.height - 2) / 18 - 1) * 18
    {
      y := y + ROW_HEIGHT;
      x := BORDER;
      if y + GLYPH_HEIGHT + BORDER >= screen.height {
        RedrawVisible(0);
        var rows := screen.Rows();
        y := BORDER + (if rows == 0 then 0 else rows - 1) * ROW_HEIGHT;
        x := BORDER;
        if rows > 0 {
          RowInside(screen, rows - 1);
        }
      }
    }

    // ---- Text ----

    /** `push_current_to_ring`. */
    method PushCurrentToRing(ghost lines: seq<Line>)
      requires ring == LastLines(lines)
      modifies this`ring, this`current
      ensures ring == LastLines(lines + [old(current)]) == Ringed(old(ring), old(current)) && current == []
    {
      LastLinesSnoc(lines, current);
      if |ring| == SCROLLBACK_LINES {
        ring := ring[1..];
      }
      ring := ring + [current];
      current := [];
    }

    /** `write_char`: the log takes the character. Scrolled back, the screen stays as it is. At the live tail
        a newline advances a row and any other character is drawn at the cursor; a screen in step with the
        ring stays so if and only if the character is tame. */
    method WriteChar(c: char)
      requires Valid()
      modifies this, buffer
      ensures Valid() && text == old(text) + [c] && scrollBack == old(scrollBack)
      ensures scrollBack > 0 && c != '\r' ==> View() == old(View())
      ensures c == '\r' ==> View() == old(View()).(x := BORDER)
      ensures scrollBack == 0 ==> CharStep(screen, old(View()), View(), LogOf(old(text)), c)
      ensures old(Synced()) ==> (Synced() <==> Tame(screen, LogOf(old(text)), c))
    {
      ghost var was := View();
      LogSnoc(text, c);
      if c == '\n' {
        Newline();
      } else if c == '\r' {
        x := BORDER;
        text := text + [c];
      } else {
        WritePrintable(c);
      }
      if old(Synced()) {
        StepSync(screen, was, View(), LogOf(old(text)), c);
      }
    }

    /** `newline`. */
    method Newline()
      requires Valid()
      modifies this, buffer
      ensures Valid() && text == old(text) + ['\n'] && scrollBack == old(scrollBack)
      ensures scrollBack > 0 ==> View() == old(View())
      ensures scrollBack == 0 ==> Advanced(screen, old(View()), View(), ring + [current])
      ensures old(Synced()) ==> (Synced() <==> NewlineKeeps(screen, |old(ring)|))
    {
      LogSnoc(text, '\n');
      ghost var ring0, current0, pane0 := ring, current, View();
      PushCurrentToRing(LogOf(text).lines);
      text := text + ['\n'];
      if scrollBack == 0 {
        AdvanceVisualRow();
        if Shows(screen, pane0, ring0 + [current0], 0) {
          NewlineSync(screen, pane0, View(), ring0, current0);
        }
      }
    }

    /** The printable case of `write_char`. */
    method WritePrintable(c: char)
      requires Valid() && c != '\n' && c != '\r'
      modifies this, buffer
      ensures Valid() && text == old(text) + [c] && scrollBack == old(scrollBack)
      ensures scrollBack > 0 ==> View() == old(View())
      ensures scrollBack == 0 ==> CharStep(screen, old(View()), View(), LogOf(old(text)), c)
      ensures old(Synced()) ==> (Synced() <==> Tame(screen, LogOf(old(text)), c))
    {
      ghost var was := View();
      LogSnoc(text, c);
      if ByteLen(current) >= MAX_LINE_LEN {
        WriteOnNewLine(c);
      } else {
        WriteOnLine(c);
      }
      if old(Synced()) {
        StepSync(screen, was, View(), LogOf(old(text)), c);
      }
    }

    /** A character on a line that has room for it. */
    method WriteOnLine(c: char)
      requires Valid() && c != '\n' && c != '\r' && ByteLen(current) < MAX_LINE_LEN
      modifies this, buffer
      ensures Valid() && text == old(text) + [c] && scrollBack == old(scrollBack)
      ensures scrollBack > 0 ==> View() == old(View())
      ensures scrollBack == 0 ==> CharStep(screen, old(View()), View(), LogOf(old(text)), c)
    {
      LogSnoc(text, c);
      if scrollBack == 0 {
        DrawOnLine(c, LogOf(text));
      }
      ghost var now := View();
      current := current + [c];
      text := text + [c];
      assert View() == now;
    }

    /** The glyph of a character on its line. */
    method DrawOnLine(c: char, ghost log: Log)
      requires screen.Ok() && screen.Fits(buffer.Length) && y + GLYPH_HEIGHT <= screen.height
      requires ring == LastLines(log.lines) && current == log.current
      requires c != '\n' && c != '\r' && ByteLen(current) < MAX_LINE_LEN
      modifies this`x, this`y, buffer
      ensures y + GLYPH_HEIGHT <= screen.height && CharStep(screen, old(View()), View(), log, c)
    {
      ghost var was := View();
      ghost var base := DrawWrapped(c);
      LineStep(screen, was, base, View(), log, c);
    }

    /** A character after a full line: the line goes to the ring first. */
    method WriteOnNewLine(c: char)
      requires Valid() && c != '\n' && c != '\r' && ByteLen(current) >= MAX_LINE_LEN
      modifies this, buffer
      ensures Valid() && text == old(text) + [c] && scrollBack == old(scrollBack)
      ensures scrollBack > 0 ==> View() == old(View())
      ensures scrollBack == 0 ==> CharStep(screen, old(View()), View(), LogOf(old(text)), c)
    {
      LogSnoc(text, c);
      ghost var log := LogOf(text);
      PushCurrentToRing(log.lines);
      text := text + [c];
      if scrollBack == 0 {
        DrawOnNewLine(c, log);
      }
      ghost var now := View();
      current := [c];
      assert View() == now;
    }

    /** A new row, and the glyph at its start. */
    method DrawOnNewLine(c: char, ghost log: Log)
      requires screen.Ok() && screen.Fits(buffer.Length) && y + GLYPH_HEIGHT <= screen.height
      requires ring == LastLines(log.lines + [log.current]) && current == []
      requires c != '\n' && c != '\r' && ByteLen(log.current) >= MAX_LINE_LEN
      modifies this`x, this`y, buffer
      ensures y + GLYPH_HEIGHT <= screen.height && CharStep(screen, old(View()), View(), log, c)
    {
      ghost var was := View();
      AdvanceVisualRow();
      ghost var mid := View();
      ghost var base := DrawWrapped(c);
      NewLineStep(screen, was, mid, base, View(), log, c);
    }

    /** Wrap at the right edge, then draw. */
    method DrawWrapped(c: char) returns (ghost base: seq<byte>)
      requires screen.Ok() && screen.Fits(buffer.Length) && y + GLYPH_HEIGHT <= screen.height
      modifies this`x, this`y, buffer
      ensures y + GLYPH_HEIGHT <= screen.height
      ensures LiveDrawn(screen, old(View()), base, View(), c, false, ring + [current])
    {
      if x + screen.glyphWidth >= screen.width {
        AdvanceVisualRow();
      }
      base := buffer[..];
      DrawLive(c);
    }

    /** `write_rendered`: the glyph at the cursor, which moves right. */
    method DrawLive(c: char)
      requires screen.Ok() && screen.Fits(buffer.Length)
      requires x + screen.glyphWidth <= screen.stride && y + GLYPH_HEIGHT <= screen.height
      modifies this`x, buffer
      ensures x == old(x) + screen.glyphWidth && Inked(screen, old(buffer[..]), buffer[..], old(x), y, c)
    {
      DrawGlyph(x, y, c);
      x := x + screen.glyphWidth;
    }

    /** `write_str`: the log takes the text. Scrolled back, the screen is frozen. At the live tail the panes
        follow character by character; from a screen in step, all of them are if and only if every character
        is tame. */
    method WriteStr(s: seq<char>) returns (ghost panes: seq<Pane>)
      requires Valid()
      modifies this, buffer
      ensures Valid() && text == old(text) + s && scrollBack == old(scrollBack)
      ensures scrollBack > 0 ==> buffer[..] == old(buffer[..]) && y == old(y)
      ensures |panes| == |s| + 1 && panes[0] == old(View()) && panes[|s|] == View()
      ensures scrollBack == 0 ==> WrittenTo(screen, panes, old(text), s, |s|)
      ensures old(Synced()) ==> (AllInStep(screen, panes, old(text), s) <==> AllTame(screen, old(text), s))
      ensures old(Synced()) && AllTame(screen, old(text), s) ==> Synced()
    {
      panes := WriteAll(s);
      if old(Synced()) {
        TextOutcome(screen, panes, old(text), s);
      }
    }

    /** The loop of `write_str`. */
    method WriteAll(s: seq<char>) returns (ghost panes: seq<Pane>)
      requires Valid()
      modifies this, buffer
      ensures Valid() && text == old(text) + s && scrollBack == old(scrollBack)
      ensures scrollBack > 0 ==> buffer[..] == old(buffer[..]) && y == old(y)
      ensures |panes| == |s| + 1 && panes[0] == old(View()) && panes[|s|] == View()
      ensures scrollBack == 0 ==> WrittenTo(screen, panes, old(text), s, |s|)
    {
      panes := [View()];
      for i := 0 to |s|
        invariant Valid() && text == old(text) + s[..i] && scrollBack == old(scrollBack)
        invariant scrollBack > 0 ==> buffer[..] == old(buffer[..]) && y == old(y)
        invariant |panes| == i + 1 && panes[0] == old(View()) && panes[i] == View()
        invariant scrollBack == 0 ==> WrittenTo(screen, panes, old(text), s, i)
      {
        WriteChar(s[i]);
        if scrollBack == 0 {
          WrittenKept(screen, panes, old(text), s, i, View());
          assert StepAt(screen, panes[i], View(), old(text), s, i);
        }
        panes := panes + [View()];
        TextNext(old(text), s, i);
      }
      assert s[..|s|] == s;
    }

    // ---- Scrolling ----

    /** `scroll_up`: back by `n` lines, as far as the ring goes. */
    method ScrollUp(n: nat)
      requires Valid()
      modifies this`scrollBack, this`x, this`y, buffer
      ensures Valid()
      ensures var rows := (screen.height - 2) / 18;
              var most := if |ring| + 1 <= rows then 0 else |ring| + 1 - rows;
              scrollBack == if old(scrollBack) + n <= most then old(scrollBack) + n else most
      ensures scrollBack != old(scrollBack) ==> Shows(screen, View(), ring + [current], scrollBack)
      ensures scrollBack == old(scrollBack) ==> View() == old(View())
    {
      var most := MaxBack(|ring| + 1, screen.Rows());
      var back := if scrollBack + n <= most then scrollBack + n else most;
      if back == scrollBack {
        return;
      }
      scrollBack := back;
      RedrawVisible(scrollBack);
    }

    /** `scroll_down`: towards the live tail by `n` lines. */
    method ScrollDown(n: nat)
      requires Valid()
      modifies this`scrollBack, this`x, this`y, buffer
      ensures Valid() && scrollBack == if old(scrollBack) <= n then 0 else old(scrollBack) - n
      ensures scrollBack != old(scrollBack) ==> Shows(screen, View(), ring + [current], scrollBack)
      ensures scrollBack == old(scrollBack) ==> View() == old(View())
    {
      var back := if scrollBack <= n then 0 else scrollBack - n;
      if back == scrollBack {
        return;
      }
      scrollBack := back;
      RedrawVisible(scrollBack);
    }

    /** `scroll_end`: back to the live tail. */
    method ScrollEnd()
      requires Valid()
      modifies this`scrollBack, this`x, this`y, buffer
      ensures Valid() && scrollBack == 0
      ensures old(scrollBack) > 0 ==> Synced()
      ensures old(scrollBack) == 0 ==> View() == old(View())
    {
      if scrollBack == 0 {
        return;
      }
      scrollBack := 0;
      RedrawVisible(0);
    }
  }
}

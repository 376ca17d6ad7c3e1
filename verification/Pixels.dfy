/** Pixels of a linear framebuffer: where they lie, and what drawing glyphs does to them. */
module Pixels {
  import opened Bytes
  import opened Layout

  const GLYPH_HEIGHT: nat := 16
  const ROW_HEIGHT: nat := 18
  const BORDER: nat := 1

  datatype Format = Rgb | Bgr | U8

  /** The geometry, pixel format and font of a screen. A font gives every character a raster of
      `GLYPH_HEIGHT` rows of `glyphWidth` intensities. */
  datatype Screen = Screen(width: nat, height: nat, stride: nat, bpp: nat, format: Format,
                           glyphWidth: nat, font: char -> seq<seq<byte>>)
  {
    /** What the driver relies on. */
    ghost predicate Ok() {
      && height >= 20 && glyphWidth > 0 && width >= glyphWidth + 2 && stride >= width && 1 <= bpp <= 4
      && forall c: char :: IsRaster(font(c))
    }

    ghost predicate IsRaster(g: seq<seq<byte>>) {
      |g| == GLYPH_HEIGHT && forall y :: 0 <= y < |g| ==> |g[y]| == glyphWidth
    }

    function Rows(): nat {
      (if height < 2 * BORDER then 0 else height - 2 * BORDER) / ROW_HEIGHT
    }

    /** The bytes of a pixel of the given intensity. */
    function Color(intensity: byte): (r: seq<byte>)
      requires bpp <= 4
      ensures |r| == bpp
    {
      (match format
       case Rgb => [intensity, intensity, intensity / 2, 0]
       case Bgr => [intensity / 2, intensity, intensity, 0]
       case U8 => [if intensity > 200 then 0xf else 0, 0, 0, 0])[..bpp]
    }

    /** The bytes of pixel `(gx, gy)` of the glyph of `c`. */
    ghost function Ink(c: char, gx: nat, gy: nat): seq<byte>
      requires Ok() && gx < glyphWidth && gy < GLYPH_HEIGHT
    {
      assert IsRaster(font(c));
      Color(font(c)[gy][gx])
    }

    function Offset(x: nat, y: nat): nat {
      (y * stride + x) * bpp
    }

    /** A framebuffer long enough for the screen. */
    ghost predicate Fits(n: nat) {
      stride * height * bpp <= n
    }
  }

  /** Every pixel of the screen lies inside the framebuffer. */
  lemma PixelInside(sc: Screen, n: nat, x: nat, y: nat)
    requires sc.Fits(n) && x < sc.stride && y < sc.height
    ensures sc.Offset(x, y) + sc.bpp <= n
  {
    var i := y * sc.stride + x;
    MulMono(y + 1, sc.height, sc.stride);
    MulStep(y, sc.stride);
    assert i + 1 <= sc.stride * sc.height;
    MulMono(i + 1, sc.stride * sc.height, sc.bpp);
    MulStep(i, sc.bpp);
  }

  /** Different pixels do not share bytes. */
  lemma PixelsApart(sc: Screen, x: nat, y: nat, u: nat, v: nat)
    requires x < sc.stride && u < sc.stride && (x, y) != (u, v)
    ensures sc.Offset(x, y) + sc.bpp <= sc.Offset(u, v) || sc.Offset(u, v) + sc.bpp <= sc.Offset(x, y)
  {
    var i, j := y * sc.stride + x, v * sc.stride + u;
    RowsDisjoint(y, x, v, u, sc.stride);
    if i < j {
      MulMono(i + 1, j, sc.bpp);
      MulStep(i, sc.bpp);
    } else {
      MulMono(j + 1, i, sc.bpp);
      MulStep(j, sc.bpp);
    }
  }

  /** The bytes of pixel `(x, y)`; none if it is off the screen. */
  ghost function Pixel(sc: Screen, buf: seq<byte>, x: nat, y: nat): seq<byte>
  {
    if sc.Offset(x, y) + sc.bpp <= |buf| then buf[sc.Offset(x, y)..sc.Offset(x, y) + sc.bpp] else []
  }

  lemma PixelWritten(sc: Screen, buf: seq<byte>, x: nat, y: nat, color: seq<byte>, u: nat, v: nat)
    requires |color| == sc.bpp && x < sc.stride && u < sc.stride && sc.Offset(x, y) + sc.bpp <= |buf|
    ensures Pixel(sc, Splice(buf, sc.Offset(x, y), color), u, v)
         == if (u, v) == (x, y) then color else Pixel(sc, buf, u, v)
  {
    var a := sc.Offset(x, y);
    var buf' := Splice(buf, a, color);
    if (u, v) == (x, y) {
      assert buf'[a..a + sc.bpp] == color;
    } else {
      PixelsApart(sc, x, y, u, v);
      var b := sc.Offset(u, v);
      if b + sc.bpp <= |buf| {
        assert buf'[b..b + sc.bpp] == buf[b..b + sc.bpp];
      }
    }
  }

  /** `now` is `was` but for the bytes of one pixel from `at` on, which hold the color of the intensity: yellow, with
      red first or blue first, or one gray value. */
  ghost predicate BytesWritten(sc: Screen, was: seq<byte>, now: seq<byte>, at: nat, intensity: byte) {
    && |now| == |was| && at + sc.bpp <= |now|
    && (forall k :: 0 <= k < |now| && !(at <= k < at + sc.bpp) ==> now[k] == was[k])
    && (sc.bpp > 0 ==> now[at] == match sc.format
                                  case Rgb => intensity
                                  case Bgr => intensity / 2
                                  case U8 => if intensity > 200 then 15 else 0)
    && (sc.bpp > 1 ==> now[at + 1] == if sc.format == U8 then 0 else intensity)
    && (sc.bpp > 2 ==> now[at + 2] == match sc.format
                                      case Rgb => intensity / 2
                                      case Bgr => intensity
                                      case U8 => 0)
    && (sc.bpp > 3 ==> now[at + 3] == 0)
  }

  /** Pixel `(x, y)` was written and nothing else: its bytes start at `(y * stride + x) * bpp`. Folded, so that a proof
      asks for the bytes by name. */
  ghost predicate PixelSet(sc: Screen, was: seq<byte>, now: seq<byte>, x: nat, y: nat, intensity: byte) {
    forall at: nat {:trigger BytesWritten(sc, was, now, at, intensity)} ::
      at == (y * sc.stride + x) * sc.bpp ==> BytesWritten(sc, was, now, at, intensity)
  }

  lemma ColorWritten(sc: Screen, was: seq<byte>, at: nat, intensity: byte)
    requires sc.bpp <= 4 && at + sc.bpp <= |was|
    ensures BytesWritten(sc, was, Splice(was, at, sc.Color(intensity)), at, intensity)
  {
    var color := sc.Color(intensity);
    var now := Splice(was, at, color);
    assert forall k :: 0 <= k < sc.bpp ==> now[at + k] == color[k];
    assert sc.bpp > 0 ==> now[at + 0] == color[0];
    assert sc.bpp > 1 ==> now[at + 1] == color[1];
    assert sc.bpp > 2 ==> now[at + 2] == color[2];
    assert sc.bpp > 3 ==> now[at + 3] == color[3];
  }

  lemma PixelIsSet(sc: Screen, was: seq<byte>, x: nat, y: nat, intensity: byte)
    requires sc.bpp <= 4 && sc.Offset(x, y) + sc.bpp <= |was|
    ensures PixelSet(sc, was, Splice(was, sc.Offset(x, y), sc.Color(intensity)), x, y, intensity)
  {
    ColorWritten(sc, was, sc.Offset(x, y), intensity);
  }

  /** Those bytes are the color. */
  lemma WrittenColor(sc: Screen, was: seq<byte>, now: seq<byte>, at: nat, intensity: byte)
    requires sc.bpp <= 4 && BytesWritten(sc, was, now, at, intensity)
    ensures now == Splice(was, at, sc.Color(intensity))
  {
    forall k | 0 <= k < sc.bpp
      ensures now[at + k] == sc.Color(intensity)[k]
    {
      assert k == 0 || k == 1 || k == 2 || k == 3;
    }
  }

  // ---- Glyphs ----

  /** Pixel `(u, v)` lies in the glyph cell with its corner at `(x, y)`. */
  predicate InCell(sc: Screen, x: nat, y: nat, u: nat, v: nat) {
    x <= u < x + sc.glyphWidth && y <= v < y + GLYPH_HEIGHT
  }

  /** The part of the cell that was drawn once `rows` rows and `cols` pixels of the next are done. */
  predicate DoneIn(sc: Screen, x: nat, y: nat, rows: nat, cols: nat, u: nat, v: nat) {
    InCell(sc, x, y, u, v) && (v < y + rows || (v == y + rows && u < x + cols))
  }

  /** `now` is `was` with the drawn part of glyph `g` at `(x, y)`. */
  ghost predicate PartDrawn(sc: Screen, was: seq<byte>, now: seq<byte>, x: nat, y: nat, g: seq<seq<byte>>, rows: nat,
                            cols: nat)
    requires sc.IsRaster(g) && sc.bpp <= 4
  {
    && |now| == |was|
    && forall k: nat {:trigger PartPixels(sc, was, now, x, y, g, rows, k)} :: k == cols ==>
         PartPixels(sc, was, now, x, y, g, rows, k)
  }

  /** `PartDrawn`, pixel by pixel. */
  ghost predicate PartPixels(sc: Screen, was: seq<byte>, now: seq<byte>, x: nat, y: nat, g: seq<seq<byte>>, rows: nat,
                             cols: nat)
    requires sc.IsRaster(g) && sc.bpp <= 4
  {
    forall u: nat, v: nat {:trigger Pixel(sc, now, u, v)} :: u < sc.stride ==>
      Pixel(sc, now, u, v) == if DoneIn(sc, x, y, rows, cols, u, v) then sc.Color(g[v - y][u - x])
                              else Pixel(sc, was, u, v)
  }

  lemma DrawStart(sc: Screen, was: seq<byte>, x: nat, y: nat, g: seq<seq<byte>>)
    requires sc.IsRaster(g) && sc.bpp <= 4
    ensures PartDrawn(sc, was, was, x, y, g, 0, 0)
  {
    assert PartPixels(sc, was, was, x, y, g, 0, 0);
  }

  lemma DrawPixelNext(sc: Screen, was: seq<byte>, now: seq<byte>, now': seq<byte>, x: nat, y: nat, g: seq<seq<byte>>,
                      row: nat, col: nat)
    requires sc.IsRaster(g) && sc.bpp <= 4 && PartDrawn(sc, was, now, x, y, g, row, col)
    requires row < GLYPH_HEIGHT && col < sc.glyphWidth && x + sc.glyphWidth <= sc.stride
    requires PixelSet(sc, now, now', x + col, y + row, g[row][col])
    ensures PartDrawn(sc, was, now', x, y, g, row, col + 1)
  {
    var at := sc.Offset(x + col, y + row);
    assert BytesWritten(sc, now, now', at, g[row][col]);
    WrittenColor(sc, now, now', at, g[row][col]);
    assert PartPixels(sc, was, now, x, y, g, row, col);
    forall u: nat, v: nat {:trigger Pixel(sc, now', u, v)} | u < sc.stride
      ensures Pixel(sc, now', u, v) == if DoneIn(sc, x, y, row, col + 1, u, v) then sc.Color(g[v - y][u - x])
                                       else Pixel(sc, was, u, v)
    {
      PixelWritten(sc, now, x + col, y + row, sc.Color(g[row][col]), u, v);
      assert DoneIn(sc, x, y, row, col + 1, u, v) <==> DoneIn(sc, x, y, row, col, u, v) || (u, v) == (x + col, y + row);
    }
    assert PartPixels(sc, was, now', x, y, g, row, col + 1);
  }

  lemma DrawRowNext(sc: Screen, was: seq<byte>, now: seq<byte>, x: nat, y: nat, g: seq<seq<byte>>, row: nat)
    requires sc.IsRaster(g) && sc.bpp <= 4 && PartDrawn(sc, was, now, x, y, g, row, sc.glyphWidth)
    ensures PartDrawn(sc, was, now, x, y, g, row + 1, 0)
  {
    assert PartPixels(sc, was, now, x, y, g, row, sc.glyphWidth);
    assert PartPixels(sc, was, now, x, y, g, row + 1, 0);
  }

  /** The whole glyph of `c` was drawn at `(x, y)`, and nothing else changed. */
  ghost predicate GlyphDrawn(sc: Screen, was: seq<byte>, now: seq<byte>, x: nat, y: nat, c: char)
    requires sc.Ok()
  {
    && |now| == |was|
    && forall u: nat, v: nat {:trigger Pixel(sc, now, u, v)} :: u < sc.stride ==>
         Pixel(sc, now, u, v) == if InCell(sc, x, y, u, v) then sc.Color(sc.font(c)[v - y][u - x])
                                 else Pixel(sc, was, u, v)
  }

  lemma DrawEnd(sc: Screen, was: seq<byte>, now: seq<byte>, x: nat, y: nat, c: char)
    requires sc.Ok() && PartDrawn(sc, was, now, x, y, sc.font(c), GLYPH_HEIGHT, 0)
    ensures GlyphDrawn(sc, was, now, x, y, c)
  {
    assert PartPixels(sc, was, now, x, y, sc.font(c), GLYPH_HEIGHT, 0);
  }

  // ---- Lines of text ----

  /** Column `j` still fits left of the right edge. */
  predicate ColumnFits(sc: Screen, j: nat) {
    BORDER + (j + 1) * sc.glyphWidth < sc.width
  }

  /** `x` is where drawing `line` stops: behind its last character that fits. */
  ghost predicate LineEnd(sc: Screen, line: seq<char>, x: nat) {
    exists k: nat :: k <= |line| && ColumnAt(sc, k, x) && (k < |line| ==> !ColumnFits(sc, k))
      && (k > 0 ==> ColumnFits(sc, k - 1))
  }

  predicate ColumnAt(sc: Screen, k: nat, x: nat) {
    x == BORDER + k * sc.glyphWidth
  }

  /** What pixel `(u, v)` shows when `lines` stand in the rows of the screen from the top. */
  ghost function Picture(sc: Screen, lines: seq<seq<char>>, u: nat, v: nat): seq<byte>
    requires sc.Ok()
  {
    if u < BORDER || v < BORDER then Zeros(sc.bpp)
    else
      var r, gy := (v - BORDER) / ROW_HEIGHT, (v - BORDER) % ROW_HEIGHT;
      var j, gx := (u - BORDER) / sc.glyphWidth, (u - BORDER) % sc.glyphWidth;
      if r < |lines| && gy < GLYPH_HEIGHT && j < |lines[r]| && ColumnFits(sc, j)
      then sc.Color(sc.font(lines[r][j])[gy][gx])
      else Zeros(sc.bpp)
  }

  /** The framebuffer shows exactly these lines; folded, so that a proof asks for the pixels by name. */
  ghost predicate Displays(sc: Screen, buf: seq<byte>, lines: seq<seq<char>>)
    requires sc.Ok()
  {
    forall ls {:trigger PixelsMatch(sc, buf, ls)} :: ls == lines ==> PixelsMatch(sc, buf, ls)
  }

  ghost predicate PixelsMatch(sc: Screen, buf: seq<byte>, lines: seq<seq<char>>)
    requires sc.Ok()
  {
    forall u: nat, v: nat {:trigger Pixel(sc, buf, u, v)} :: u < sc.stride && v < sc.height ==>
      Pixel(sc, buf, u, v) == Picture(sc, lines, u, v)
  }

  /** What a framebuffer that displays `lines` holds, byte by byte: rows of 18 pixel rows of which 16 hold glyphs,
      a border of one pixel, glyphs side by side as long as one ends left of the last pixel column, and black
      everywhere else. */
  lemma DisplaysMeans(sc: Screen, buf: seq<byte>, lines: seq<seq<char>>, u: nat, v: nat, k: nat, at: nat)
    requires sc.Ok() && sc.Fits(|buf|) && Displays(sc, buf, lines) && u < sc.stride && v < sc.height && k < sc.bpp
    requires at == (v * sc.stride + u) * sc.bpp + k
    ensures at < |buf|
    ensures buf[at] == if u < 1 || v < 1 then 0 else Shade(sc, lines, (v - 1) / 18, (v - 1) % 18, u - 1, k)
  {
    var _ := PixelsMatch(sc, buf, lines);
    PixelInside(sc, |buf|, u, v);
    assert Pixel(sc, buf, u, v) == Picture(sc, lines, u, v);
    assert Pixel(sc, buf, u, v)[k] == buf[at];
    if u >= 1 {
      MulStep((u - 1) / sc.glyphWidth, sc.glyphWidth);
    }
  }

  /** Byte `k` of what lies `x` pixels right of the border in pixel row `gy` of text row `r`. */
  ghost function Shade(sc: Screen, lines: seq<seq<char>>, r: nat, gy: nat, x: nat, k: nat): byte
    requires sc.Ok() && k < sc.bpp
  {
    var j, gx := x / sc.glyphWidth, x % sc.glyphWidth;
    if r < |lines| && gy < 16 && j < |lines[r]| && 1 + j * sc.glyphWidth + sc.glyphWidth < sc.width
    then sc.Color(sc.font(lines[r][j])[gy][gx])[k]
    else 0
  }

  /** What drawing a glyph does, byte by byte. */
  lemma GlyphMeans(sc: Screen, was: seq<byte>, now: seq<byte>, x: nat, y: nat, c: char, u: nat, v: nat, k: nat, at: nat)
    requires sc.Ok() && sc.Fits(|was|) && GlyphDrawn(sc, was, now, x, y, c) && u < sc.stride && v < sc.height
    requires k < sc.bpp && at == (v * sc.stride + u) * sc.bpp + k
    ensures at < |was| == |now|
    ensures now[at] == if x <= u < x + sc.glyphWidth && y <= v < y + 16 then sc.Color(sc.font(c)[v - y][u - x])[k]
                       else was[at]
  {
    PixelInside(sc, |was|, u, v);
    assert Pixel(sc, now, u, v)[k] == now[at];
    assert Pixel(sc, was, u, v)[k] == was[at];
  }

  lemma DivIs(a: nat, w: nat, q: nat)
    requires w > 0
    ensures a / w == q <==> q * w <= a < (q + 1) * w
    ensures q * w <= a < (q + 1) * w ==> a % w == a - q * w
  {
    var d := a / w;
    assert a == d * w + a % w;
    MulStep(d, w);
    MulStep(q, w);
    if d < q {
      MulMono(d + 1, q, w);
    } else if q < d {
      MulMono(q + 1, d, w);
    }
  }

  /** The cell of column `j`, row `r`. */
  lemma CellIs(sc: Screen, j: nat, r: nat, u: nat, v: nat)
    requires sc.glyphWidth > 0 && u >= BORDER && v >= BORDER
    ensures InCell(sc, BORDER + j * sc.glyphWidth, BORDER + r * ROW_HEIGHT, u, v)
       <==> (u - BORDER) / sc.glyphWidth == j && (v - BORDER) / ROW_HEIGHT == r
             && (v - BORDER) % ROW_HEIGHT < GLYPH_HEIGHT
    ensures InCell(sc, BORDER + j * sc.glyphWidth, BORDER + r * ROW_HEIGHT, u, v) ==>
              (u - BORDER) % sc.glyphWidth == u - (BORDER + j * sc.glyphWidth)
              && (v - BORDER) % ROW_HEIGHT == v - (BORDER + r * ROW_HEIGHT)
  {
    DivIs(u - BORDER, sc.glyphWidth, j);
    DivIs(v - BORDER, ROW_HEIGHT, r);
    MulStep(j, sc.glyphWidth);
  }

  /** `(x, y)` is the corner of the cell of column `j`, row `r`. */
  predicate CellAt(sc: Screen, j: nat, r: nat, x: nat, y: nat) {
    x == BORDER + j * sc.glyphWidth && y == BORDER + r * ROW_HEIGHT
  }

  lemma CellPixels(sc: Screen, j: nat, r: nat, x: nat, y: nat, u: nat, v: nat)
    requires sc.glyphWidth > 0 && CellAt(sc, j, r, x, y)
    ensures InCell(sc, x, y, u, v) <==>
              u >= BORDER && v >= BORDER && (u - BORDER) / sc.glyphWidth == j && (v - BORDER) / ROW_HEIGHT == r
              && (v - BORDER) % ROW_HEIGHT < GLYPH_HEIGHT
    ensures InCell(sc, x, y, u, v) ==> (u - BORDER) % sc.glyphWidth == u - x && (v - BORDER) % ROW_HEIGHT == v - y
  {
    if u >= BORDER && v >= BORDER {
      CellIs(sc, j, r, u, v);
    }
  }

  /** One more character at the end of the last line. */
  lemma PictureNext(sc: Screen, lines: seq<seq<char>>, line: seq<char>, c: char, j: nat, x: nat, y: nat, u: nat, v: nat)
    requires sc.Ok() && j == |line| && ColumnFits(sc, j) && CellAt(sc, j, |lines|, x, y)
    ensures Picture(sc, lines + [line + [c]], u, v)
            == if InCell(sc, x, y, u, v) then sc.Color(sc.font(c)[v - y][u - x]) else Picture(sc, lines + [line], u, v)
  {
    CellPixels(sc, j, |lines|, x, y, u, v);
    if u >= BORDER && v >= BORDER {
      var r, k := (v - BORDER) / ROW_HEIGHT, (u - BORDER) / sc.glyphWidth;
      var a, b := lines + [line + [c]], lines + [line];
      assert r < |lines| ==> a[r] == b[r];
      assert r == |lines| && k < j ==> a[r][k] == b[r][k];
      assert r == |lines| && k == j ==> a[r][k] == c;
    }
  }

  lemma DisplaysNext(sc: Screen, was: seq<byte>, now: seq<byte>, lines: seq<seq<char>>, line: seq<char>, c: char,
                     j: nat, x: nat, y: nat)
    requires sc.Ok() && j == |line| && ColumnFits(sc, j) && CellAt(sc, j, |lines|, x, y)
    requires Displays(sc, was, lines + [line]) && GlyphDrawn(sc, was, now, x, y, c)
    ensures Displays(sc, now, lines + [line + [c]])
  {
    var _ := PixelsMatch(sc, was, lines + [line]);
    forall u: nat, v: nat {:trigger Pixel(sc, now, u, v)} | u < sc.stride && v < sc.height
      ensures Pixel(sc, now, u, v) == Picture(sc, lines + [line + [c]], u, v)
    {
      PictureNext(sc, lines, line, c, j, x, y, u, v);
      assert Pixel(sc, was, u, v) == Picture(sc, lines + [line], u, v);
    }
    assert PixelsMatch(sc, now, lines + [line + [c]]);
  }

  /** Characters right of the edge are not shown. */
  lemma PictureCut(sc: Screen, lines: seq<seq<char>>, line: seq<char>, k: nat, u: nat, v: nat)
    requires sc.Ok() && k <= |line| && (k < |line| ==> !ColumnFits(sc, k))
    ensures Picture(sc, lines + [line[..k]], u, v) == Picture(sc, lines + [line], u, v)
  {
    if u >= BORDER && v >= BORDER {
      var r, j := (v - BORDER) / ROW_HEIGHT, (u - BORDER) / sc.glyphWidth;
      var a, b := lines + [line[..k]], lines + [line];
      assert r < |lines| ==> a[r] == b[r];
      if k <= j {
        MulMono(k + 1, j + 1, sc.glyphWidth);
      }
    }
  }

  lemma DisplaysLine(sc: Screen, buf: seq<byte>, lines: seq<seq<char>>, line: seq<char>, k: nat)
    requires sc.Ok() && k <= |line| && (k < |line| ==> !ColumnFits(sc, k)) && Displays(sc, buf, lines + [line[..k]])
    ensures Displays(sc, buf, lines + [line])
  {
    var _ := PixelsMatch(sc, buf, lines + [line[..k]]);
    forall u: nat, v: nat {:trigger Pixel(sc, buf, u, v)} | u < sc.stride && v < sc.height
      ensures Pixel(sc, buf, u, v) == Picture(sc, lines + [line], u, v)
    {
      PictureCut(sc, lines, line, k, u, v);
    }
    assert PixelsMatch(sc, buf, lines + [line]);
  }

  /** An empty line shows nothing. */
  lemma DisplaysEmpty(sc: Screen, buf: seq<byte>, lines: seq<seq<char>>)
    requires sc.Ok() && Displays(sc, buf, lines)
    ensures Displays(sc, buf, lines + [[]])
  {
    var _ := PixelsMatch(sc, buf, lines);
    forall u: nat, v: nat {:trigger Pixel(sc, buf, u, v)} | u < sc.stride && v < sc.height
      ensures Pixel(sc, buf, u, v) == Picture(sc, lines + [[]], u, v)
    {
      assert Picture(sc, lines + [[]], u, v) == Picture(sc, lines, u, v);
    }
    assert PixelsMatch(sc, buf, lines + [[]]);
  }

  lemma DisplaysNothing(sc: Screen, buf: seq<byte>)
    requires sc.Ok() && sc.Fits(|buf|) && forall i :: 0 <= i < |buf| ==> buf[i] == 0
    ensures Displays(sc, buf, [])
  {
    forall u: nat, v: nat {:trigger Pixel(sc, buf, u, v)} | u < sc.stride && v < sc.height
      ensures Pixel(sc, buf, u, v) == Picture(sc, [], u, v)
    {
      PixelInside(sc, |buf|, u, v);
      assert Pixel(sc, buf, u, v) == Zeros(sc.bpp);
    }
    assert PixelsMatch(sc, buf, []);
  }

  /** Where a glyph may be drawn. */
  lemma RowInside(sc: Screen, r: nat)
    requires sc.Ok() && r < sc.Rows()
    ensures BORDER + r * ROW_HEIGHT + GLYPH_HEIGHT + 2 < sc.height
  {
    MulMono(r + 1, sc.Rows(), ROW_HEIGHT);
  }

  /** A column that fits has room for its glyph. */
  lemma CellRoom(sc: Screen, k: nat, r: nat, x: nat, y: nat)
    requires sc.Ok() && r < sc.Rows() && CellAt(sc, k, r, x, y) && x + sc.glyphWidth < sc.width
    ensures ColumnFits(sc, k) && x + sc.glyphWidth <= sc.stride && y + GLYPH_HEIGHT <= sc.height
  {
    RowInside(sc, r);
    MulStep(k, sc.glyphWidth);
  }
}

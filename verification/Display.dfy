/** The frame buffer writer: drawing into the back buffer and flushing dirty pixels to the display. */
module Display {
  import opened Options
  import opened DisplayModel
  import Bresenham

  const CHAR := 8

  /** Pixels of the rectangle come from f, all others are as before. */
  ghost predicate Drawn(g: Geometry, old_: Buffer, new_: Buffer, r: Rect, f: (nat, nat) -> Pixel) {
    && Covers(g, old_) && Covers(g, new_)
    && (forall x: nat, y: nat | OnScreen(g, x, y) ::
          Pix(g, new_, x, y) == if r.Holds(x, y) then f(x, y) else Pix(g, old_, x, y))
  }

  lemma DrawnWithin(g: Geometry, old_: Buffer, new_: Buffer, r: Rect, f: (nat, nat) -> Pixel)
    requires Drawn(g, old_, new_, r, f)
    ensures ChangedWithin(g, old_, new_, r)
  {
  }

  function Area(x: nat, y: nat, w: nat, h: nat): Rect {
    Rect(x, y, x + w, y + h)
  }

  function Plain(p: Pixel): (nat, nat) -> Pixel {
    (x: nat, y: nat) => p
  }

  // ---------------------------------------------------------------
  // Growing a drawn rectangle
  // ---------------------------------------------------------------

  /** One more line. */
  lemma DrawnRow(g: Geometry, b0: Buffer, b1: Buffer, x: nat, y: nat, w: nat, k: nat, f: (nat, nat) -> Pixel,
                 piece: Buffer)
    requires Drawn(g, b0, b1, Area(x, y, w, k), f) && x + w <= g.stride && y + k < g.height && |piece| == w
    requires forall i: nat | i < w :: piece[i] == f(x + i, y + k)
    requires Idx(g.stride, x, y + k) + w <= |b1|
    ensures Drawn(g, b0, Splice(b1, Idx(g.stride, x, y + k), piece), Area(x, y, w, k + 1), f)
  {
    var b2 := Splice(b1, Idx(g.stride, x, y + k), piece);
    forall x': nat, y': nat | OnScreen(g, x', y')
      ensures Pix(g, b2, x', y') == if Area(x, y, w, k + 1).Holds(x', y') then f(x', y') else Pix(g, b0, x', y')
    {
      SpliceRow(g, b1, x, y + k, piece, x', y');
      if y' == y + k && x <= x' < x + w { assert piece[x' - x] == f(x + (x' - x), y + k); }
    }
  }

  lemma DrawnNothing(g: Geometry, b: Buffer, x: nat, y: nat, w: nat, f: (nat, nat) -> Pixel)
    requires Covers(g, b)
    ensures Drawn(g, b, b, Area(x, y, w, 0), f)
  {
  }

  /** Two rectangles drawn one after the other from the same picture. */
  lemma DrawnJoin(g: Geometry, b0: Buffer, b1: Buffer, b2: Buffer, r1: Rect, r2: Rect, r: Rect, f: (nat, nat) -> Pixel)
    requires Drawn(g, b0, b1, r1, f) && Drawn(g, b1, b2, r2, f)
    requires forall x: nat, y: nat | OnScreen(g, x, y) :: r.Holds(x, y) <==> r1.Holds(x, y) || r2.Holds(x, y)
    ensures Drawn(g, b0, b2, r, f)
  {
  }

  /** Drawing only depends on the picture inside the rectangle. */
  lemma DrawnAs(g: Geometry, b0: Buffer, b1: Buffer, r: Rect, f: (nat, nat) -> Pixel, f': (nat, nat) -> Pixel)
    requires Drawn(g, b0, b1, r, f) && forall x: nat, y: nat | r.Holds(x, y) :: f(x, y) == f'(x, y)
    ensures Drawn(g, b0, b1, r, f')
  {
  }

  // ---------------------------------------------------------------
  // Pictures
  // ---------------------------------------------------------------

  predicate BitAt(bits: nat, i: nat) {
    if i == 0 then bits % 2 == 1 else BitAt(bits / 2, i - 1)
  }

  const POWERS := [1, 2, 4, 8, 16, 32, 64, 128]

  /** Bit i counts from the lowest. */
  lemma {:induction false} BitAtPower(bits: nat, i: nat)
    requires i < 8
    ensures BitAt(bits, i) <==> bits / POWERS[i] % 2 == 1
    decreases i
  {
    if i > 0 {
      BitAtPower(bits / 2, i - 1);
      assert bits / 2 / POWERS[i - 1] == bits / POWERS[i];
    }
  }

  /** A character cell at x, y: bit c of row r of the glyph selects the foreground. */
  function GlyphPicture(x: nat, y: nat, glyph: seq<nat>, on: Pixel, off: Pixel): (nat, nat) -> Pixel
    requires |glyph| == CHAR
  {
    (x': nat, y': nat) => if x <= x' && y <= y' < y + CHAR && BitAt(glyph[y' - y], x' - x) then on else off
  }

  /** The pixel k lines further down, background below the screen. */
  function PixBelow(g: Geometry, b: Buffer, k: nat, off: Pixel, x: nat, y: nat): Pixel
    requires Covers(g, b)
  {
    if OnScreen(g, x, y + k) then Pix(g, b, x, y + k) else off
  }

  /** The picture moved up by k lines. */
  ghost predicate Scrolled(g: Geometry, b0: Buffer, b1: Buffer, k: nat, off: Pixel) {
    && Covers(g, b0) && Covers(g, b1)
    && (forall x: nat, y: nat {:trigger PixBelow(g, b0, k, off, x, y)} | OnScreen(g, x, y) ::
          Pix(g, b1, x, y) == PixBelow(g, b0, k, off, x, y))
  }

  /** The source of a blit, w pixels per line. */
  function BlitPicture(x: nat, y: nat, w: nat, src: Buffer, fill: Pixel): (nat, nat) -> Pixel {
    (x': nat, y': nat) =>
      if x <= x' && y <= y' && Idx(w, x' - x, y' - y) < |src| then src[Idx(w, x' - x, y' - y)] else fill
  }

  function Screen(g: Geometry): Rect {
    Area(0, 0, g.width, g.height)
  }

  lemma ScrollTwice(g: Geometry, b0: Buffer, b1: Buffer, b2: Buffer, k: nat, m: nat, off: Pixel)
    requires Scrolled(g, b0, b1, k, off) && Scrolled(g, b1, b2, m, off)
    ensures Scrolled(g, b0, b2, k + m, off)
  {
    forall x: nat, y: nat | OnScreen(g, x, y) ensures Pix(g, b2, x, y) == PixBelow(g, b0, k + m, off, x, y) {
      assert Pix(g, b2, x, y) == PixBelow(g, b1, m, off, x, y);
      if OnScreen(g, x, y + m) { assert Pix(g, b1, x, y + m) == PixBelow(g, b0, k, off, x, y + m); }
      BelowTwice(g, b0, b1, k, m, off, x, y);
    }
  }

  lemma BelowTwice(g: Geometry, b0: Buffer, b1: Buffer, k: nat, m: nat, off: Pixel, x: nat, y: nat)
    requires Covers(g, b0) && Covers(g, b1)
    requires OnScreen(g, x, y + m) ==> Pix(g, b1, x, y + m) == PixBelow(g, b0, k, off, x, y + m)
    ensures PixBelow(g, b1, m, off, x, y) == PixBelow(g, b0, k + m, off, x, y)
  {
    assert y + m + k == y + (k + m);
  }

  /** The cell shows the glyph pixel by pixel, the lowest bit of a row at its left end. */
  lemma GlyphPixels(g: Geometry, b0: Buffer, b1: Buffer, x: nat, y: nat, glyph: seq<nat>, on: Pixel, off: Pixel)
    requires |glyph| == 8 && Drawn(g, b0, b1, Area(x, y, 8, 8), GlyphPicture(x, y, glyph, on, off))
    ensures forall row: nat, col: nat | row < 8 && col < 8 && OnScreen(g, x + col, y + row) ::
              Pix(g, b1, x + col, y + row) == if glyph[row] / POWERS[col] % 2 == 1 then on else off
  {
    forall row: nat, col: nat | row < 8 && col < 8 && OnScreen(g, x + col, y + row)
      ensures Pix(g, b1, x + col, y + row) == if glyph[row] / POWERS[col] % 2 == 1 then on else off
    {
      BitAtPower(glyph[row], col);
      assert Area(x, y, 8, 8).Holds(x + col, y + row);
    }
  }

  /** Source pixel i of line j is at its place on the screen. */
  ghost predicate BlitShown(g: Geometry, b: Buffer, x: nat, y: nat, w: nat, src: Buffer, i: nat, j: nat) {
    && Covers(g, b) && OnScreen(g, x + i, y + j) && j * w + i < |src|
    && Pix(g, b, x + i, y + j) == src[j * w + i]
  }

  lemma BlitPixels(g: Geometry, b0: Buffer, b1: Buffer, x: nat, y: nat, w: nat, h: nat, src: Buffer, fill: Pixel)
    requires Drawn(g, b0, b1, Area(x, y, w, h), BlitPicture(x, y, w, src, fill)) && h * w <= |src|
    requires x + w <= g.width && y + h <= g.height
    ensures forall i: nat, j: nat | i < w && j < h :: BlitShown(g, b1, x, y, w, src, i, j)
  {
    forall i: nat, j: nat | i < w && j < h ensures BlitShown(g, b1, x, y, w, src, i, j) {
      RowsApart(w, i, j, h);
      assert Area(x, y, w, h).Holds(x + i, y + j);
    }
  }

  class FramebufferWriter {
    const g: Geometry
    const format: Format
    var back: Buffer
    var mmio: Buffer
    var dirty: Option<Rect>
    var cursorX: nat
    var cursorY: nat
    var fg: Color
    var bg: Color

    ghost predicate Valid()
      reads this
    {
      g.height >= 16 && DirtyOnScreen(g, dirty) && Coherent(g, back, mmio, dirty)
    }

    /** The writer starts with a cleared screen that is shown. */
    constructor (g: Geometry, format: Format, mmio: Buffer)
      requires Covers(g, mmio) && g.height >= 16
      ensures Valid() && this.g == g && this.format == format && dirty == None && SameScreen(g, back, this.mmio)
      ensures cursorX == 0 && cursorY == 0 && fg == Color(255, 255, 255) && bg == Color(0, 0, 128)
      ensures forall x: nat, y: nat | OnScreen(g, x, y) :: Pix(g, back, x, y) == MakePixel(format, bg)
    {
      this.g, this.format, this.mmio := g, format, mmio;
      this.back := seq(|mmio|, _ => Pixel(0, 0, 0, 0));
      this.dirty, this.cursorX, this.cursorY := Some(Rect(0, 0, g.width, g.height)), 0, 0;
      this.fg, this.bg := Color(255, 255, 255), Color(0, 0, 128);
      new;
      Clear();
      FlushDirty();
    }

    // -------------------------------------------------------------
    // Flushing
    // -------------------------------------------------------------

    method MarkDirty(x: nat, y: nat, w: nat, h: nat)
      requires DirtyOnScreen(g, dirty)
      modifies `dirty
      ensures dirty == Marked(g, old(dirty), x, y, w, h) && DirtyOnScreen(g, dirty)
    {
      dirty := Marked(g, dirty, x, y, w, h);
    }

    /** Copies a rectangle to the display: in one go when it spans gapless lines, else line by line. */
    method FlushRect(x: nat, y: nat, w: nat, h: nat)
      requires Covers(g, back) && Covers(g, mmio) && x + w <= g.width && y + h <= g.height
      modifies `mmio
      ensures Copied(g, back, old(mmio), mmio, Area(x, y, w, h))
    {
      var end := Min(y + h, g.height);
      var actual := Min(w, if x < g.width then g.width - x else 0);
      if x == 0 && actual == g.width && g.stride == g.width {
        FlushLines(y, end);
      } else {
        FlushRows(x, y, actual, end);
      }
    }

    method FlushLines(y: nat, end: nat)
      requires Covers(g, back) && Covers(g, mmio) && g.stride == g.width && y <= end <= g.height
      modifies `mmio
      ensures Copied(g, back, old(mmio), mmio, Rect(0, y, g.width, end))
    {
      LinesInBuffer(g, y, end);
      var start, length := y * g.stride, (end - y) * g.stride;
      var piece := back[start..start + length];
      forall x': nat, y': nat | OnScreen(g, x', y')
        ensures Covers(g, Splice(mmio, start, piece))
        ensures Pix(g, Splice(mmio, start, piece), x', y')
                == if Rect(0, y, g.width, end).Holds(x', y') then Pix(g, back, x', y') else Pix(g, mmio, x', y')
      {
        SpliceLines(g, mmio, y, end, piece, x', y');
      }
      mmio := Splice(mmio, start, piece);
    }

    method FlushRows(x: nat, y: nat, w: nat, end: nat)
      requires Covers(g, back) && Covers(g, mmio) && x + w <= g.width && y <= end <= g.height
      modifies `mmio
      ensures Copied(g, back, old(mmio), mmio, Rect(x, y, x + w, end))
    {
      for row := y to end
        invariant Copied(g, back, old(mmio), mmio, Rect(x, y, x + w, row))
      {
        FlushRow(x, row, w, y, old(mmio));
      }
    }

    method FlushRow(x: nat, row: nat, w: nat, ghost y: nat, ghost shown: Buffer)
      requires x + w <= g.width && y <= row < g.height
      requires Copied(g, back, shown, mmio, Rect(x, y, x + w, row))
      modifies `mmio
      ensures Copied(g, back, shown, mmio, Rect(x, y, x + w, row + 1))
    {
      RunFits(g, back, x, row, w);
      RunFits(g, mmio, x, row, w);
      var start := Idx(g.stride, x, row);
      var piece := back[start..start + w];
      forall x': nat, y': nat | OnScreen(g, x', y')
        ensures Covers(g, Splice(mmio, start, piece))
        ensures Pix(g, Splice(mmio, start, piece), x', y')
                == if Rect(x, y, x + w, row + 1).Holds(x', y') then Pix(g, back, x', y') else Pix(g, shown, x', y')
      {
        SpliceRow(g, mmio, x, row, piece, x', y');
        if y' == row && x <= x' < x + w { assert piece[x' - x] == back[start + (x' - x)]; }
      }
      mmio := Splice(mmio, start, piece);
    }

    /** Shows everything that is dirty. */
    method FlushDirty()
      requires Valid()
      modifies `mmio, `dirty
      ensures Valid() && dirty == None && SameScreen(g, back, mmio)
    {
      if dirty.Some? {
        var d := dirty.value;
        dirty := None;
        var w := if d.xMax > d.xMin then d.xMax - d.xMin else 0;
        var h := if d.yMax > d.yMin then d.yMax - d.yMin else 0;
        if w > 0 && h > 0 {
          ghost var shown := mmio;
          FlushRect(d.xMin, d.yMin, w, h);
          assert Area(d.xMin, d.yMin, w, h) == d;
          CopiedShows(g, back, shown, mmio, d);
        }
      }
    }

    // -------------------------------------------------------------
    // Drawing into the back buffer
    // -------------------------------------------------------------

    /** Writes one pixel; off the screen nothing happens. */
    method PutPixel(x: nat, y: nat, c: Color)
      requires Covers(g, back)
      modifies `back
      ensures Drawn(g, old(back), back, Area(x, y, 1, 1), Plain(MakePixel(format, c)))
      ensures if !OnScreen(g, x, y) then back == old(back) else
              && y * g.stride + x < |old(back)|
              && back == old(back)[y * g.stride + x := if format == Bgr then Pixel(c.b, c.g, c.r, 0)
                                                       else Pixel(c.r, c.g, c.b, 0)]
    {
      if x >= g.width || y >= g.height { return; }
      IdxInBuffer(g, back, x, y);
      var p := MakePixel(format, c);
      DrawnNothing(g, back, x, y, 1, Plain(p));
      RunFits(g, back, x, y, 1);
      DrawnRow(g, back, back, x, y, 1, 0, Plain(p), [p]);
      var a := Idx(g.stride, x, y);
      assert Splice(back, a, [p]) == back[a := p];
      back := back[a := p];
    }

    /** Fills w pixels of line y. */
    method FillRow(x: nat, y: nat, w: nat, c: Color)
      requires Covers(g, back) && x + w <= g.width && y < g.height
      modifies `back
      ensures Drawn(g, old(back), back, Area(x, y, w, 1), Plain(MakePixel(format, c)))
    {
      for i := 0 to w
        invariant Drawn(g, old(back), back, Area(x, y, i, 1), Plain(MakePixel(format, c)))
      {
        ghost var b1 := back;
        PutPixel(x + i, y, c);
        DrawnJoin(g, old(back), b1, back, Area(x, y, i, 1), Area(x + i, y, 1, 1), Area(x, y, i + 1, 1),
                  Plain(MakePixel(format, c)));
      }
    }

    /** Fills a rectangle: the first line pixel by pixel, the others by copying it. */
    method FillRect(x: nat, y: nat, w: nat, h: nat, c: Color)
      requires Covers(g, back) && x + w <= g.width && y + h <= g.height && h > 0
      modifies `back
      ensures Drawn(g, old(back), back, Area(x, y, w, h), Plain(MakePixel(format, c)))
    {
      ghost var f := Plain(MakePixel(format, c));
      FillRow(x, y, w, c);
      for k := 1 to h
        invariant Drawn(g, old(back), back, Area(x, y, w, k), f)
      {
        CopyRow(x, y, w, k, c, old(back));
      }
    }

    /** Copies the first line of a plain rectangle to line k. */
    method CopyRow(x: nat, y: nat, w: nat, k: nat, ghost c: Color, ghost before: Buffer)
      requires Drawn(g, before, back, Area(x, y, w, k), Plain(MakePixel(format, c)))
      requires k > 0 && x + w <= g.width && y + k < g.height
      modifies `back
      ensures Drawn(g, before, back, Area(x, y, w, k + 1), Plain(MakePixel(format, c)))
    {
      RunFits(g, back, x, y, w);
      RunFits(g, back, x, y + k, w);
      var a := Idx(g.stride, x, y);
      var piece := back[a..a + w];
      forall i: nat | i < w ensures piece[i] == MakePixel(format, c) {
        assert Area(x, y, w, k).Holds(x + i, y) && OnScreen(g, x + i, y);
        assert Pix(g, back, x + i, y) == back[a + i];
      }
      DrawnRow(g, before, back, x, y, w, k, Plain(MakePixel(format, c)), piece);
      back := Splice(back, Idx(g.stride, x, y + k), piece);
    }

    /** Fills the whole back buffer with the background. */
    method Clear()
      requires Valid()
      modifies this
      ensures Valid() && mmio == old(mmio) && fg == old(fg) && bg == old(bg) && cursorX == 0 && cursorY == 0
      ensures Drawn(g, old(back), back, Screen(g), Plain(MakePixel(format, bg)))
    {
      ghost var before := back;
      var p := MakePixel(format, bg);
      for i := 0 to |back|
        invariant |back| == |before| && mmio == old(mmio) && dirty == old(dirty) && fg == old(fg) && bg == old(bg)
        invariant forall j | 0 <= j < i :: back[j] == p
      {
        back := back[i := p];
      }
      forall x: nat, y: nat | OnScreen(g, x, y) ensures Pix(g, back, x, y) == p { IdxInBuffer(g, back, x, y); }
      cursorX, cursorY := 0, 0;
      DrawnWithin(g, before, back, Screen(g), Plain(p));
      MarkedCoherent(g, before, back, mmio, dirty, 0, 0, g.width, g.height);
      MarkDirty(0, 0, g.width, g.height);
    }

    /** Moves the picture up by one text line. */
    method ScrollUp()
      requires Valid()
      modifies `back, `dirty
      ensures Valid() && Scrolled(g, old(back), back, CHAR, MakePixel(format, bg))
    {
      ghost var before := back;
      var n, total := CHAR * g.stride, g.height * g.stride;
      ScrollBounds(g);
      MoveUp(n, total);
      ghost var moved := back;
      FillRun(total - n, total, MakePixel(format, bg));
      ScrolledRows(g, before, moved, back, MakePixel(format, bg), n, total);
      MarkedCoherent(g, before, back, mmio, dirty, 0, 0, g.width, g.height);
      MarkDirty(0, 0, g.width, g.height);
    }

    /** Moves the run from n to total to the front, as a copy of overlapping runs does. */
    method MoveUp(n: nat, total: nat)
      requires n <= total <= |back|
      modifies `back
      ensures MovedUp(old(back), back, n, total)
    {
      back := back[n..total] + back[total - n..];
    }

    method FillRun(from: nat, to: nat, p: Pixel)
      requires from <= to <= |back|
      modifies `back
      ensures FilledRun(old(back), back, from, to, p)
    {
      for j := from to to
        invariant FilledRun(old(back), back, from, j, p)
      {
        back := back[j := p];
      }
    }

    /** One more text line, when the picture has moved k lines since before. */
    method ScrollMore(ghost before: Buffer, ghost k: nat)
      requires Valid() && Scrolled(g, before, back, k, MakePixel(format, bg))
      modifies `back, `dirty
      ensures Valid() && Scrolled(g, before, back, k + CHAR, MakePixel(format, bg))
    {
      ghost var b1 := back;
      ScrollUp();
      ScrollTwice(g, before, b1, back, k, CHAR, MakePixel(format, bg));
    }

    /** Scrolls until the cursor's text line is on the screen; k is the number of lines moved. */
    method EnsureCursorVisible() returns (ghost k: nat)
      requires Valid()
      modifies `back, `dirty, `cursorY
      ensures Valid() && cursorY + CHAR <= g.height && cursorY + k == old(cursorY)
      ensures Scrolled(g, old(back), back, k, MakePixel(format, bg))
      ensures old(cursorY) + CHAR <= g.height ==> k == 0
    {
      ghost var before, y := back, cursorY;
      k := 0;
      while cursorY + CHAR > g.height
        invariant Valid() && cursorY + k == y && (y + CHAR <= g.height ==> k == 0)
        invariant Scrolled(g, before, back, k, MakePixel(format, bg))
        decreases cursorY
      {
        ScrollLine(before, k);
        k := k + CHAR;
      }
    }

    /** One more text line, with the cursor moving along. */
    method ScrollLine(ghost before: Buffer, ghost k: nat)
      requires Valid() && Scrolled(g, before, back, k, MakePixel(format, bg)) && cursorY >= CHAR
      modifies `back, `dirty, `cursorY
      ensures Valid() && Scrolled(g, before, back, k + CHAR, MakePixel(format, bg)) && cursorY == old(cursorY) - CHAR
    {
      ScrollMore(before, k);
      cursorY := cursorY - CHAR;
    }

    /** One row of a character cell. */
    method DrawGlyphRow(x: nat, y: nat, row: nat, glyph: seq<nat>)
      requires Covers(g, back) && |glyph| == CHAR && row < CHAR
      modifies `back
      ensures Drawn(g, old(back), back, Area(x, y + row, CHAR, 1),
                    GlyphPicture(x, y, glyph, MakePixel(format, fg), MakePixel(format, bg)))
    {
      ghost var f := GlyphPicture(x, y, glyph, MakePixel(format, fg), MakePixel(format, bg));
      for col := 0 to CHAR
        invariant Drawn(g, old(back), back, Area(x, y + row, col, 1), f)
      {
        ghost var b1 := back;
        var c := if BitAt(glyph[row], col) then fg else bg;
        PutPixel(x + col, y + row, c);
        assert f(x + col, y + row) == MakePixel(format, c);
        DrawnAs(g, b1, back, Area(x + col, y + row, 1, 1), Plain(MakePixel(format, c)), f);
        DrawnJoin(g, old(back), b1, back, Area(x, y + row, col, 1), Area(x + col, y + row, 1, 1),
                  Area(x, y + row, col + 1, 1), f);
      }
    }

    /** Draws a character cell. */
    method DrawChar(x: nat, y: nat, glyph: seq<nat>)
      requires Valid() && |glyph| == CHAR
      modifies `back, `dirty
      ensures Valid()
      ensures Drawn(g, old(back), back, Area(x, y, CHAR, CHAR),
                    GlyphPicture(x, y, glyph, MakePixel(format, fg), MakePixel(format, bg)))
      ensures forall row: nat, col: nat | row < 8 && col < 8 && OnScreen(g, x + col, y + row) ::
                Pix(g, back, x + col, y + row)
                == MakePixel(format, if glyph[row] / POWERS[col] % 2 == 1 then fg else bg)
    {
      ghost var f := GlyphPicture(x, y, glyph, MakePixel(format, fg), MakePixel(format, bg));
      DrawnNothing(g, back, x, y, CHAR, f);
      for row := 0 to CHAR
        invariant dirty == old(dirty) && Drawn(g, old(back), back, Area(x, y, CHAR, row), f)
      {
        ghost var b1 := back;
        DrawGlyphRow(x, y, row, glyph);
        DrawnJoin(g, old(back), b1, back, Area(x, y, CHAR, row), Area(x, y + row, CHAR, 1),
                  Area(x, y, CHAR, row + 1), f);
      }
      DrawnWithin(g, old(back), back, Area(x, y, CHAR, CHAR), f);
      GlyphPixels(g, old(back), back, x, y, glyph, MakePixel(format, fg), MakePixel(format, bg));
      MarkedCoherent(g, old(back), back, mmio, dirty, x, y, CHAR, CHAR);
      MarkDirty(x, y, CHAR, CHAR);
    }

    method PutRow(x: nat, y: nat, c: Color)
      requires Covers(g, back)
      modifies `back
      ensures Drawn(g, old(back), back, Area(x, y, CHAR, 1), Plain(MakePixel(format, c)))
    {
      for col := 0 to CHAR
        invariant Drawn(g, old(back), back, Area(x, y, col, 1), Plain(MakePixel(format, c)))
      {
        ghost var b1 := back;
        PutPixel(x + col, y, c);
        DrawnJoin(g, old(back), b1, back, Area(x, y, col, 1), Area(x + col, y, 1, 1), Area(x, y, col + 1, 1),
                  Plain(MakePixel(format, c)));
      }
    }

    /** Paints the character cell at the cursor with the background. */
    method EraseCharAtCursor()
      requires Valid()
      modifies `back, `dirty
      ensures Valid() && Drawn(g, old(back), back, Area(cursorX, cursorY, CHAR, CHAR), Plain(MakePixel(format, bg)))
    {
      ghost var f := Plain(MakePixel(format, bg));
      DrawnNothing(g, back, cursorX, cursorY, CHAR, f);
      for row := 0 to CHAR
        invariant dirty == old(dirty) && Drawn(g, old(back), back, Area(cursorX, cursorY, CHAR, row), f)
      {
        ghost var b1 := back;
        PutRow(cursorX, cursorY + row, bg);
        DrawnJoin(g, old(back), b1, back, Area(cursorX, cursorY, CHAR, row), Area(cursorX, cursorY + row, CHAR, 1),
                  Area(cursorX, cursorY, CHAR, row + 1), f);
      }
      DrawnWithin(g, old(back), back, Area(cursorX, cursorY, CHAR, CHAR), f);
      MarkedCoherent(g, old(back), back, mmio, dirty, cursorX, cursorY, CHAR, CHAR);
      MarkDirty(cursorX, cursorY, CHAR, CHAR);
    }

    // -------------------------------------------------------------
    // Text
    // -------------------------------------------------------------

    method NewLine() returns (ghost k: nat)
      requires Valid()
      modifies `back, `dirty, `cursorX, `cursorY
      ensures Valid() && cursorX == 0 && cursorY + k == old(cursorY) + CHAR && cursorY + CHAR <= g.height
      ensures Scrolled(g, old(back), back, k, MakePixel(format, bg))
      ensures old(cursorY) + 2 * CHAR <= g.height ==> k == 0
    {
      cursorX, cursorY := 0, cursorY + CHAR;
      k := EnsureCursorVisible();
    }

    method Backspace()
      requires Valid()
      modifies `back, `dirty, `cursorX
      ensures Valid()
      ensures old(cursorX) < CHAR ==> back == old(back) && cursorX == old(cursorX)
      ensures old(cursorX) >= CHAR ==> cursorX == old(cursorX) - CHAR
      ensures old(cursorX) >= CHAR ==>
                Drawn(g, old(back), back, Area(cursorX, cursorY, CHAR, CHAR), Plain(MakePixel(format, bg)))
    {
      if cursorX >= CHAR {
        cursorX := cursorX - CHAR;
        EraseCharAtCursor();
      }
    }

    /** Draws a character at the cursor, wrapping and scrolling first where needed. */
    method PrintChar(glyph: seq<nat>) returns (ghost k: nat, ghost mid: Buffer)
      requires Valid() && |glyph| == CHAR
      modifies `back, `dirty, `cursorX, `cursorY
      ensures Valid() && cursorX == Column(g, old(cursorX)) + CHAR && cursorY + CHAR <= g.height
      ensures cursorY + k == old(cursorY) + if old(cursorX) + CHAR > g.width then CHAR else 0
      ensures Scrolled(g, old(back), mid, k, MakePixel(format, bg))
      ensures Drawn(g, mid, back, Area(Column(g, old(cursorX)), cursorY, CHAR, CHAR),
                    GlyphPicture(Column(g, old(cursorX)), cursorY, glyph, MakePixel(format, fg), MakePixel(format, bg)))
    {
      if cursorX + CHAR > g.width {
        cursorX, cursorY := 0, cursorY + CHAR;
      }
      k := EnsureCursorVisible();
      mid := back;
      DrawChar(cursorX, cursorY, glyph);
      cursorX := cursorX + CHAR;
    }

    /** One character: line feed, carriage return, backspace, or a printed glyph; k lines scroll by first. */
    method WriteChar(c: nat, glyph: seq<nat>) returns (ghost k: nat, ghost mid: Buffer)
      requires Valid() && |glyph| == CHAR
      modifies `back, `dirty, `cursorX, `cursorY
      ensures Valid()
      ensures c == 13 ==> back == old(back) && cursorX == 0 && cursorY == old(cursorY)
      ensures c == 10 ==> cursorX == 0 && cursorY + k == old(cursorY) + CHAR && cursorY + CHAR <= g.height
      ensures c == 10 ==> Scrolled(g, old(back), back, k, MakePixel(format, bg))
      ensures c == 8 ==> cursorX == (if old(cursorX) >= CHAR then old(cursorX) - CHAR else old(cursorX))
      ensures c == 8 ==> cursorY == old(cursorY)
      ensures c == 8 && old(cursorX) < CHAR ==> back == old(back)
      ensures c == 8 && old(cursorX) >= CHAR ==>
                Drawn(g, old(back), back, Area(cursorX, cursorY, CHAR, CHAR), Plain(MakePixel(format, bg)))
      ensures c != 8 && c != 10 && c != 13 ==>
                cursorX == Column(g, old(cursorX)) + CHAR && Scrolled(g, old(back), mid, k, MakePixel(format, bg))
      ensures c != 8 && c != 10 && c != 13 ==>
                && cursorY + k == old(cursorY) + (if old(cursorX) + CHAR > g.width then CHAR else 0)
                && cursorY + CHAR <= g.height
      ensures c != 8 && c != 10 && c != 13 ==>
                Drawn(g, mid, back, Area(Column(g, old(cursorX)), cursorY, CHAR, CHAR),
                      GlyphPicture(Column(g, old(cursorX)), cursorY, glyph, MakePixel(format, fg),
                                   MakePixel(format, bg)))
    {
      k, mid := 0, back;
      if c == 10 {
        k := NewLine();
      } else if c == 13 {
        cursorX := 0;
      } else if c == 8 {
        Backspace();
      } else {
        k, mid := PrintChar(glyph);
      }
    }

    // -------------------------------------------------------------
    // Drawing that is shown at once
    // -------------------------------------------------------------

    method DrawRect(x: nat, y: nat, w: nat, h: nat, c: Color) returns (r: Outcome)
      requires Valid()
      modifies `back, `mmio, `dirty
      ensures Valid() && (r == InvalidSize <==> w == 0 || h == 0)
      ensures r == Done <==> w > 0 && h > 0 && x + w <= g.width && y + h <= g.height
      ensures r != Done ==> back == old(back) && mmio == old(mmio)
      ensures r == Done ==> Drawn(g, old(back), back, Area(x, y, w, h), Plain(MakePixel(format, c)))
      ensures r == Done ==> SameScreen(g, back, mmio)
    {
      r := CheckArea(g, x, y, w, h);
      if r != Done { return; }
      FillRect(x, y, w, h, c);
      Show(x, y, w, h, old(back), Plain(MakePixel(format, c)));
    }

    /** Marks a drawn rectangle and flushes it. */
    method Show(x: nat, y: nat, w: nat, h: nat, ghost before: Buffer, ghost f: (nat, nat) -> Pixel)
      requires g.height >= 16 && DirtyOnScreen(g, dirty) && Coherent(g, before, mmio, dirty)
      requires Drawn(g, before, back, Area(x, y, w, h), f)
      modifies `mmio, `dirty
      ensures Valid() && SameScreen(g, back, mmio) && dirty == None
    {
      DrawnWithin(g, before, back, Area(x, y, w, h), f);
      MarkedCoherent(g, before, back, mmio, dirty, x, y, w, h);
      MarkDirty(x, y, w, h);
      FlushDirty();
    }

    /** Copies w by h pixels of src to x, y. */
    method DrawBlit(x: nat, y: nat, w: nat, h: nat, src: Buffer) returns (r: Outcome)
      requires Valid()
      modifies `back, `mmio, `dirty
      ensures Valid()
      ensures r == Done <==> w > 0 && h > 0 && x + w <= g.width && y + h <= g.height && h * w <= |src|
      ensures r == InvalidSize <==> w == 0 || h == 0 || (x + w <= g.width && y + h <= g.height && |src| < h * w)
      ensures r != Done ==> back == old(back) && mmio == old(mmio)
      ensures r == Done ==> Drawn(g, old(back), back, Area(x, y, w, h),
                                  BlitPicture(x, y, w, src, MakePixel(format, bg)))
                            && SameScreen(g, back, mmio)
      ensures r == Done ==> forall i: nat, j: nat | i < w && j < h :: BlitShown(g, back, x, y, w, src, i, j)
    {
      r := CheckArea(g, x, y, w, h);
      if r != Done { return; }
      if |src| < h * w { return InvalidSize; }
      BlitRows(x, y, w, h, src);
      BlitPixels(g, old(back), back, x, y, w, h, src, MakePixel(format, bg));
      Show(x, y, w, h, old(back), BlitPicture(x, y, w, src, MakePixel(format, bg)));
    }

    method BlitRows(x: nat, y: nat, w: nat, h: nat, src: Buffer)
      requires Covers(g, back) && x + w <= g.width && y + h <= g.height && h * w <= |src|
      modifies `back
      ensures Drawn(g, old(back), back, Area(x, y, w, h), BlitPicture(x, y, w, src, MakePixel(format, bg)))
    {
      ghost var f := BlitPicture(x, y, w, src, MakePixel(format, bg));
      DrawnNothing(g, back, x, y, w, f);
      var from := 0;
      for k := 0 to h
        invariant from == k * w && Drawn(g, old(back), back, Area(x, y, w, k), f)
      {
        BlitBounds(w, h, k);
        BlitRow(x, y, w, k, src[from..from + w], f, old(back), src);
        from := from + w;
      }
    }

    method BlitRow(x: nat, y: nat, w: nat, k: nat, piece: Buffer, ghost f: (nat, nat) -> Pixel, ghost before: Buffer,
                   ghost src: Buffer)
      requires Drawn(g, before, back, Area(x, y, w, k), f) && x + w <= g.width && y + k < g.height && |piece| == w
      requires k * w + w <= |src| && piece == src[k * w..k * w + w]
      requires f == BlitPicture(x, y, w, src, MakePixel(format, bg))
      modifies `back
      ensures Drawn(g, before, back, Area(x, y, w, k + 1), f)
    {
      RunFits(g, back, x, y + k, w);
      forall i: nat | i < w ensures piece[i] == f(x + i, y + k) {
        assert Idx(w, i, k) == k * w + i && x + i - x == i && y + k - y == k;
      }
      DrawnRow(g, before, back, x, y, w, k, f, piece);
      back := Splice(back, Idx(g.stride, x, y + k), piece);
    }

    /** Draws a line and shows its bounding box. */
    method DrawLine(x0: nat, y0: nat, x1: nat, y1: nat, c: Color)
      returns (r: Outcome, ghost pixels: seq<Bresenham.Point>)
      requires Valid()
      modifies `back, `mmio, `dirty
      ensures Valid()
      ensures r == if OnScreen(g, x0, y0) && OnScreen(g, x1, y1) then Done else OutOfBounds
      ensures r != Done ==> back == old(back) && mmio == old(mmio)
      ensures r == Done ==> SameScreen(g, back, mmio) && Plotted(g, old(back), back, pixels, MakePixel(format, c))
      ensures r == Done ==> |pixels| == Bresenham.Max(Bresenham.Abs(x1 - x0), Bresenham.Abs(y1 - y0)) + 1
      ensures r == Done ==> Bresenham.Traced(pixels, x0, y0, x1, y1)
    {
      pixels := [];
      if !OnScreen(g, x0, y0) || !OnScreen(g, x1, y1) { return OutOfBounds, pixels; }
      var points := Bresenham.Line(x0, y0, x1, y1);
      pixels := points;
      Plot(points, c);
      var x, y := Min(x0, x1), Min(y0, y1);
      var w, h := Max(x0, x1) - x + 1, Max(y0, y1) - y + 1;
      PlottedWithin(g, old(back), back, points, MakePixel(format, c), x0, y0, x1, y1);
      MarkedCoherent(g, old(back), back, mmio, dirty, x, y, w, h);
      MarkDirty(x, y, w, h);
      FlushDirty();
      r := Done;
    }

    method Plot(points: seq<Bresenham.Point>, c: Color)
      requires Covers(g, back)
      modifies `back
      ensures Plotted(g, old(back), back, points, MakePixel(format, c))
    {
      for i := 0 to |points|
        invariant Plotted(g, old(back), back, points[..i], MakePixel(format, c))
      {
        var p := points[i];
        assert points[..i + 1] == points[..i] + [p];
        if p.x >= 0 && p.y >= 0 { PutPixel(p.x, p.y, c); }
      }
      assert points[..|points|] == points;
    }
  }

  /** Exactly the points of the list have the colour. */
  ghost predicate Plotted(g: Geometry, b0: Buffer, b1: Buffer, points: seq<Bresenham.Point>, p: Pixel) {
    && Covers(g, b0) && Covers(g, b1)
    && (forall x: nat, y: nat | OnScreen(g, x, y) ::
          Pix(g, b1, x, y) == if Bresenham.Point(x, y) in points then p else Pix(g, b0, x, y))
  }

  /** A traced line stays in the box that is marked dirty. */
  lemma PlottedWithin(g: Geometry, b0: Buffer, b1: Buffer, points: seq<Bresenham.Point>, p: Pixel, x0: nat, y0: nat,
                      x1: nat, y1: nat)
    requires Plotted(g, b0, b1, points, p) && Bresenham.Traced(points, x0, y0, x1, y1)
    ensures ChangedWithin(g, b0, b1, Rect(Min(x0, x1), Min(y0, y1), Max(x0, x1) + 1, Max(y0, y1) + 1))
  {
    var r := Rect(Min(x0, x1), Min(y0, y1), Max(x0, x1) + 1, Max(y0, y1) + 1);
    forall x: nat, y: nat | OnScreen(g, x, y) && !r.Holds(x, y) ensures Bresenham.Point(x, y) !in points {
      forall t | 0 <= t < |points| ensures points[t] != Bresenham.Point(x, y) {
        assert Bresenham.PixelOk(points[t], x0, y0, x1, y1, t);
      }
    }
  }

  /** Where a character goes that does not fit on its line. */
  function Column(g: Geometry, x: nat): nat {
    if x + CHAR > g.width then 0 else x
  }

  datatype Outcome = Done | OutOfBounds | InvalidSize

  function CheckArea(g: Geometry, x: nat, y: nat, w: nat, h: nat): (r: Outcome)
    ensures r == Done ==> w > 0 && h > 0 && x + w <= g.width && y + h <= g.height
  {
    if w == 0 || h == 0 then InvalidSize
    else if x >= g.width || y >= g.height || x + w > g.width || y + h > g.height then OutOfBounds
    else Done
  }

  lemma BlitBounds(w: nat, h: nat, k: nat)
    requires k < h
    ensures k * w + w <= h * w
  {
    RowGap(w, k, h);
  }

  lemma ScrollBounds(g: Geometry)
    requires g.height >= CHAR
    ensures CHAR * g.stride <= g.height * g.stride
    ensures g.height * g.stride - CHAR * g.stride == (g.height - CHAR) * g.stride
  {
  }

  /** The run from n to total has moved to the front. */
  ghost predicate MovedUp(b0: Buffer, b1: Buffer, n: nat, total: nat) {
    n <= total <= |b0| == |b1| && forall i: nat | i < total - n :: b1[i] == b0[i + n]
  }

  /** The run from a to e is plain, the pixels before it are as before. */
  ghost predicate FilledRun(b0: Buffer, b1: Buffer, a: nat, e: nat, p: Pixel) {
    a <= e <= |b0| == |b1| && (forall i | 0 <= i < a :: b1[i] == b0[i]) && (forall i | a <= i < e :: b1[i] == p)
  }

  /** Moving memory up by whole lines and filling the rest moves the picture up. */
  lemma ScrolledRows(g: Geometry, b0: Buffer, b1: Buffer, b2: Buffer, off: Pixel, n: nat, total: nat)
    requires Covers(g, b0) && g.height >= CHAR && n == CHAR * g.stride && total == g.height * g.stride
    requires MovedUp(b0, b1, n, total) && FilledRun(b1, b2, total - n, total, off)
    ensures Scrolled(g, b0, b2, CHAR, off)
  {
    forall x: nat, y: nat | OnScreen(g, x, y) ensures Pix(g, b2, x, y) == PixBelow(g, b0, CHAR, off, x, y) {
      ScrolledPixel(g, b0, b1, b2, off, n, total, x, y);
    }
  }

  lemma ScrolledPixel(g: Geometry, b0: Buffer, b1: Buffer, b2: Buffer, off: Pixel, n: nat, total: nat, x: nat, y: nat)
    requires Covers(g, b0) && g.height >= CHAR && n == CHAR * g.stride && total == g.height * g.stride
    requires MovedUp(b0, b1, n, total) && FilledRun(b1, b2, total - n, total, off) && OnScreen(g, x, y)
    ensures Pix(g, b2, x, y) == PixBelow(g, b0, CHAR, off, x, y)
  {
    ScrollBounds(g);
    var i := Idx(g.stride, x, y);
    RowsApart(g.stride, x, y, g.height);
    if y + CHAR < g.height {
      RowsApart(g.stride, x, y, g.height - CHAR);
      RowShift(g.stride, x, y);
      assert b2[i] == b1[i] == b0[i + n];
    } else {
      RowsBelow(g.stride, g.height - CHAR, y);
    }
  }

  lemma RowsBelow(s: nat, y: nat, y': nat)
    requires y <= y'
    ensures y * s <= y' * s
  {
    assert y' * s == y * s + (y' - y) * s;
  }

  lemma RowShift(s: nat, x: nat, y: nat)
    ensures Idx(s, x, y + CHAR) == Idx(s, x, y) + CHAR * s
  {
  }

  lemma LinesInBuffer(g: Geometry, y: nat, end: nat)
    requires y <= end <= g.height
    ensures y * g.stride + (end - y) * g.stride <= g.height * g.stride
  {
    assert y * g.stride + (end - y) * g.stride == end * g.stride;
    assert g.height * g.stride == end * g.stride + (g.height - end) * g.stride;
  }
}

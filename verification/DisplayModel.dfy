/** Pixels of a flat buffer, dirty rectangles, and when the back buffer and the display agree. */
module DisplayModel {
  import opened Options

  /** The four bytes of a pixel. */
  datatype Pixel = Pixel(b0: nat, b1: nat, b2: nat, b3: nat)

  datatype Format = Rgb | Bgr | OtherFormat

  datatype Color = Color(r: nat, g: nat, b: nat)

  function MakePixel(f: Format, c: Color): Pixel {
    if f == Bgr then Pixel(c.b, c.g, c.r, 0) else Pixel(c.r, c.g, c.b, 0)
  }

  type Buffer = seq<Pixel>

  /** Pixels per line on the screen and in memory, and lines. */
  datatype Geometry = Geometry(width: nat, height: nat, stride: nat)

  function Idx(s: nat, x: nat, y: nat): nat {
    y * s + x
  }

  /** Lines are not shorter in memory than on the screen, and the buffer holds the whole screen. */
  predicate Covers(g: Geometry, buf: Buffer) {
    0 < g.width <= g.stride && g.height * g.stride <= |buf|
  }

  predicate OnScreen(g: Geometry, x: nat, y: nat) {
    x < g.width && y < g.height
  }

  lemma RowsApart(s: nat, x: nat, y: nat, y': nat)
    requires x < s && y < y'
    ensures Idx(s, x, y) < y' * s
  {
    assert y' * s == y * s + s + (y' - y - 1) * s;
  }

  lemma IdxInBuffer(g: Geometry, buf: Buffer, x: nat, y: nat)
    requires Covers(g, buf) && x < g.stride && y < g.height
    ensures Idx(g.stride, x, y) < |buf|
  {
    RowsApart(g.stride, x, y, g.height);
  }

  function Pix(g: Geometry, buf: Buffer, x: nat, y: nat): Pixel
    requires Covers(g, buf) && OnScreen(g, x, y)
  {
    IdxInBuffer(g, buf, x, y);
    buf[Idx(g.stride, x, y)]
  }

  // ---------------------------------------------------------------
  // Replacing a run of pixels
  // ---------------------------------------------------------------

  function Splice(buf: Buffer, a: nat, piece: Buffer): (r: Buffer)
    requires a + |piece| <= |buf|
    ensures |r| == |buf|
  {
    buf[..a] + piece + buf[a + |piece|..]
  }

  lemma SpliceAt(buf: Buffer, a: nat, piece: Buffer, i: nat)
    requires a + |piece| <= |buf| && i < |buf|
    ensures Splice(buf, a, piece)[i] == if a <= i < a + |piece| then piece[i - a] else buf[i]
  {
  }

  lemma RunFits(g: Geometry, buf: Buffer, x: nat, y: nat, w: nat)
    requires Covers(g, buf) && x + w <= g.stride && y < g.height
    ensures Idx(g.stride, x, y) + w <= |buf|
  {
    RowGap(g.stride, y, g.height);
  }

  /** A run inside line y changes exactly its pixels. */
  lemma SpliceRow(g: Geometry, buf: Buffer, x: nat, y: nat, piece: Buffer, x': nat, y': nat)
    requires Covers(g, buf) && x + |piece| <= g.stride && y < g.height && OnScreen(g, x', y')
    requires Idx(g.stride, x, y) + |piece| <= |buf|
    ensures Covers(g, Splice(buf, Idx(g.stride, x, y), piece))
    ensures Pix(g, Splice(buf, Idx(g.stride, x, y), piece), x', y')
            == if y' == y && x <= x' < x + |piece| then piece[x' - x] else Pix(g, buf, x', y')
  {
    IdxInBuffer(g, buf, x', y');
    RowRange(g.stride, x, y, |piece|, x', y');
    SpliceAt(buf, Idx(g.stride, x, y), piece, Idx(g.stride, x', y'));
  }

  lemma RowRange(s: nat, x: nat, y: nat, n: nat, x': nat, y': nat)
    requires x + n <= s && x' < s
    ensures Idx(s, x, y) <= Idx(s, x', y') < Idx(s, x, y) + n <==> y' == y && x <= x' < x + n
  {
    if y' < y {
      RowsApart(s, x', y', y);
    } else if y < y' {
      RowGap(s, y, y');
    }
  }

  lemma RowGap(s: nat, y: nat, y': nat)
    requires y < y'
    ensures y * s + s <= y' * s
  {
    assert y' * s == y * s + s + (y' - y - 1) * s;
  }

  /** A run of whole lines y to e, when lines follow each other without gaps. */
  lemma SpliceLines(g: Geometry, buf: Buffer, y: nat, e: nat, piece: Buffer, x': nat, y': nat)
    requires Covers(g, buf) && y <= e <= g.height && |piece| == (e - y) * g.stride && OnScreen(g, x', y')
    requires y * g.stride + |piece| <= |buf|
    ensures Covers(g, Splice(buf, y * g.stride, piece))
    ensures y <= y' < e ==> y * g.stride <= Idx(g.stride, x', y') < y * g.stride + |piece|
    ensures Pix(g, Splice(buf, y * g.stride, piece), x', y')
            == if y <= y' < e then piece[Idx(g.stride, x', y') - y * g.stride] else Pix(g, buf, x', y')
  {
    LinesRange(g.stride, y, e, x', y');
    IdxInBuffer(g, buf, x', y');
    SpliceAt(buf, y * g.stride, piece, Idx(g.stride, x', y'));
  }

  lemma LinesRange(s: nat, y: nat, e: nat, x': nat, y': nat)
    requires y <= e && x' < s
    ensures y * s <= Idx(s, x', y') < y * s + (e - y) * s <==> y <= y' < e
  {
    assert y * s + (e - y) * s == e * s;
    if y' < y { RowsApart(s, x', y', y); }
    if y <= y' { assert y' * s == y * s + (y' - y) * s; }
    if y' < e { RowsApart(s, x', y', e); }
    if e <= y' { assert y' * s == e * s + (y' - e) * s; }
  }

  // ---------------------------------------------------------------
  // Dirty rectangles
  // ---------------------------------------------------------------

  /** Left and top inclusive, right and bottom exclusive. */
  datatype Rect = Rect(xMin: nat, yMin: nat, xMax: nat, yMax: nat) {
    predicate Holds(x: nat, y: nat) { xMin <= x < xMax && yMin <= y < yMax }
  }

  predicate InDirty(d: Option<Rect>, x: nat, y: nat) {
    d.Some? && d.value.Holds(x, y)
  }

  function Min(a: nat, b: nat): nat { if a < b then a else b }

  function Max(a: nat, b: nat): nat { if a < b then b else a }

  /** The dirty rectangle after w by h pixels at x, y are marked. */
  function Marked(g: Geometry, d: Option<Rect>, x: nat, y: nat, w: nat, h: nat): Option<Rect> {
    var n := Rect(x, y, Min(x + w, g.width), Min(y + h, g.height));
    if d.None? then Some(n) else
      Some(Rect(Min(d.value.xMin, n.xMin), Min(d.value.yMin, n.yMin),
                Max(d.value.xMax, n.xMax), Max(d.value.yMax, n.yMax)))
  }

  /** Old dirty pixels and all marked pixels on the screen are in the new rectangle. */
  lemma MarkedHolds(g: Geometry, d: Option<Rect>, x: nat, y: nat, w: nat, h: nat, x': nat, y': nat)
    requires OnScreen(g, x', y')
    ensures InDirty(d, x', y') || Rect(x, y, x + w, y + h).Holds(x', y') ==> InDirty(Marked(g, d, x, y, w, h), x', y')
  {
  }

  predicate DirtyOnScreen(g: Geometry, d: Option<Rect>) {
    d.Some? ==> d.value.xMax <= g.width && d.value.yMax <= g.height
  }

  /** Outside the dirty rectangle the back buffer and the display show the same. */
  ghost predicate Coherent(g: Geometry, back: Buffer, mmio: Buffer, d: Option<Rect>) {
    && Covers(g, back) && Covers(g, mmio)
    && (forall x: nat, y: nat | OnScreen(g, x, y) && !InDirty(d, x, y) :: Pix(g, back, x, y) == Pix(g, mmio, x, y))
  }

  /** Only pixels of the rectangle changed. */
  ghost predicate ChangedWithin(g: Geometry, back: Buffer, back': Buffer, r: Rect) {
    && Covers(g, back) && Covers(g, back')
    && (forall x: nat, y: nat | OnScreen(g, x, y) && !r.Holds(x, y) :: Pix(g, back', x, y) == Pix(g, back, x, y))
  }

  /** A change that is then marked keeps the display coherent. */
  lemma MarkedCoherent(g: Geometry, back: Buffer, back': Buffer, mmio: Buffer, d: Option<Rect>, x: nat, y: nat,
                       w: nat, h: nat)
    requires Coherent(g, back, mmio, d) && ChangedWithin(g, back, back', Rect(x, y, x + w, y + h))
    ensures Coherent(g, back', mmio, Marked(g, d, x, y, w, h))
  {
    forall x': nat, y': nat | OnScreen(g, x', y') && !InDirty(Marked(g, d, x, y, w, h), x', y')
      ensures Pix(g, back', x', y') == Pix(g, mmio, x', y')
    {
      MarkedHolds(g, d, x, y, w, h, x', y');
    }
  }

  /** The display took over exactly the rectangle. */
  ghost predicate Copied(g: Geometry, back: Buffer, mmio: Buffer, mmio': Buffer, r: Rect) {
    && Covers(g, back) && Covers(g, mmio) && Covers(g, mmio')
    && (forall x: nat, y: nat | OnScreen(g, x, y) ::
          Pix(g, mmio', x, y) == if r.Holds(x, y) then Pix(g, back, x, y) else Pix(g, mmio, x, y))
  }

  ghost predicate SameScreen(g: Geometry, a: Buffer, b: Buffer) {
    Covers(g, a) && Covers(g, b) && forall x: nat, y: nat | OnScreen(g, x, y) :: Pix(g, a, x, y) == Pix(g, b, x, y)
  }

  /** Copying the dirty rectangle makes the display show the back buffer. */
  lemma CopiedShows(g: Geometry, back: Buffer, mmio: Buffer, mmio': Buffer, d: Rect)
    requires Coherent(g, back, mmio, Some(d)) && Copied(g, back, mmio, mmio', d)
    ensures SameScreen(g, back, mmio')
  {
  }
}

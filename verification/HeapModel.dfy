/** The large-object heap on values: free blocks in address order, live blocks, and the bump pointer. */
module HeapModel {

  const HEADER := 16

  datatype Block = Block(addr: nat, size: nat) {
    function End(): nat { addr + size }

    predicate Holds(x: nat) { addr <= x < addr + size }
  }

  /** A block in use: its recorded size and the payload size its owner asked for. */
  datatype Live = Live(size: nat, want: nat)

  datatype Heap = Heap(lo: nat, hi: nat, bump: nat, free: seq<Block>, live: map<nat, Live>)

  predicate Apart(a: nat, n: nat, b: nat, m: nat) {
    a + n <= b || b + m <= a
  }

  // ---------------------------------------------------------------
  // The invariant
  // ---------------------------------------------------------------

  /** Free blocks ascend strictly and no two of them touch. */
  predicate Separated(free: seq<Block>) {
    forall i, j | 0 <= i < j < |free| :: free[i].End() < free[j].addr
  }

  predicate Placed(lo: nat, bump: nat, addr: nat, size: nat) {
    lo <= addr && addr % 8 == 0 && size >= HEADER && addr + size <= bump
  }

  predicate FreePlaced(h: Heap) {
    forall i | 0 <= i < |h.free| :: Placed(h.lo, h.bump, h.free[i].addr, h.free[i].size)
  }

  /** No free block touches the bump pointer. */
  predicate BumpClear(h: Heap) {
    forall i | 0 <= i < |h.free| :: h.free[i].End() < h.bump
  }

  predicate LivePlaced(h: Heap) {
    forall a | a in h.live :: Placed(h.lo, h.bump, a, h.live[a].size) && h.live[a].size >= HEADER + h.live[a].want
  }

  predicate LiveApart(h: Heap) {
    forall a, b | a in h.live && b in h.live && a != b :: Apart(a, h.live[a].size, b, h.live[b].size)
  }

  predicate LiveFreeApart(h: Heap) {
    forall a, i | a in h.live && 0 <= i < |h.free| :: Apart(a, h.live[a].size, h.free[i].addr, h.free[i].size)
  }

  predicate Bounds(h: Heap) {
    0 < h.lo <= h.bump <= h.hi
  }

  /** All but the distance of free blocks to the bump pointer. */
  predicate Almost(h: Heap) {
    Bounds(h) && Separated(h.free) && FreePlaced(h) && LivePlaced(h) && LiveApart(h) && LiveFreeApart(h)
  }

  predicate Ok(h: Heap) {
    Almost(h) && BumpClear(h)
  }

  /** The byte belongs to a free block or lies beyond the bump pointer. */
  predicate Avail(h: Heap, x: nat) {
    h.bump <= x < h.hi || InFree(h.free, x)
  }

  predicate InFree(free: seq<Block>, x: nat) {
    exists i | 0 <= i < |free| :: free[i].Holds(x)
  }

  lemma InFreeJoin(a: seq<Block>, b: seq<Block>, x: nat)
    ensures InFree(a + b, x) <==> InFree(a, x) || InFree(b, x)
  {
    if InFree(a, x) {
      var i :| 0 <= i < |a| && a[i].Holds(x);
      assert (a + b)[i].Holds(x);
    }
    if InFree(b, x) {
      var i :| 0 <= i < |b| && b[i].Holds(x);
      assert (a + b)[|a| + i].Holds(x);
    }
  }

  lemma InFreeOne(b: Block, x: nat)
    ensures InFree([b], x) <==> b.Holds(x)
  {
    assert [b][0] == b;
  }

  // ---------------------------------------------------------------
  // Allocation
  // ---------------------------------------------------------------

  /** The next multiple of the alignment. */
  function AlignUp(x: nat, align: nat): (r: nat)
    requires align > 0
    ensures r >= x
  {
    if x % align == 0 then x else x + (align - x % align)
  }

  function Remove(free: seq<Block>, k: nat): seq<Block>
    requires k < |free|
  {
    free[..k] + free[k + 1..]
  }

  /** The k-th free block is taken whole, with its header now at a. */
  function TakeFree(h: Heap, k: nat, a: nat, size: nat): Heap
    requires k < |h.free|
  {
    h.(free := Remove(h.free, k), live := h.live[a := Live(h.free[k].size, size)])
  }

  /** A block with its header at a is cut off at the bump pointer. */
  function TakeBump(h: Heap, a: nat, size: nat): Heap {
    h.(bump := a + HEADER + size, live := h.live[a := Live(HEADER + size, size)])
  }

  lemma RemoveAt(free: seq<Block>, k: nat, i: int)
    requires k < |free| && 0 <= i < |free| - 1
    ensures Remove(free, k)[i] == free[if i < k then i else i + 1]
  {
  }

  /** Taking a free block where it lies keeps the invariant. */
  lemma TakeFreeOk(h: Heap, k: nat, size: nat)
    requires Ok(h) && k < |h.free| && h.free[k].size >= HEADER + size
    ensures h.free[k].addr !in h.live && Ok(TakeFree(h, k, h.free[k].addr, size))
  {
    PaddedLive(h, k, 0);
    MovedParts(h, k, size, h.free[k].addr);
    MovedSlack(h, k, 0);
  }

  lemma RemoveAvail(free: seq<Block>, k: nat, x: nat)
    requires k < |free|
    ensures InFree(free, x) <==> InFree(Remove(free, k), x) || free[k].Holds(x)
  {
    assert free == free[..k] + ([free[k]] + free[k + 1..]);
    InFreeJoin(free[..k], [free[k]] + free[k + 1..], x);
    InFreeJoin([free[k]], free[k + 1..], x);
    InFreeOne(free[k], x);
    InFreeJoin(free[..k], free[k + 1..], x);
  }

  /** Separated blocks share no byte. */
  lemma RemoveGone(free: seq<Block>, k: nat, x: nat)
    requires Separated(free) && k < |free| && free[k].Holds(x)
    ensures !InFree(Remove(free, k), x)
  {
    forall i | 0 <= i < |free| - 1 ensures !Remove(free, k)[i].Holds(x) {
      RemoveAt(free, k, i);
    }
  }

  /** Exactly the taken block stops being available. */
  lemma TakeFreeAvail(h: Heap, k: nat, size: nat, x: nat)
    requires Ok(h) && k < |h.free|
    ensures Avail(TakeFree(h, k, h.free[k].addr, size), x) <==> Avail(h, x) && !h.free[k].Holds(x)
  {
    RemoveAvail(h.free, k, x);
    if h.free[k].Holds(x) { RemoveGone(h.free, k, x); }
  }

  lemma TakeBumpOk(h: Heap, a: nat, size: nat)
    requires Ok(h) && h.bump <= a && a % 8 == 0 && a + HEADER + size <= h.hi
    ensures a !in h.live && Ok(TakeBump(h, a, size))
  {
    var h' := TakeBump(h, a, size);
    assert forall b | b in h'.live && b != a :: b in h.live && h'.live[b] == h.live[b];
  }

  /** Exactly the bytes from the old bump pointer to the end of the block stop being available. */
  lemma TakeBumpAvail(h: Heap, a: nat, size: nat, x: nat)
    requires Ok(h) && h.bump <= a && a + HEADER + size <= h.hi
    ensures Avail(TakeBump(h, a, size), x) <==> Avail(h, x) && !(h.bump <= x < a + HEADER + size)
  {
  }

  // ---------------------------------------------------------------
  // Deallocation
  // ---------------------------------------------------------------

  /** Merges b with the block after it, if they touch: the block and what is left of the rest. */
  function JoinRight(b: Block, right: seq<Block>): (Block, seq<Block>) {
    if right != [] && b.End() == right[0].addr then (Block(b.addr, b.size + right[0].size), right[1..]) else (b, right)
  }

  /** Inserts b between left and right, merging on both sides. */
  function Merged(left: seq<Block>, b: Block, right: seq<Block>): seq<Block> {
    var (c, rest) := JoinRight(b, right);
    var n := |left| - 1;
    if left != [] && left[n].End() == b.addr then left[..n] + [Block(left[n].addr, left[n].size + c.size)] + rest
    else left + [c] + rest
  }

  /** b lies strictly inside the gap between left and right. */
  predicate Between(left: seq<Block>, b: Block, right: seq<Block>) {
    && Separated(left) && Separated(right)
    && (forall i | 0 <= i < |left| :: left[i].End() <= b.addr)
    && (forall i | 0 <= i < |right| :: b.End() <= right[i].addr)
    && b.size > 0
  }

  lemma MergedSeparated(left: seq<Block>, b: Block, right: seq<Block>)
    requires Between(left, b, right)
    ensures Separated(Merged(left, b, right))
  {
    JoinRightSeparated(b, right);
    var (c, rest) := JoinRight(b, right);
    var n := |left| - 1;
    if left != [] && left[n].End() == b.addr {
      var d := Block(left[n].addr, left[n].size + c.size);
      assert d.End() == c.End();
      InsertSeparated(left[..n], d, rest);
    } else {
      assert forall i | 0 <= i < |left| :: left[i].End() < c.addr by {
        assert forall i | 0 <= i < n :: left[i].End() < left[n].addr;
      }
      InsertSeparated(left, c, rest);
    }
  }

  lemma JoinRightSeparated(b: Block, right: seq<Block>)
    requires Separated(right) && (forall i | 0 <= i < |right| :: b.End() <= right[i].addr)
    ensures Separated(JoinRight(b, right).1) && JoinRight(b, right).0.addr == b.addr
    ensures forall i | 0 <= i < |JoinRight(b, right).1| :: JoinRight(b, right).0.End() < JoinRight(b, right).1[i].addr
    ensures JoinRight(b, right).0.size >= b.size
  {
  }

  lemma InsertSeparated(left: seq<Block>, b: Block, right: seq<Block>)
    requires Separated(left) && Separated(right)
    requires forall i | 0 <= i < |left| :: left[i].End() < b.addr
    requires forall i | 0 <= i < |right| :: b.End() < right[i].addr
    ensures Separated(left + [b] + right)
  {
  }

  lemma MergedBytes(left: seq<Block>, b: Block, right: seq<Block>, x: nat)
    ensures InFree(Merged(left, b, right), x) <==> InFree(left, x) || b.Holds(x) || InFree(right, x)
  {
    var (c, rest) := JoinRight(b, right);
    assert c.Holds(x) || InFree(rest, x) <==> b.Holds(x) || InFree(right, x) by {
      if rest != right {
        assert right == [right[0]] + right[1..];
        InFreeJoin([right[0]], right[1..], x);
        InFreeOne(right[0], x);
      }
    }
    var n := |left| - 1;
    if left != [] && left[n].End() == b.addr {
      var d := Block(left[n].addr, left[n].size + c.size);
      assert left == left[..n] + [left[n]];
      InFreeJoin(left[..n], [left[n]], x);
      InFreeOne(left[n], x);
      InFreeJoin(left[..n] + [d], rest, x);
      InFreeJoin(left[..n], [d], x);
      InFreeOne(d, x);
    } else {
      InFreeJoin(left + [c], rest, x);
      InFreeJoin(left, [c], x);
      InFreeOne(c, x);
    }
  }

  /** What a list of free blocks must satisfy towards one live block and the bounds. */
  predicate ListFits(lo: nat, bump: nat, free: seq<Block>) {
    forall i | 0 <= i < |free| :: Placed(lo, bump, free[i].addr, free[i].size)
  }

  predicate ListApart(a: nat, n: nat, free: seq<Block>) {
    forall i | 0 <= i < |free| :: Apart(a, n, free[i].addr, free[i].size)
  }

  lemma MergedFits(lo: nat, bump: nat, left: seq<Block>, b: Block, right: seq<Block>)
    requires ListFits(lo, bump, left) && ListFits(lo, bump, right) && Placed(lo, bump, b.addr, b.size)
    ensures ListFits(lo, bump, Merged(left, b, right))
  {
  }

  lemma MergedApart(a: nat, n: nat, left: seq<Block>, b: Block, right: seq<Block>)
    requires n > 0 && ListApart(a, n, left) && ListApart(a, n, right) && Apart(a, n, b.addr, b.size)
    ensures ListApart(a, n, Merged(left, b, right))
  {
  }

  /** The live block at a becomes free, between the first k free blocks and the rest. */
  function GiveBack(h: Heap, a: nat, k: nat): Heap
    requires a in h.live && k <= |h.free|
  {
    h.(free := Merged(h.free[..k], Block(a, h.live[a].size), h.free[k..]), live := h.live - {a})
  }

  predicate SplitsAt(free: seq<Block>, a: nat, k: nat) {
    && k <= |free|
    && (forall i | 0 <= i < k :: free[i].addr < a)
    && (forall i | k <= i < |free| :: a <= free[i].addr)
  }

  lemma GapBetween(h: Heap, a: nat, k: nat)
    requires Almost(h) && a in h.live && SplitsAt(h.free, a, k)
    ensures Between(h.free[..k], Block(a, h.live[a].size), h.free[k..])
  {
    forall i | 0 <= i < k ensures h.free[..k][i].End() <= a {
      assert Apart(a, h.live[a].size, h.free[i].addr, h.free[i].size);
    }
    forall i | 0 <= i < |h.free| - k ensures a + h.live[a].size <= h.free[k..][i].addr {
      assert Apart(a, h.live[a].size, h.free[k + i].addr, h.free[k + i].size);
    }
  }

  lemma GiveBackOk(h: Heap, a: nat, k: nat)
    requires Ok(h) && a in h.live && SplitsAt(h.free, a, k)
    ensures Almost(GiveBack(h, a, k))
  {
    var b, h' := Block(a, h.live[a].size), GiveBack(h, a, k);
    GapBetween(h, a, k);
    MergedSeparated(h.free[..k], b, h.free[k..]);
    MergedFits(h.lo, h.bump, h.free[..k], b, h.free[k..]);
    forall c | c in h'.live ensures ListApart(c, h'.live[c].size, h'.free) {
      assert Apart(c, h.live[c].size, a, h.live[a].size);
      MergedApart(c, h.live[c].size, h.free[..k], b, h.free[k..]);
    }
  }

  /** A last free block that touches the bump pointer is swallowed by it. */
  function Shrunk(h: Heap): Heap {
    var n := |h.free| - 1;
    if h.free != [] && h.free[n].End() == h.bump then h.(bump := h.free[n].addr, free := h.free[..n]) else h
  }

  lemma ShrunkOk(h: Heap)
    requires Almost(h)
    ensures Ok(Shrunk(h))
  {
    var n := |h.free| - 1;
    if h.free != [] && h.free[n].End() == h.bump {
      forall a | a in h.live ensures a + h.live[a].size <= h.free[n].addr {
        assert Apart(a, h.live[a].size, h.free[n].addr, h.free[n].size);
      }
    }
  }

  lemma ShrunkBytes(h: Heap, x: nat)
    requires Almost(h)
    ensures Avail(Shrunk(h), x) <==> Avail(h, x)
  {
    var n := |h.free| - 1;
    if h.free != [] {
      assert h.free == h.free[..n] + [h.free[n]];
      InFreeJoin(h.free[..n], [h.free[n]], x);
      InFreeOne(h.free[n], x);
    }
  }

  /** Only the last free block can touch the bump pointer, and afterwards none does. */
  lemma OnlyLastTouches(h: Heap, i: nat)
    requires Almost(h) && i < |h.free| && h.free[i].End() == h.bump
    ensures i == |h.free| - 1 && Shrunk(Shrunk(h)) == Shrunk(h)
  {
    ShrunkOk(h);
    assert i < |h.free| - 1 ==> h.free[i].End() < h.free[|h.free| - 1].addr;
  }

  function Dealloc(h: Heap, a: nat, k: nat): Heap
    requires a in h.live && k <= |h.free|
  {
    Shrunk(GiveBack(h, a, k))
  }

  /** Deallocation keeps the invariant and makes exactly the block's bytes available again. */
  lemma DeallocOk(h: Heap, a: nat, k: nat)
    requires Ok(h) && a in h.live && SplitsAt(h.free, a, k)
    ensures Ok(Dealloc(h, a, k)) && Dealloc(h, a, k).live == h.live - {a}
  {
    GiveBackOk(h, a, k);
    ShrunkOk(GiveBack(h, a, k));
  }

  lemma DeallocBytes(h: Heap, a: nat, k: nat, x: nat)
    requires Ok(h) && a in h.live && SplitsAt(h.free, a, k)
    ensures Avail(Dealloc(h, a, k), x) <==> Avail(h, x) || Block(a, h.live[a].size).Holds(x)
  {
    GiveBackOk(h, a, k);
    ShrunkBytes(GiveBack(h, a, k), x);
    MergedBytes(h.free[..k], Block(a, h.live[a].size), h.free[k..], x);
    assert h.free == h.free[..k] + h.free[k..];
    InFreeJoin(h.free[..k], h.free[k..], x);
  }

  // ---------------------------------------------------------------
  // Round trips and growth
  // ---------------------------------------------------------------

  /** A block taken from the free list and given back restores the heap. */
  lemma FreeRoundTrip(h: Heap, k: nat, size: nat)
    requires Ok(h) && k < |h.free| && h.free[k].size >= HEADER + size
    ensures SplitsAt(Remove(h.free, k), h.free[k].addr, k)
    ensures Dealloc(TakeFree(h, k, h.free[k].addr, size), h.free[k].addr, k) == h
  {
    TakeFreeOk(h, k, size);
    RemovedSplits(h.free, k);
    BlockReturned(h, k, size);
  }

  lemma RemovedSplits(free: seq<Block>, k: nat)
    requires Separated(free) && k < |free|
    ensures SplitsAt(Remove(free, k), free[k].addr, k)
  {
    forall i | 0 <= i < |free| - 1 ensures if i < k then Remove(free, k)[i].addr < free[k].addr
                                           else free[k].addr <= Remove(free, k)[i].addr
    {
      RemoveAt(free, k, i);
    }
  }

  /** A block between gaps goes back to its place in the list. */
  lemma BlockReturned(h: Heap, k: nat, size: nat)
    requires k < |h.free| && h.free[k].addr !in h.live && h.free[|h.free| - 1].End() != h.bump
    requires k > 0 ==> h.free[k - 1].End() < h.free[k].addr
    requires k + 1 < |h.free| ==> h.free[k].End() < h.free[k + 1].addr
    ensures Dealloc(TakeFree(h, k, h.free[k].addr, size), h.free[k].addr, k) == h
  {
    var b := h.free[k];
    var h1 := TakeFree(h, k, b.addr, size);
    assert h1.live - {b.addr} == h.live;
    assert Block(b.addr, h1.live[b.addr].size) == b;
    ListRestored(h.free, k);
    assert GiveBack(h1, b.addr, k) == h;
  }

  lemma ListRestored(free: seq<Block>, k: nat)
    requires k < |free| && (k > 0 ==> free[k - 1].End() < free[k].addr)
    requires k + 1 < |free| ==> free[k].End() < free[k + 1].addr
    ensures Merged(Remove(free, k)[..k], free[k], Remove(free, k)[k..]) == free
  {
    RemovedParts(free, k);
    NotMerged(free[..k], free[k], free[k + 1..]);
  }

  /** Between gaps nothing is merged. */
  lemma NotMerged(left: seq<Block>, b: Block, right: seq<Block>)
    requires left != [] ==> left[|left| - 1].End() < b.addr
    requires right != [] ==> b.End() < right[0].addr
    ensures Merged(left, b, right) == left + [b] + right
  {
  }

  lemma RemovedParts(free: seq<Block>, k: nat)
    requires k < |free|
    ensures Remove(free, k)[..k] == free[..k] && Remove(free, k)[k..] == free[k + 1..]
    ensures free == free[..k] + [free[k]] + free[k + 1..]
  {
  }

  /** A block cut off at the bump pointer and given back leaves only the alignment gap behind. */
  lemma BumpRoundTrip(h: Heap, a: nat, size: nat)
    requires Ok(h) && h.bump <= a && a % 8 == 0 && a + HEADER + size <= h.hi
    ensures SplitsAt(h.free, a, |h.free|)
    ensures Dealloc(TakeBump(h, a, size), a, |h.free|) == h.(bump := a)
  {
    TakeBumpOk(h, a, size);
    LastGivenBack(h, a, size);
  }

  /** A block behind a gap after the last free block is given back to the bump pointer alone. */
  lemma LastGivenBack(h: Heap, a: nat, size: nat)
    requires a !in h.live && (h.free != [] ==> h.free[|h.free| - 1].End() < a)
    ensures Dealloc(TakeBump(h, a, size), a, |h.free|) == h.(bump := a)
  {
    var h1, n := TakeBump(h, a, size), |h.free|;
    assert h1.free[..n] == h.free && h1.free[n..] == [];
    assert Merged(h.free, Block(a, HEADER + size), []) == h.free + [Block(a, HEADER + size)];
    assert (h.free + [Block(a, HEADER + size)])[..n] == h.free;
    assert h1.live - {a} == h.live;
  }

  /** The live block at a, the last one before the bump pointer, grows in place. */
  function Grow(h: Heap, a: nat, size: nat): Heap
    requires a in h.live
  {
    h.(bump := a + HEADER + size, live := h.live[a := Live(HEADER + size, size)])
  }

  lemma GrowOk(h: Heap, a: nat, size: nat)
    requires Ok(h) && a in h.live && a + HEADER + h.live[a].want == h.bump
    requires h.live[a].want <= size && a + HEADER + size <= h.hi
    ensures Ok(Grow(h, a, size)) && h.live[a].size == HEADER + h.live[a].want
  {
    forall b | b in h.live && b != a ensures b + h.live[b].size <= a {
      assert Apart(a, h.live[a].size, b, h.live[b].size);
    }
  }

  // ---------------------------------------------------------------
  // Alignments
  // ---------------------------------------------------------------

  function EffectiveAlign(align: nat): nat {
    if align < 8 then 8 else align
  }

  /** An alignment as layouts carry it: up to 8, or a larger multiple of 8. */
  predicate IsAlign(align: nat) {
    align <= 8 || align % 8 == 0
  }

  lemma AlignUpIs(x: nat, m: nat)
    requires m > 0
    ensures x <= AlignUp(x, m) < x + m && AlignUp(x, m) % m == 0
    ensures m % 8 == 0 ==> AlignUp(x, m) % 8 == 0
  {
    var q := if x % m == 0 then x / m else x / m + 1;
    assert x == x / m * m + x % m;
    assert AlignUp(x, m) == q * m;
    MultipleMod(q, m);
    if m % 8 == 0 { MultipleOf8(q, m); }
  }

  lemma MultipleMod(q: nat, m: nat)
    requires m > 0
    ensures q * m % m == 0
  {
    var d, r := q * m / m, q * m % m;
    assert q * m == d * m + r;
    assert (q - d) * m == r;
    MultipleGrows(q - d, m);
  }

  lemma MultipleGrows(k: int, m: int)
    requires m > 0
    ensures k >= 1 ==> k * m >= m
    ensures k <= -1 ==> k * m <= -m
  {
    if k >= 1 { assert k * m == m + (k - 1) * m; }
    if k <= -1 { assert k * m == -m + (k + 1) * m; }
  }

  lemma MultipleOf8(q: nat, m: nat)
    requires m % 8 == 0
    ensures q * m % 8 == 0
  {
    var d := m / 8;
    assert q * m == 8 * (q * d);
  }

  /** The payload address a free block at addr would give. */
  function Payload(addr: nat, align: nat): (r: nat)
    ensures r >= addr + HEADER
  {
    AlignUp(addr + HEADER, EffectiveAlign(align))
  }

  /** A payload follows its header after less than the alignment, at a multiple of 8. */
  lemma PayloadNear(addr: nat, align: nat)
    requires IsAlign(align)
    ensures addr + HEADER <= Payload(addr, align) < addr + HEADER + EffectiveAlign(align)
    ensures Payload(addr, align) % 8 == 0
    ensures align <= 8 && addr % 8 == 0 ==> Payload(addr, align) == addr + HEADER
  {
    var m := EffectiveAlign(align);
    AlignUpIs(addr + HEADER, m);
  }

  function Padding(b: Block, align: nat): nat {
    Payload(b.addr, align) - (b.addr + HEADER)
  }

  lemma PaddingOf8(b: Block, align: nat)
    requires IsAlign(align) && b.addr % 8 == 0
    ensures Padding(b, align) % 8 == 0 && (align <= 8 ==> Padding(b, align) == 0)
  {
    PayloadNear(b.addr, align);
    Multiple8(b.addr);
    Difference8(Payload(b.addr, align), b.addr + HEADER);
  }

  lemma Multiple8(x: int)
    requires x % 8 == 0
    ensures (x + HEADER) % 8 == 0
  {
  }

  lemma Difference8(x: int, y: int)
    requires x % 8 == 0 && y % 8 == 0
    ensures (x - y) % 8 == 0
  {
  }

  /** The free block is large enough, padding included. */
  predicate Fits(b: Block, size: nat, align: nat) {
    b.size >= HEADER + size + Padding(b, align)
  }

  /** Taking a free block with its header moved up by the padding and its size unchanged, as the code does. */
  function TakePadded(h: Heap, k: nat, size: nat, align: nat): Heap
    requires k < |h.free|
  {
    TakeFree(h, k, Payload(h.free[k].addr, align) - HEADER, size)
  }

  /** The n bytes behind the k-th free block lie below the bump pointer and in no other block. */
  predicate Slack(h: Heap, k: nat, n: nat)
    requires k < |h.free|
  {
    var end := h.free[k].End();
    n == 0 ||
    (&& end + n <= h.bump && (forall a | a in h.live :: Apart(a, h.live[a].size, end, n))
     && (forall i | 0 <= i < |h.free| && i != k :: Apart(h.free[i].addr, h.free[i].size, end, n)))
  }

  /** What lies apart from a block and from the bytes behind it lies apart from the block moved up. */
  lemma MovedApart(a: nat, n: nat, b: Block, pad: nat)
    requires n > 0 && pad <= b.size && b.size > 0 && Apart(a, n, b.addr, b.size)
    ensures Apart(a, n, b.addr + pad, b.size) <==> pad == 0 || Apart(a, n, b.End(), pad)
  {
  }

  lemma PaddedLive(h: Heap, k: nat, pad: nat)
    requires Ok(h) && k < |h.free| && pad < h.free[k].size
    ensures h.free[k].addr + pad !in h.live
  {
    var b := h.free[k];
    assert forall a | a in h.live :: Apart(a, h.live[a].size, b.addr, b.size);
  }

  /** With the header moved up, the invariant survives exactly when the bytes behind the block are unused. */
  lemma TakePaddedOkIff(h: Heap, k: nat, size: nat, align: nat)
    requires Ok(h) && IsAlign(align) && k < |h.free| && Fits(h.free[k], size, align)
    ensures Ok(TakePadded(h, k, size, align)) <==> Slack(h, k, Padding(h.free[k], align))
  {
    var b := h.free[k];
    PaddingOf8(b, align);
    var pad: nat := Padding(b, align);
    assert TakePadded(h, k, size, align) == TakeFree(h, k, b.addr + pad, size);
    MovedOkIff(h, k, size, pad);
  }

  lemma MovedOkIff(h: Heap, k: nat, size: nat, pad: nat)
    requires Ok(h) && k < |h.free| && h.free[k].size >= HEADER + size + pad && pad % 8 == 0
    ensures Ok(TakeFree(h, k, h.free[k].addr + pad, size)) <==> Slack(h, k, pad)
  {
    PaddedLive(h, k, pad);
    MovedParts(h, k, size, h.free[k].addr + pad);
    MovedSlack(h, k, pad);
  }

  /** The moved block is in the heap and apart from all others exactly when the bytes behind it are unused. */
  lemma MovedSlack(h: Heap, k: nat, pad: nat)
    requires Ok(h) && k < |h.free| && h.free[k].size > pad
    ensures Slack(h, k, pad) <==>
            && h.free[k].addr + pad + h.free[k].size <= h.bump
            && ApartFromLive(h, h.free[k].addr + pad, h.free[k].size)
            && ApartFromFree(Remove(h.free, k), h.free[k].addr + pad, h.free[k].size)
  {
    var b := h.free[k];
    var a := b.addr + pad;
    forall c | c in h.live
      ensures Apart(c, h.live[c].size, a, b.size) <==> pad == 0 || Apart(c, h.live[c].size, b.End(), pad)
    {
      MovedApart(c, h.live[c].size, b, pad);
    }
    forall i | 0 <= i < |h.free| && i != k
      ensures Apart(h.free[i].addr, h.free[i].size, a, b.size)
              <==> pad == 0 || Apart(h.free[i].addr, h.free[i].size, b.End(), pad)
    {
      MovedApart(h.free[i].addr, h.free[i].size, b, pad);
    }
    MovedAll(h, k, a, b.size);
  }

  /** Which parts of the invariant the moved block decides. */
  lemma MovedParts(h: Heap, k: nat, size: nat, a: nat)
    requires Ok(h) && k < |h.free| && a !in h.live && h.free[k].addr <= a && a % 8 == 0
    requires h.free[k].size >= HEADER + size
    ensures Ok(TakeFree(h, k, a, size)) <==>
            && a + h.free[k].size <= h.bump && ApartFromLive(h, a, h.free[k].size)
            && ApartFromFree(Remove(h.free, k), a, h.free[k].size)
  {
    var h' := TakeFree(h, k, a, size);
    RemoveOk(h, k);
    assert h'.live[a].size == h.free[k].size;
    assert forall c | c in h.live :: c in h'.live && h'.live[c] == h.live[c];
    assert forall c | c in h'.live && c != a :: c in h.live;
  }

  predicate ApartFromLive(h: Heap, a: nat, n: nat) {
    forall c | c in h.live :: Apart(c, h.live[c].size, a, n)
  }

  predicate ApartFromFree(free: seq<Block>, a: nat, n: nat) {
    forall i | 0 <= i < |free| :: Apart(a, n, free[i].addr, free[i].size)
  }

  lemma RemoveOk(h: Heap, k: nat)
    requires Ok(h) && k < |h.free|
    ensures Ok(h.(free := Remove(h.free, k)))
  {
    forall i | 0 <= i < |h.free| - 1 ensures Remove(h.free, k)[i] == h.free[if i < k then i else i + 1] {
      RemoveAt(h.free, k, i);
    }
  }

  lemma MovedAll(h: Heap, k: nat, a: nat, n: nat)
    requires k < |h.free|
    ensures ApartFromFree(Remove(h.free, k), a, n)
            <==> forall i | 0 <= i < |h.free| && i != k :: Apart(h.free[i].addr, h.free[i].size, a, n)
  {
    var r := Remove(h.free, k);
    forall i | 0 <= i < |h.free| - 1 ensures r[i] == h.free[if i < k then i else i + 1] { RemoveAt(h.free, k, i); }
    if ApartFromFree(r, a, n) {
      forall i | 0 <= i < |h.free| && i != k ensures Apart(h.free[i].addr, h.free[i].size, a, n) {
        assert r[if i < k then i else i - 1] == h.free[i];
      }
    }
  }
}

/** The large-object allocator as it runs: an intrusive, address-ordered free list and a bump pointer. */
module LargeHeap {
  import opened HeapModel

  /** The header at the start of every block; next is 0 at the end of the free list. */
  datatype Header = Header(size: nat, next: nat)

  type Headers = map<nat, Header>

  function AddrAt(free: seq<Block>, i: nat): nat {
    if i < |free| then free[i].addr else 0
  }

  /** The headers reachable from p spell the list of free blocks. */
  ghost predicate Linked(headers: Headers, p: nat, free: seq<Block>) {
    p == AddrAt(free, 0) &&
    forall i: nat {:trigger HeaderAt(headers, free, i)} {:trigger free[i]} | i < |free| :: HeaderAt(headers, free, i)
  }

  predicate HeaderAt(headers: Headers, free: seq<Block>, i: nat)
    requires i < |free|
  {
    free[i].addr in headers && headers[free[i].addr] == Header(free[i].size, AddrAt(free, i + 1))
  }

  ghost predicate Recorded(headers: Headers, live: map<nat, Live>) {
    forall a | a in live :: a in headers && headers[a].size == live[a].size
  }

  /** The first free block, from a place on, that is large enough for the request and its padding; else the end. */
  function FirstFit(free: seq<Block>, size: nat, align: nat, from: nat): (k: nat)
    requires from <= |free|
    ensures from <= k <= |free| && (k < |free| ==> Fits(free[k], size, align))
    ensures forall i | from <= i < k :: !Fits(free[i], size, align)
    decreases |free| - from
  {
    if from == |free| || Fits(free[from], size, align) then from else FirstFit(free, size, align, from + 1)
  }

  /** What an allocation does: the first fitting free block, else the bump pointer, else nothing. */
  function Allocation(h: Heap, size: nat, align: nat): (Heap, nat) {
    var k, p := FirstFit(h.free, size, align, 0), Payload(h.bump, align);
    if k < |h.free| then (TakePadded(h, k, size, align), Payload(h.free[k].addr, align))
    else if p + size <= h.hi then (TakeBump(h, p - HEADER, size), p)
    else (h, 0)
  }

  /** A free block that would be taken with padding has unused bytes behind it. */
  predicate PadsIntoSlack(h: Heap, size: nat, align: nat) {
    var k := FirstFit(h.free, size, align, 0);
    k == |h.free| || Slack(h, k, Padding(h.free[k], align))
  }

  /** Alignments up to 8 need no padding. */
  lemma SmallAlignSafe(h: Heap, size: nat, align: nat)
    requires Ok(h) && align <= 8
    ensures PadsIntoSlack(h, size, align)
  {
    var k := FirstFit(h.free, size, align, 0);
    if k < |h.free| { PaddingOf8(h.free[k], align); }
  }

  lemma LinkedRemove(headers: Headers, p: nat, free: seq<Block>, k: nat, headers': Headers, p': nat)
    requires Linked(headers, p, free) && Separated(free) && k < |free|
    requires k == 0 ==> p' == AddrAt(free, 1) && headers' == headers
    requires k > 0 ==> p' == p && headers' == headers[free[k - 1].addr := Header(free[k - 1].size, AddrAt(free, k + 1))]
    ensures Linked(headers', p', Remove(free, k))
  {
    var r := Remove(free, k);
    forall i: nat | i < |r| ensures HeaderAt(headers', r, i) {
      if k == 0 { RemoveFirst(headers, p, free, i); } else { RemoveLater(headers, p, free, k, i); }
      RemoveHeader(headers', free, k, i);
    }
    RemoveAddr(free, k, 0);
  }

  lemma RemoveHeader(headers: Headers, free: seq<Block>, k: nat, i: nat)
    requires k < |free| && i < |free| - 1
    requires var b := free[if i < k then i else i + 1];
             b.addr in headers && headers[b.addr] == Header(b.size, AddrAt(free, if i + 1 < k then i + 1 else i + 2))
    ensures HeaderAt(headers, Remove(free, k), i)
  {
    RemoveAt(free, k, i);
    RemoveAddr(free, k, i + 1);
  }

  lemma RemoveFirst(headers: Headers, p: nat, free: seq<Block>, i: nat)
    requires Linked(headers, p, free) && i + 1 < |free|
    ensures free[i + 1].addr in headers && headers[free[i + 1].addr] == Header(free[i + 1].size, AddrAt(free, i + 2))
  {
    assert HeaderAt(headers, free, i + 1);
  }

  lemma RemoveLater(headers: Headers, p: nat, free: seq<Block>, k: nat, i: nat)
    requires Linked(headers, p, free) && Separated(free) && 0 < k < |free| && i < |free| - 1
    ensures var hs := headers[free[k - 1].addr := Header(free[k - 1].size, AddrAt(free, k + 1))];
            var b := free[if i < k then i else i + 1];
            b.addr in hs && hs[b.addr] == Header(b.size, AddrAt(free, if i + 1 < k then i + 1 else i + 2))
  {
    assert HeaderAt(headers, free, if i < k then i else i + 1);
    if i < k - 1 { assert free[i].addr < free[k - 1].addr; }
    if i >= k { assert free[k - 1].addr < free[i + 1].addr; }
  }

  lemma RemoveAddr(free: seq<Block>, k: nat, i: nat)
    requires k < |free| && i < |free|
    ensures AddrAt(Remove(free, k), i) == AddrAt(free, if i < k then i else i + 1)
  {
    if i < |free| - 1 { RemoveAt(free, k, i); }
  }

  /** Writing a header elsewhere does not disturb the list. */
  lemma LinkedOther(headers: Headers, p: nat, free: seq<Block>, a: nat, x: Header)
    requires Linked(headers, p, free) && (forall i | 0 <= i < |free| :: free[i].addr != a)
    ensures Linked(headers[a := x], p, free)
  {
  }

  /** What a deallocation does: the block at a joins the free list at place k. */
  predicate GivenBack(h: Heap, h': Heap, a: nat, k: nat) {
    a in h.live && SplitsAt(h.free, a, k) && h' == Dealloc(h, a, k)
  }

  /** The block at a is no longer live, and exactly its bytes became available. */
  ghost predicate Returned(h: Heap, h': Heap, a: nat) {
    && a in h.live && h'.live == h.live - {a}
    && forall x: nat :: Avail(h', x) <==> Avail(h, x) || a <= x < a + h.live[a].size
  }

  lemma GivenBackReturns(h: Heap, h': Heap, a: nat, k: nat)
    requires Ok(h) && GivenBack(h, h', a, k)
    ensures Returned(h, h', a)
  {
    DeallocOk(h, a, k);
    forall x: nat ensures Avail(h', x) <==> Avail(h, x) || a <= x < a + h.live[a].size {
      DeallocBytes(h, a, k, x);
    }
  }

  /** The block of the payload reaches up to the bump pointer, newSize bytes long; nothing else changed. */
  ghost predicate Extended(h: Heap, h': Heap, payload: nat, newSize: nat) {
    && payload >= 16 && h'.bump == payload + newSize && h'.free == h.free && h'.lo == h.lo && h'.hi == h.hi
    && h'.live == h.live[payload - 16 := Live(16 + newSize, newSize)]
  }

  lemma GrowExtends(h: Heap, payload: nat, newSize: nat)
    requires payload >= 16 && payload - 16 in h.live
    ensures Extended(h, Grow(h, payload - 16, newSize), payload, newSize) == true
  {
  }

  // ---------------------------------------------------------------
  // The representation of a heap
  // ---------------------------------------------------------------

  ghost predicate Represents(headers: Headers, p: nat, h: Heap) {
    Linked(headers, p, h.free) && Recorded(headers, h.live)
  }

  /** Writing the header of a block that is not free. */
  lemma LiveHeader(headers: Headers, p: nat, h: Heap, a: nat, x: Header)
    requires Linked(headers, p, h.free)
    requires forall b | b in h.live && b != a :: b in headers && headers[b].size == h.live[b].size
    requires (forall i | 0 <= i < |h.free| :: h.free[i].addr != a) && a in h.live && x.size == h.live[a].size
    ensures Represents(headers[a := x], p, h)
  {
    LinkedOther(headers, p, h.free, a, x);
  }

  /** The list without its k-th block, and its head. */
  function UnlinkHeaders(headers: Headers, prev: nat, current: nat): Headers
    requires current in headers && (prev != 0 ==> prev in headers)
  {
    if prev == 0 then headers else headers[prev := Header(headers[prev].size, headers[current].next)]
  }

  function PrevAt(free: seq<Block>, k: nat): nat
    requires k <= |free|
  {
    if k == 0 then 0 else free[k - 1].addr
  }

  lemma UnlinkLinked(headers: Headers, p: nat, h: Heap, k: nat)
    requires Almost(h) && Represents(headers, p, h) && k < |h.free|
    ensures var cur, prev := h.free[k].addr, PrevAt(h.free, k);
            && (prev == 0 <==> k == 0)
            && (prev != 0 ==> prev in headers)
            && Linked(UnlinkHeaders(headers, prev, cur), if prev == 0 then headers[cur].next else p, Remove(h.free, k))
            && Recorded(UnlinkHeaders(headers, prev, cur), h.live)
  {
    var cur, prev := h.free[k].addr, PrevAt(h.free, k);
    var hs := UnlinkHeaders(headers, prev, cur);
    LinkedRemove(headers, p, h.free, k, hs, if prev == 0 then headers[cur].next else p);
    forall a | a in h.live ensures a in hs && hs[a].size == h.live[a].size {
      if k > 0 { assert Apart(a, h.live[a].size, h.free[k - 1].addr, h.free[k - 1].size); }
    }
  }

  lemma TakenNotListed(h: Heap, k: nat, pad: nat)
    requires Ok(h) && k < |h.free| && pad < h.free[k].size
    ensures forall i | 0 <= i < |h.free| - 1 :: Remove(h.free, k)[i].addr != h.free[k].addr + pad
  {
    forall i | 0 <= i < |h.free| - 1 ensures Remove(h.free, k)[i].addr != h.free[k].addr + pad {
      RemoveAt(h.free, k, i);
      var j := if i < k then i else i + 1;
      if j < k { assert h.free[j].End() < h.free[k].addr; } else { assert h.free[k].End() < h.free[j].addr; }
    }
  }

  /** What taking a fitting block rests on. */
  lemma TakenReady(h: Heap, k: nat, size: nat, align: nat, payload: nat)
    requires Ok(h) && IsAlign(align) && k == FirstFit(h.free, size, align, 0) < |h.free|
    requires payload == Payload(h.free[k].addr, align)
    ensures payload >= HEADER && payload - HEADER !in h.live
    ensures forall i | 0 <= i < |h.free| - 1 :: Remove(h.free, k)[i].addr != payload - HEADER
    ensures Allocation(h, size, align) == (TakeFree(h, k, payload - HEADER, size), payload)
  {
    var b := h.free[k];
    PaddedLive(h, k, Padding(b, align));
    TakenNotListed(h, k, Padding(b, align));
  }

  lemma CutReady(h: Heap, size: nat, align: nat)
    requires FirstFit(h.free, size, align, 0) == |h.free|
    ensures var p := Payload(h.bump, align);
            Allocation(h, size, align) == if p + size <= h.hi then (TakeBump(h, p - HEADER, size), p) else (h, 0)
  {
  }

  /** An allocation leaves a sound heap exactly when it needs no padding or pads into unused bytes. */
  lemma AllocationOkIff(h: Heap, size: nat, align: nat)
    requires Ok(h) && IsAlign(align)
    ensures Ok(Allocation(h, size, align).0) <==> PadsIntoSlack(h, size, align)
  {
    var k := FirstFit(h.free, size, align, 0);
    if k < |h.free| { TakePaddedOkIff(h, k, size, align); } else { CutOk(h, size, align); }
  }

  lemma CutOk(h: Heap, size: nat, align: nat)
    requires Ok(h) && IsAlign(align)
    ensures Payload(h.bump, align) + size <= h.hi ==> Ok(TakeBump(h, Payload(h.bump, align) - HEADER, size))
  {
    PayloadNear(h.bump, align);
    var p := Payload(h.bump, align);
    if p + size <= h.hi { TakeBumpOk(h, p - HEADER, size); }
  }

  /** What is handed out is a multiple of 8 and aligned as asked. */
  lemma AllocationAligned(h: Heap, size: nat, align: nat)
    requires IsAlign(align)
    ensures Allocation(h, size, align).1 % 8 == 0
    ensures align in {1, 2, 4, 8} || align > 8 ==> Allocation(h, size, align).1 % align == 0
  {
    var k := FirstFit(h.free, size, align, 0);
    if k < |h.free| { PayloadAligned(h.free[k].addr, align); } else { PayloadAligned(h.bump, align); }
  }

  lemma PayloadAligned(addr: nat, align: nat)
    requires IsAlign(align)
    ensures Payload(addr, align) % 8 == 0
    ensures align in {1, 2, 4, 8} || align > 8 ==> Payload(addr, align) % align == 0 && 0 % align == 0
  {
    AlignUpIs(addr + HEADER, EffectiveAlign(align));
    if align > 0 { ZeroMultiple(align); }
    if align < 8 { EightDivided(Payload(addr, align)); }
  }

  lemma ZeroMultiple(m: nat)
    requires m > 0
    ensures 0 % m == 0
  {
  }

  lemma EightDivided(x: nat)
    requires x % 8 == 0
    ensures x % 1 == 0 && x % 2 == 0 && x % 4 == 0
  {
    var q := x / 8;
    assert x == 8 * q;
    MultipleMod(4 * q, 2);
    MultipleMod(2 * q, 4);
  }

  /** An aligned payload p behind a 16-byte header, from start on and up to end. */
  predicate PlaceFor(p: nat, start: nat, end: nat, size: nat, align: nat)
    requires align > 0
  {
    p % align == 0 && p % 8 == 0 && start + 16 <= p && p + size <= end
  }

  ghost predicate Room(start: nat, end: nat, size: nat, align: nat)
    requires align > 0
  {
    exists p: nat :: PlaceFor(p, start, end, size, align)
  }

  /** Some free block or the bytes from the bump pointer on have room for the request. */
  ghost predicate Satisfiable(h: Heap, size: nat, align: nat)
    requires align > 0
  {
    || Room(h.bump, h.hi, size, align)
    || exists i | 0 <= i < |h.free| :: Room(h.free[i].addr, h.free[i].End(), size, align)
  }

  lemma MultiplesApart(a: nat, b: nat, m: nat)
    requires m > 0 && a % m == 0 && b % m == 0 && a < b
    ensures a + m <= b
  {
    var i, j := a / m, b / m;
    assert a == i * m && b == j * m;
    assert b - a == (j - i) * m;
    MultipleGrows(j - i, m);
  }

  /** The payload the code computes is the first possible one, so it fits whenever one fits. */
  lemma PayloadFirst(addr: nat, end: nat, size: nat, align: nat)
    requires align in {1, 2, 4, 8} || (align > 8 && align % 8 == 0)
    ensures Room(addr, end, size, align) <==> Payload(addr, align) + size <= end
  {
    var m, p := EffectiveAlign(align), Payload(addr, align);
    AlignUpIs(addr + HEADER, m);
    PayloadAligned(addr, align);
    if p + size <= end { assert PlaceFor(p, addr, end, size, align); }
    if Room(addr, end, size, align) {
      var q: nat :| PlaceFor(q, addr, end, size, align);
      if q < p { MultiplesApart(q, p, m); }
    }
  }

  /** Nothing is handed out exactly when no free block and no byte range behind the bump pointer has room. */
  lemma AllocationFailsIff(h: Heap, size: nat, align: nat)
    requires align in {1, 2, 4, 8} || (align > 8 && align % 8 == 0)
    ensures Allocation(h, size, align).1 == 0 <==> !Satisfiable(h, size, align)
  {
    PayloadFirst(h.bump, h.hi, size, align);
    forall i | 0 <= i < |h.free|
      ensures Fits(h.free[i], size, align) <==> Room(h.free[i].addr, h.free[i].End(), size, align)
    {
      PayloadFirst(h.free[i].addr, h.free[i].End(), size, align);
    }
  }

  /** The block handed out: available before from its header to the end of its payload, and live after, alone. */
  ghost predicate HandedOut(h: Heap, h': Heap, r: nat, size: nat) {
    && r >= 16 && (forall x: nat | r - 16 <= x < r + size :: Avail(h, x))
    && r - 16 !in h.live && h'.live.Keys == h.live.Keys + {r - 16} && h'.live[r - 16].want == size
    && (forall a | a in h.live :: h'.live[a] == h.live[a])
  }

  lemma TakeHandsOut(h: Heap, k: nat, a: nat, size: nat)
    requires k < |h.free| && h.free[k].addr <= a && a + 16 + size <= h.free[k].End() && a !in h.live
    ensures HandedOut(h, TakeFree(h, k, a, size), a + 16, size)
  {
    forall x: nat | a <= x < a + 16 + size ensures Avail(h, x) {
      assert h.free[k].Holds(x);
    }
  }

  lemma CutHandsOut(h: Heap, a: nat, size: nat)
    requires h.bump <= a && a + 16 + size <= h.hi && a !in h.live
    ensures HandedOut(h, TakeBump(h, a, size), a + 16, size)
  {
  }

  lemma FitHandsOut(h: Heap, size: nat, align: nat, k: nat)
    requires Ok(h) && k < |h.free| && Fits(h.free[k], size, align)
    ensures HandedOut(h, TakePadded(h, k, size, align), Payload(h.free[k].addr, align), size)
  {
    PaddedLive(h, k, Padding(h.free[k], align));
    TakeHandsOut(h, k, Payload(h.free[k].addr, align) - 16, size);
  }

  lemma BumpHandsOut(h: Heap, size: nat, p: nat)
    requires Ok(h) && h.bump + 16 <= p && p + size <= h.hi
    ensures HandedOut(h, TakeBump(h, p - HEADER, size), p, size)
  {
    assert forall a | a in h.live :: a < h.bump;
    CutHandsOut(h, p - 16, size);
  }

  lemma AllocationHandsOut(h: Heap, size: nat, align: nat)
    requires Ok(h)
    ensures var (h', r) := Allocation(h, size, align); if r == 0 then h' == h else HandedOut(h, h', r, size) == true
  {
    var k, p := FirstFit(h.free, size, align, 0), Payload(h.bump, align);
    if k < |h.free| { FitHandsOut(h, size, align, k); } else if p + size <= h.hi { BumpHandsOut(h, size, p); }
  }

  // ---------------------------------------------------------------
  // Inserting and merging, on headers
  // ---------------------------------------------------------------

  predicate Ascending(free: seq<Block>) {
    forall i, j | 0 <= i < j < |free| :: free[i].addr < free[j].addr
  }

  predicate NotListed(free: seq<Block>, a: nat) {
    forall i | 0 <= i < |free| :: free[i].addr != a
  }

  function Insert(free: seq<Block>, k: nat, b: Block): seq<Block>
    requires k <= |free|
  {
    free[..k] + [b] + free[k..]
  }

  /** Blocks j and j + 1 become one. */
  function Join(free: seq<Block>, j: nat): seq<Block>
    requires j + 1 < |free|
  {
    free[..j] + [Block(free[j].addr, free[j].size + free[j + 1].size)] + free[j + 2..]
  }

  function InsertHeaders(headers: Headers, prev: nat, a: nat, size: nat, next: nat): Headers
    requires prev != 0 ==> prev in headers
  {
    var hs := headers[a := Header(size, next)];
    if prev == 0 then hs else hs[prev := Header(headers[prev].size, a)]
  }

  lemma InsertLinked(headers: Headers, p: nat, free: seq<Block>, k: nat, b: Block)
    requires Linked(headers, p, free) && Ascending(free) && NotListed(free, b.addr) && k <= |free| && AllPositive(free)
    ensures PrevAt(free, k) != 0 ==> PrevAt(free, k) in headers
    ensures Linked(InsertHeaders(headers, PrevAt(free, k), b.addr, b.size, AddrAt(free, k)),
                   if k == 0 then b.addr else p, Insert(free, k, b))
  {
    var hs := InsertHeaders(headers, PrevAt(free, k), b.addr, b.size, AddrAt(free, k));
    var r := Insert(free, k, b);
    forall i: nat | i < |r| ensures HeaderAt(hs, r, i) {
      InsertLinkedAt(headers, p, free, k, b, i);
    }
    InsertAddr(free, k, b, 0);
  }

  lemma InsertLinkedAt(headers: Headers, p: nat, free: seq<Block>, k: nat, b: Block, i: nat)
    requires Linked(headers, p, free) && Ascending(free) && NotListed(free, b.addr) && k <= |free| && AllPositive(free)
    requires i <= |free| && (PrevAt(free, k) != 0 ==> PrevAt(free, k) in headers)
    ensures HeaderAt(InsertHeaders(headers, PrevAt(free, k), b.addr, b.size, AddrAt(free, k)), Insert(free, k, b), i)
  {
    InsertAt(free, k, b, i);
    InsertAddr(free, k, b, i + 1);
    if i < k {
      InsertBefore(headers, p, free, k, b, i);
    } else if i > k {
      InsertAfter(headers, p, free, k, b, i - 1);
    } else {
      assert k > 0 ==> free[k - 1].addr != b.addr;
    }
  }

  lemma InsertBefore(headers: Headers, p: nat, free: seq<Block>, k: nat, b: Block, i: nat)
    requires Linked(headers, p, free) && Ascending(free) && NotListed(free, b.addr) && i < k <= |free|
    requires AllPositive(free)
    ensures PrevAt(free, k) != 0 && PrevAt(free, k) in headers
    ensures var hs := InsertHeaders(headers, PrevAt(free, k), b.addr, b.size, AddrAt(free, k));
            free[i].addr in hs
            && hs[free[i].addr] == Header(free[i].size, if i == k - 1 then b.addr else free[i + 1].addr)
  {
    assert HeaderAt(headers, free, k - 1) && HeaderAt(headers, free, i);
  }

  lemma InsertAfter(headers: Headers, p: nat, free: seq<Block>, k: nat, b: Block, i: nat)
    requires Linked(headers, p, free) && Ascending(free) && NotListed(free, b.addr) && k <= i < |free|
    requires PrevAt(free, k) != 0 ==> PrevAt(free, k) in headers
    ensures var hs := InsertHeaders(headers, PrevAt(free, k), b.addr, b.size, AddrAt(free, k));
            free[i].addr in hs && hs[free[i].addr] == Header(free[i].size, AddrAt(free, i + 1))
  {
    assert HeaderAt(headers, free, i);
  }

  lemma InsertAddr(free: seq<Block>, k: nat, b: Block, i: nat)
    requires k <= |free| && i <= |free| + 1
    ensures AddrAt(Insert(free, k, b), i) ==
            if i < k then free[i].addr else if i == k then b.addr else AddrAt(free, i - 1)
  {
    if i <= |free| { InsertAt(free, k, b, i); }
  }

  lemma InsertAt(free: seq<Block>, k: nat, b: Block, i: int)
    requires k <= |free| && 0 <= i <= |free|
    ensures Insert(free, k, b)[i] == if i < k then free[i] else if i == k then b else free[i - 1]
  {
  }

  predicate AllPositive(free: seq<Block>) {
    forall i | 0 <= i < |free| :: free[i].addr > 0
  }

  lemma JoinLinked(headers: Headers, p: nat, free: seq<Block>, j: nat)
    requires Linked(headers, p, free) && Ascending(free) && j + 1 < |free|
    ensures Linked(headers[free[j].addr := Header(free[j].size + free[j + 1].size, AddrAt(free, j + 2))], p,
                   Join(free, j))
  {
    var hs := headers[free[j].addr := Header(free[j].size + free[j + 1].size, AddrAt(free, j + 2))];
    var r := Join(free, j);
    forall i: nat | i < |r| ensures HeaderAt(hs, r, i) {
      JoinAt(free, j, i);
      JoinAddr(free, j, i + 1);
      assert HeaderAt(headers, free, if i <= j then i else i + 1);
    }
    JoinAddr(free, j, 0);
  }

  lemma JoinAddr(free: seq<Block>, j: nat, i: nat)
    requires j + 1 < |free| && i < |free|
    ensures AddrAt(Join(free, j), i) == AddrAt(free, if i <= j then i else i + 1)
  {
    if i < |free| - 1 { JoinAt(free, j, i); }
  }

  lemma JoinAt(free: seq<Block>, j: nat, i: int)
    requires j + 1 < |free| && 0 <= i < |free| - 1
    ensures Join(free, j)[i] == if i < j then free[i]
                                else if i == j then Block(free[j].addr, free[j].size + free[j + 1].size)
                                else free[i + 1]
  {
  }

  lemma JoinAscending(free: seq<Block>, j: nat)
    requires Ascending(free) && j + 1 < |free|
    ensures Ascending(Join(free, j))
  {
    forall i, i' | 0 <= i < i' < |free| - 1 ensures Join(free, j)[i].addr < Join(free, j)[i'].addr {
      JoinAt(free, j, i);
      JoinAt(free, j, i');
    }
  }

  /** The list after the merge with the next block. */
  function JoinedNext(free: seq<Block>, k: nat): seq<Block>
    requires k < |free|
  {
    if k + 1 < |free| && free[k].End() == free[k + 1].addr then Join(free, k) else free
  }

  /** The list after the merge with the previous block. */
  function JoinedPrev(free: seq<Block>, k: nat): seq<Block>
    requires k < |free|
  {
    if k > 0 && free[k - 1].End() == free[k].addr then Join(free, k - 1) else free
  }

  /** Inserting and then merging with both neighbours is what deallocation promises. */
  lemma JoinsAreMerged(free: seq<Block>, k: nat, b: Block)
    requires k <= |free|
    ensures k < |JoinedNext(Insert(free, k, b), k)|
    ensures JoinedPrev(JoinedNext(Insert(free, k, b), k), k) == Merged(free[..k], b, free[k..])
  {
    var left, right := free[..k], free[k..];
    var (c, rest) := JoinRight(b, right);
    var l1 := JoinedNext(Insert(free, k, b), k);
    InsertAt(free, k, b, k);
    if k < |free| { InsertAt(free, k, b, k + 1); }
    assert l1 == left + [c] + rest;
    assert l1[k] == c;
    if k > 0 { assert l1[k - 1] == left[k - 1] && left[..k - 1] == l1[..k - 1] && l1[k + 1..] == rest; }
  }

  class LargeAllocator {
    const regionStart: nat
    const regionEnd: nat
    var freeList: nat
    var nextUninit: nat
    var headers: Headers
    ghost var heap: Heap

    ghost predicate Valid()
      reads this
    {
      && Ok(heap) && heap.lo == regionStart && heap.hi == regionEnd && heap.bump == nextUninit
      && Represents(headers, freeList, heap)
    }

    constructor (start: nat, size: nat)
      requires start > 0
      ensures Valid() && heap == Heap(start, start + size, start, [], map[])
    {
      regionStart, regionEnd, freeList, nextUninit := start, start + size, 0, start;
      headers := map[];
      heap := Heap(start, start + size, start, [], map[]);
    }

    /** All of Valid but the invariant of the heap. */
    ghost predicate Tracked()
      reads this
    {
      heap.lo == regionStart && heap.hi == regionEnd && heap.bump == nextUninit && Represents(headers, freeList, heap)
    }

    /**
     Takes the first free block that fits, or cuts one off at the bump pointer; 0 means out of memory. A free
     block taken with padding keeps its size, so the heap stays sound exactly when the bytes behind it are unused.
     */
    method Alloc(size: nat, align: nat) returns (r: nat)
      requires Valid() && IsAlign(align)
      modifies this
      ensures Tracked() && (heap, r) == Allocation(old(heap), size, align)
      ensures Valid() <==> PadsIntoSlack(old(heap), size, align)
      ensures r % 8 == 0 && (align in {1, 2, 4, 8} || align > 8 ==> r % align == 0)
      ensures align in {1, 2, 4, 8} || align > 8 ==> (r == 0 <==> !Satisfiable(old(heap), size, align))
      ensures if r == 0 then heap == old(heap) else HandedOut(old(heap), heap, r, size)
    {
      AllocationOkIff(heap, size, align);
      AllocationAligned(heap, size, align);
      AllocationHandsOut(heap, size, align);
      if align in {1, 2, 4, 8} || align > 8 { AllocationFailsIff(heap, size, align); }
      r := TakeOrCut(size, align);
    }

    method TakeOrCut(size: nat, align: nat) returns (r: nat)
      requires Valid() && IsAlign(align)
      modifies this
      ensures Tracked() && (heap, r) == Allocation(old(heap), size, align)
    {
      ghost var k;
      var prev, current;
      prev, current, r, k := FindFit(size, align);
      if current != 0 {
        TakenReady(heap, k, size, align, r);
        TakeBlock(prev, current, size, r - HEADER, k);
      } else {
        CutReady(heap, size, align);
        r := CutBlock(size, align);
      }
    }

    /** The first free block that fits with its padding, the block before it, and its payload. */
    method FindFit(size: nat, align: nat) returns (prev: nat, current: nat, payload: nat, ghost k: nat)
      requires Valid() && IsAlign(align)
      ensures k == FirstFit(heap.free, size, align, 0) && current == AddrAt(heap.free, k)
      ensures prev == PrevAt(heap.free, k)
      ensures current == 0 <==> k == |heap.free|
      ensures current != 0 ==> payload == Payload(current, align)
    {
      prev, current, payload, k := 0, freeList, 0, 0;
      while current != 0
        invariant k <= |heap.free| && current == AddrAt(heap.free, k) && prev == PrevAt(heap.free, k)
        invariant FirstFit(heap.free, size, align, 0) == FirstFit(heap.free, size, align, k)
        decreases |heap.free| - k
      {
        assert HeaderAt(headers, heap.free, k);
        var fits;
        payload, fits := Probe(current, headers[current].size, size, align);
        if fits { return; }
        prev, current, k := current, headers[current].next, k + 1;
      }
    }

    /** Whether a block at addr can take the request, and where its payload would start. */
    static method Probe(addr: nat, length: nat, size: nat, align: nat) returns (payload: nat, fits: bool)
      ensures payload == Payload(addr, align) && (fits <==> Fits(Block(addr, length), size, align))
    {
      payload := AlignUp(addr + HEADER, EffectiveAlign(align));
      fits := length >= HEADER + size + (payload - (addr + HEADER));
    }

    /** Takes the k-th free block, with its header at a. */
    method TakeBlock(prev: nat, current: nat, size: nat, a: nat, ghost k: nat)
      requires Valid() && k < |heap.free| && current == heap.free[k].addr && prev == PrevAt(heap.free, k)
      requires a !in heap.live && forall i | 0 <= i < |heap.free| - 1 :: Remove(heap.free, k)[i].addr != a
      modifies this
      ensures Tracked() && heap == TakeFree(old(heap), k, a, size)
    {
      ghost var h := heap;
      assert HeaderAt(headers, heap.free, k);
      var length := headers[current].size;
      Unlink(prev, current, k);
      heap := TakeFree(h, k, a, size);
      LiveHeader(headers, freeList, heap, a, Header(length, 0));
      headers := headers[a := Header(length, 0)];
    }

    /** Takes the k-th block out of the free list. */
    method Unlink(prev: nat, current: nat, ghost k: nat)
      requires Almost(heap) && Represents(headers, freeList, heap) && k < |heap.free|
      requires current == heap.free[k].addr && prev == PrevAt(heap.free, k)
      modifies `headers, `freeList
      ensures Linked(headers, freeList, Remove(heap.free, k)) && Recorded(headers, heap.live)
    {
      UnlinkLinked(headers, freeList, heap, k);
      assert HeaderAt(headers, heap.free, k);
      var next := headers[current].next;
      headers := UnlinkHeaders(headers, prev, current);
      if prev == 0 { freeList := next; }
    }

    /** Cuts a block off at the bump pointer, if there is room. */
    method CutBlock(size: nat, align: nat) returns (r: nat)
      requires Valid() && IsAlign(align)
      modifies this
      ensures Valid()
      ensures var p := Payload(old(heap).bump, align);
              if p + size <= old(heap).hi then r == p && heap == TakeBump(old(heap), p - HEADER, size)
              else r == 0 && heap == old(heap)
    {
      var payload := Payload(nextUninit, align);
      PayloadNear(nextUninit, align);
      if payload + size > regionEnd { return 0; }
      CutAt(payload, size);
      r := payload;
    }

    method CutAt(payload: nat, size: nat)
      requires Valid() && payload >= nextUninit + HEADER && payload % 8 == 0 && payload + size <= regionEnd
      modifies this
      ensures Valid() && heap == TakeBump(old(heap), payload - HEADER, size)
    {
      var a, end := payload - HEADER, payload + size;
      TakeBumpOk(heap, a, size);
      heap := TakeBump(heap, a, size);
      LiveHeader(headers, freeList, heap, a, Header(end - a, 0));
      headers := headers[a := Header(end - a, 0)];
      nextUninit := end;
    }

    // -------------------------------------------------------------
    // Deallocation
    // -------------------------------------------------------------

    /** The neighbours of address a in the free list. */
    method FindPlace(a: nat) returns (prev: nat, current: nat, ghost k: nat)
      requires Linked(headers, freeList, heap.free) && AllPositive(heap.free) && Ascending(heap.free)
      ensures SplitsAt(heap.free, a, k) && prev == PrevAt(heap.free, k) && current == AddrAt(heap.free, k)
    {
      prev, current, k := 0, freeList, 0;
      while current != 0 && current < a
        invariant k <= |heap.free| && current == AddrAt(heap.free, k) && prev == PrevAt(heap.free, k)
        invariant forall i | 0 <= i < k :: heap.free[i].addr < a
        decreases |heap.free| - k
      {
        assert HeaderAt(headers, heap.free, k);
        prev, current, k := current, headers[current].next, k + 1;
      }
    }

    /** Puts the block at a between its neighbours. */
    method LinkIn(prev: nat, a: nat, current: nat, ghost free: seq<Block>, ghost k: nat, ghost live: map<nat, Live>)
      requires Linked(headers, freeList, free) && Ascending(free) && AllPositive(free) && NotListed(free, a)
      requires a in headers
      requires k <= |free| && prev == PrevAt(free, k) && current == AddrAt(free, k)
      requires Recorded(headers, live) && a !in live && prev !in live
      modifies `headers, `freeList
      ensures Linked(headers, freeList, Insert(free, k, Block(a, old(headers[a].size)))) && Recorded(headers, live)
    {
      InsertLinked(headers, freeList, free, k, Block(a, headers[a].size));
      var size := headers[a].size;
      headers := InsertHeaders(headers, prev, a, size, current);
      if prev == 0 { freeList := a; }
    }

    /** Merges block j of the list with the block after it, if they touch. */
    method JoinWithNext(a: nat, next: nat, ghost free: seq<Block>, ghost j: nat, ghost live: map<nat, Live>)
      requires Linked(headers, freeList, free) && Ascending(free) && AllPositive(free)
      requires j < |free| && a == free[j].addr && next == AddrAt(free, j + 1)
      requires Recorded(headers, live) && a !in live
      modifies `headers
      ensures Linked(headers, freeList, JoinedNext(free, j)) && Recorded(headers, live)
    {
      assert HeaderAt(headers, free, j);
      if next == 0 { return; }
      assert HeaderAt(headers, free, j + 1);
      if a + headers[a].size == next { JoinBlocks(a, next, free, j, live); }
    }

    method JoinBlocks(a: nat, next: nat, ghost free: seq<Block>, ghost j: nat, ghost live: map<nat, Live>)
      requires Linked(headers, freeList, free) && Ascending(free) && j + 1 < |free|
      requires a == free[j].addr && next == free[j + 1].addr && Recorded(headers, live) && a !in live
      modifies `headers
      ensures Linked(headers, freeList, Join(free, j)) && Recorded(headers, live)
    {
      JoinLinked(headers, freeList, free, j);
      assert HeaderAt(headers, free, j) && HeaderAt(headers, free, j + 1);
      headers := headers[a := Header(headers[a].size + headers[next].size, headers[next].next)];
    }

    /** Inserts the block at a and merges it with both neighbours. */
    method InsertBlock(a: nat, prev: nat, current: nat, ghost free: seq<Block>, ghost k: nat,
                       ghost live: map<nat, Live>)
      requires Linked(headers, freeList, free) && Ascending(free) && AllPositive(free) && NotListed(free, a)
      requires a in headers && a > 0 && SplitsAt(free, a, k) && prev == PrevAt(free, k) && current == AddrAt(free, k)
      requires Recorded(headers, live) && a !in live && prev !in live
      modifies `headers, `freeList
      ensures Linked(headers, freeList, Merged(free[..k], Block(a, old(headers[a].size)), free[k..]))
      ensures Recorded(headers, live)
    {
      ghost var b := Block(a, headers[a].size);
      ghost var l0 := Insert(free, k, b);
      InsertKeeps(free, k, b);
      LinkIn(prev, a, current, free, k, live);
      JoinWithNext(a, current, l0, k, live);
      ghost var l1 := JoinedNext(l0, k);
      JoinedKeeps(l0, k);
      JoinsAreMerged(free, k, b);
      if prev != 0 { JoinWithNext(prev, a, l1, k - 1, live); }
    }

    /** Gives the block with this payload back; k is its place in the free list. */
    method Dealloc(payload: nat) returns (ghost k: nat)
      requires Valid() && payload >= HEADER && payload - HEADER in heap.live
      modifies this
      ensures Valid() && GivenBack(old(heap), heap, payload - HEADER, k)
      ensures Returned(old(heap), heap, payload - HEADER)
    {
      k := DeallocHeader(payload - HEADER);
    }

    method DeallocHeader(a: nat) returns (ghost k: nat)
      requires Valid() && a in heap.live
      modifies this
      ensures Valid() && GivenBack(old(heap), heap, a, k) && Returned(old(heap), heap, a)
    {
      ghost var h := heap;
      var prev, current;
      DeallocReady(heap, a, 0);
      prev, current, k := FindPlace(a);
      PutBackAndShrink(a, prev, current, k);
      GivenBackReturns(h, heap, a, k);
    }

    method PutBackAndShrink(a: nat, prev: nat, current: nat, ghost k: nat)
      requires Valid() && a in heap.live && SplitsAt(heap.free, a, k)
      requires prev == PrevAt(heap.free, k) && current == AddrAt(heap.free, k)
      modifies this
      ensures Valid() && GivenBack(old(heap), heap, a, k)
    {
      ghost var given := GiveBack(heap, a, k);
      PutBack(a, prev, current, k);
      TryShrinkBump();
      assert heap == Shrunk(given);
    }

    method PutBack(a: nat, prev: nat, current: nat, ghost k: nat)
      requires Valid() && a in heap.live && SplitsAt(heap.free, a, k)
      requires prev == PrevAt(heap.free, k) && current == AddrAt(heap.free, k)
      modifies this
      ensures heap == GiveBack(old(heap), a, k) && Almost(heap) && nextUninit == old(nextUninit)
      ensures Represents(headers, freeList, heap)
    {
      ghost var h := heap;
      DeallocReady(h, a, k);
      GiveBackOk(h, a, k);
      InsertBlock(a, prev, current, h.free, k, h.live - {a});
      heap := GiveBack(h, a, k);
    }

    /** A free block that ends at the bump pointer. */
    method FindTouching() returns (prev: nat, current: nat, ghost k: nat)
      requires AllPositive(heap.free) && heap.bump == nextUninit && Linked(headers, freeList, heap.free)
      ensures current == 0 ==> forall i | 0 <= i < |heap.free| :: heap.free[i].End() != heap.bump
      ensures current != 0 ==> k < |heap.free| && current == heap.free[k].addr && prev == PrevAt(heap.free, k)
      ensures current != 0 ==> heap.free[k].End() == heap.bump
    {
      prev, current, k := 0, freeList, 0;
      while current != 0
        invariant k <= |heap.free| && current == AddrAt(heap.free, k) && prev == PrevAt(heap.free, k)
        invariant forall i | 0 <= i < k :: heap.free[i].End() != heap.bump
        decreases |heap.free| - k
      {
        assert HeaderAt(headers, heap.free, k);
        if current + headers[current].size == nextUninit { return; }
        prev, current, k := current, headers[current].next, k + 1;
      }
    }

    /** Swallows a free block that touches the bump pointer. */
    method TryShrinkBump()
      requires Almost(heap) && heap.lo == regionStart && heap.hi == regionEnd && heap.bump == nextUninit
      requires Represents(headers, freeList, heap)
      modifies this
      ensures Valid() && heap == Shrunk(old(heap))
      decreases |heap.free|
    {
      var prev, current;
      ghost var k;
      prev, current, k := FindTouching();
      if current != 0 {
        Swallow(prev, current, k);
        TryShrinkBump();
      } else {
        ShrunkOk(heap);
      }
    }

    method Swallow(prev: nat, current: nat, ghost k: nat)
      requires Almost(heap) && heap.lo == regionStart && heap.hi == regionEnd && heap.bump == nextUninit
      requires Represents(headers, freeList, heap) && k < |heap.free| && heap.free[k].End() == heap.bump
      requires current == heap.free[k].addr && prev == PrevAt(heap.free, k)
      modifies this
      ensures Valid() && heap == Shrunk(old(heap)) && Shrunk(heap) == heap && |heap.free| < |old(heap.free)|
    {
      ghost var h := heap;
      OnlyLastTouches(h, k);
      ShrunkOk(h);
      assert Remove(h.free, k) == h.free[..k];
      Unlink(prev, current, k);
      nextUninit := current;
      heap := Shrunk(h);
    }

    /** Grows the block with this payload in place if it is the last one before the bump pointer. */
    method TryGrowInPlace(payload: nat, oldSize: nat, newSize: nat) returns (ok: bool)
      requires Valid() && payload >= HEADER && payload - HEADER in heap.live
      requires oldSize == heap.live[payload - HEADER].want && oldSize <= newSize
      modifies this
      ensures Valid()
      ensures ok <==> payload + oldSize == old(heap).bump && payload + newSize <= old(heap).hi
      ensures heap == if ok then Grow(old(heap), payload - HEADER, newSize) else old(heap)
      ensures ok ==> Extended(old(heap), heap, payload, newSize)
    {
      var a := payload - HEADER;
      if a + HEADER + oldSize != nextUninit { return false; }
      var newEnd := nextUninit + (newSize - oldSize);
      if newEnd > regionEnd { return false; }
      GrowExtends(heap, payload, newSize);
      GrowBlock(a, newSize);
      ok := true;
    }

    method GrowBlock(a: nat, newSize: nat)
      requires Valid() && a in heap.live && a + HEADER + heap.live[a].want == heap.bump
      requires heap.live[a].want <= newSize && a + HEADER + newSize <= heap.hi
      modifies this
      ensures Valid() && heap == Grow(old(heap), a, newSize)
    {
      GrowOk(heap, a, newSize);
      GrowNotListed(heap, a);
      heap := Grow(heap, a, newSize);
      nextUninit := a + HEADER + newSize;
      LiveHeader(headers, freeList, heap, a, Header(HEADER + newSize, headers[a].next));
      headers := headers[a := Header(HEADER + newSize, headers[a].next)];
    }
  }

  lemma GrowNotListed(h: Heap, a: nat)
    requires Ok(h) && a in h.live
    ensures NotListed(h.free, a)
  {
    forall i | 0 <= i < |h.free| ensures h.free[i].addr != a {
      assert Apart(a, h.live[a].size, h.free[i].addr, h.free[i].size);
    }
  }

  lemma DeallocReady(h: Heap, a: nat, k: nat)
    requires Ok(h) && a in h.live && k <= |h.free|
    ensures Ascending(h.free) && AllPositive(h.free) && NotListed(h.free, a) && a > 0 && PrevAt(h.free, k) !in h.live
  {
    GrowNotListed(h, a);
    if k > 0 && h.free[k - 1].addr in h.live { GrowNotListed(h, h.free[k - 1].addr); }
    assert 0 !in h.live;
  }

  lemma InsertKeeps(free: seq<Block>, k: nat, b: Block)
    requires Ascending(free) && AllPositive(free) && NotListed(free, b.addr) && SplitsAt(free, b.addr, k) && b.addr > 0
    ensures Ascending(Insert(free, k, b)) && AllPositive(Insert(free, k, b)) && Insert(free, k, b)[k] == b
    ensures AddrAt(Insert(free, k, b), k + 1) == AddrAt(free, k)
  {
    InsertAddr(free, k, b, k + 1);
  }

  lemma JoinedKeeps(free: seq<Block>, k: nat)
    requires Ascending(free) && AllPositive(free) && k < |free|
    ensures Ascending(JoinedNext(free, k)) && AllPositive(JoinedNext(free, k))
    ensures k < |JoinedNext(free, k)| && AddrAt(JoinedNext(free, k), k) == free[k].addr
    ensures k > 0 ==> JoinedNext(free, k)[k - 1] == free[k - 1]
  {
    if k + 1 < |free| && free[k].End() == free[k + 1].addr {
      JoinAscending(free, k);
      forall i | 0 <= i < |free| - 1 ensures Join(free, k)[i].addr > 0 { JoinAt(free, k, i); }
      JoinAt(free, k, k);
    }
  }

  /** A free block at 8 with a live block right behind it. */
  function Crowded(align: nat): Heap {
    Heap(8, 8 * align + 24, 8 * align + 24, [Block(8, 8 * align)], map[8 * align + 8 := Live(16, 0)])
  }

  lemma CrowdedPads(align: nat)
    requires align >= 16 && align % 16 == 0
    ensures !PadsIntoSlack(Crowded(align), 0, align)
  {
    var h, b := Crowded(align), Block(8, 8 * align);
    CrowdedPadding(align);
    assert Fits(h.free[0], 0, align) && FirstFit(h.free, 0, align, 0) == 0;
    assert 8 * align + 8 in h.live && !Apart(8 * align + 8, 16, b.End(), Padding(b, align));
  }

  lemma CrowdedPadding(align: nat)
    requires align >= 16 && align % 16 == 0
    ensures 0 < Padding(Block(8, 8 * align), align) < align
  {
    AlignUpIs(24, align);
    var p, d := AlignUp(24, align), align / 16;
    assert p == p / align * align && p == 16 * (p / align * d);
  }

  /** Giving back the first of two blocks. */
  lemma CrowdedGiven(align: nat)
    requires align >= 16
    ensures Dealloc(Pair(align), 8, 0) == Crowded(align)
  {
    var b, h := Block(8, 8 * align), Pair(align);
    assert Merged([], b, []) == [b];
    assert h.live - {8} == map[8 * align + 8 := Live(16, 0)];
  }

  /** Without free blocks, a request that needs no padding is cut off right at the bump pointer. */
  lemma CutOnly(h: Heap, h': Heap, size: nat, r: nat)
    requires h.free == [] && h.bump % 8 == 0 && h.bump + HEADER + size <= h.hi && (h', r) == Allocation(h, size, 8)
    ensures r == h.bump + HEADER && h' == TakeBump(h, h.bump, size)
  {
    PayloadNear(h.bump, 8);
  }

  /**
   From an empty heap: two blocks, the first given back, then a request with an alignment above 8. The header moves
   up inside the free block, which keeps its size and now reaches into the second block.
   */
  method Crowd(align: nat) returns (m: LargeAllocator)
    requires align >= 16 && align % 16 == 0
    ensures fresh(m) && m.Tracked() && !m.Valid()
  {
    m := Crowding(align);
    CrowdedPads(align);
    Sixteens(align);
    var c := m.Alloc(0, align);
  }

  lemma Sixteens(align: nat)
    requires align % 16 == 0
    ensures IsAlign(align)
  {
  }

  method Crowding(align: nat) returns (m: LargeAllocator)
    requires align >= 16
    ensures fresh(m) && m.Valid() && m.heap == Crowded(align)
  {
    var a;
    m, a := TwoBlocks(align);
    ghost var k := m.Dealloc(a);
    CrowdedGiven(align);
  }

  method TwoBlocks(align: nat) returns (m: LargeAllocator, a: nat)
    requires align >= 16
    ensures fresh(m) && m.Valid() && a == 24
    ensures m.heap == Pair(align)
  {
    m := new LargeAllocator(8, 8 * align + 16);
    a := CutNext(m, 8 * align - 16, 1);
    var b := CutNext(m, 0, align + 1);
    PairCut(align);
  }

  /** Two blocks in use that fill the heap. */
  function Pair(align: nat): Heap
    requires align >= 16
  {
    Heap(8, 8 * align + 24, 8 * align + 24, [],
         map[8 := Live(8 * align, 8 * align - 16), 8 * align + 8 := Live(16, 0)])
  }

  lemma PairCut(align: nat)
    requires align >= 16
    ensures var h := Heap(8, 8 * align + 24, 8, [], map[]);
            TakeBump(TakeBump(h, 8, 8 * align - 16), 8 * align + 8, 0) == Pair(align)
  {
  }

  /** Without free blocks and with the bump pointer at a multiple of 8, a request is cut off right there. */
  method CutNext(m: LargeAllocator, size: nat, ghost n: nat) returns (r: nat)
    requires m.Valid() && m.heap.free == [] && m.heap.bump == 8 * n && m.heap.bump + HEADER + size <= m.heap.hi
    modifies m
    ensures m.Valid() && r == old(m.heap).bump + HEADER && m.heap == TakeBump(old(m.heap), old(m.heap).bump, size)
  {
    ghost var h := m.heap;
    SmallAlignSafe(h, size, 8);
    r := m.Alloc(size, 8);
    CutOnly(h, m.heap, size, r);
  }
}

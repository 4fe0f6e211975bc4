/** Unmapping pages that the process mapped in L1 tables of its own. */
module PagingUnmap {
  import opened Options
  import opened PageTables
  import opened PagingSteps
  import opened PagingHooks
  import opened PagingMap
  import opened PagingRange

  /** The L1 table of the page. */
  function L1(p: nat, page: seq<nat>): Node
    requires IsPage(page)
  {
    Node(p, page[..3])
  }

  /**
   The range was mapped by the process: its L1 tables are its own, its frames are in no page
   table, and different pages have different frames.
   */
  ghost predicate Unmappable(s: State, p: nat, start: nat, count: nat) {
    && (forall j: nat | j < count :: L1(p, PageAt(start, j)) in s.owned)
    && (forall j: nat | j < count && Trans(s, p, PageAt(start, j)).Some? ::
         Fresh(s, Trans(s, p, PageAt(start, j)).value.addr))
    && (forall i: nat, j: nat | i < count && j < count && PageAt(start, i) != PageAt(start, j) ::
         FramesDiffer(s, p, start, i, j))
  }

  predicate FramesDiffer(s: State, p: nat, start: nat, i: nat, j: nat) {
    var a, b := Trans(s, p, PageAt(start, i)), Trans(s, p, PageAt(start, j));
    a.Some? && b.Some? ==> a.value.addr != b.value.addr
  }

  /** f backs one of the first k pages. */
  ghost predicate Backs(s: State, p: nat, start: nat, k: nat, f: nat) {
    exists j: nat | j < k :: Trans(s, p, PageAt(start, j)).Some? && Trans(s, p, PageAt(start, j)).value.addr == f
  }

  /** frames lists, without repetition, the frames that backed the first k pages. */
  ghost predicate Lists(s: State, p: nat, start: nat, k: nat, frames: seq<nat>) {
    && (forall f | f in frames :: Backs(s, p, start, k, f))
    && (forall f | Backs(s, p, start, k, f) :: f in frames)
    && (forall i, j | 0 <= i < j < |frames| :: frames[i] != frames[j])
  }

  ghost predicate Cleared(s: State, p: nat, start: nat, k: nat) {
    forall j: nat | j < k :: Trans(s, p, PageAt(start, j)).None?
  }

  /** After the first k pages: their entries are gone, nothing else moved. */
  ghost predicate Unmapping(s: State, s': State, p: nat, start: nat, k: nat, frames: seq<nat>) {
    && Inv(s') && Confined(s, s', p) && s'.owned == s.owned && s'.free == s.free
    && OutsideSame(s, s', p, start, k) && Cleared(s', p, start, k) && Lists(s, p, start, k, frames)
  }

  // ---------------------------------------------------------------
  // What the code does to one page
  // ---------------------------------------------------------------

  /** The L1 table of the page, from table t at depth d on, if no entry on the way is empty or huge. */
  function L1Of(mem: Memory, t: nat, d: nat, page: seq<nat>): Option<nat>
    requires IsPage(page) && d <= 3
    decreases 3 - d
  {
    if d == 3 then Some(t)
    else if !IsTable(mem, t) || mem[t][page[d]] == UNUSED || (d > 0 && Huge in mem[t][page[d]].flags) then None
    else L1Of(mem, mem[t][page[d]].addr, d + 1, page)
  }

  /** The L1 entry that serves the page. */
  function Serving(mem: Memory, p: nat, page: seq<nat>): Entry
    requires IsPage(page)
  {
    var t := L1Of(mem, p, 0, page);
    if t.Some? && IsTable(mem, t.value) then mem[t.value][page[3]] else UNUSED
  }

  /** The code's descent finds an entry exactly when the hardware's walk ends at an L1 entry, and it is that one. */
  lemma {:induction false} DescentIsWalk(mem: Memory, t: nat, d: nat, page: seq<nat>)
    requires IsPage(page) && d <= 3
    ensures var w, l1 := Walk(mem, t, d, page), L1Of(mem, t, d, page);
            (w.Some? && w.value.depth == 3 <==> l1.Some? && IsTable(mem, l1.value) && mem[l1.value][page[3]] != UNUSED)
            && (w.Some? && w.value.depth == 3 ==> mem[l1.value][page[3]] == Entry(w.value.addr, w.value.flags))
    decreases 3 - d
  {
    if d < 3 && IsTable(mem, t) && mem[t][page[d]] != UNUSED {
      DescentIsWalk(mem, mem[t][page[d]].addr, d + 1, page);
    }
  }

  /** The entry that serves the page is cleared, in whatever table it lies. */
  function ClearPage(mem: Memory, p: nat, page: seq<nat>): Memory
    requires IsPage(page)
  {
    var t := L1Of(mem, p, 0, page);
    if Serving(mem, p, page) == UNUSED then mem else mem[t.value := mem[t.value][page[3] := UNUSED]]
  }

  /** The frame the page is mapped to by an L1 entry. */
  function ServedFrame(mem: Memory, p: nat, page: seq<nat>): Option<nat>
    requires IsPage(page)
  {
    if Serving(mem, p, page) == UNUSED then None else Some(Serving(mem, p, page).addr)
  }

  /** Memory after the first k pages of the range have been cleared, one after the other. */
  function ClearAll(mem: Memory, p: nat, start: nat, k: nat): Memory {
    if k == 0 then mem else ClearPage(ClearAll(mem, p, start, k - 1), p, PageAt(start, k - 1))
  }

  /** The frames that are noted on the way. */
  function FramesOf(mem: Memory, p: nat, start: nat, k: nat): seq<nat> {
    if k == 0 then []
    else
      var f := ServedFrame(ClearAll(mem, p, start, k - 1), p, PageAt(start, k - 1));
      FramesOf(mem, p, start, k - 1) + if f.Some? then [f.value] else []
  }

  /** The allocator takes these frames back: they exist, none is free and none comes twice. */
  predicate Releasable(mem: Memory, free: set<nat>, frames: seq<nat>) {
    && (forall i | 0 <= i < |frames| :: frames[i] in mem && frames[i] !in free)
    && (forall i, j | 0 <= i < j < |frames| :: frames[i] != frames[j])
  }

  lemma {:induction false} OwnedL1(s: State, p: nat, page: seq<nat>, d: nat)
    requires Inv(s) && IsPage(page) && d <= 3 && L1(p, page) in s.owned
    ensures Node(p, page[..d]) in s.owned
    ensures L1Of(s.mem, s.owned[Node(p, page[..d])], d, page) == Some(s.owned[L1(p, page)])
    decreases 3 - d
  {
    PrefixOwned(s, p, page, d, 3);
    if d < 3 {
      OwnedL1(s, p, page, d + 1);
      assert Child(Node(p, page[..d]), page[d]) == Node(p, page[..d + 1]);
    }
  }

  lemma {:induction false} L1OfAt(s: State, c: Node, t: nat, page: seq<nat>)
    requires Inv(s) && IsPage(page) && IsPath(c.path) && c.path == page[..|c.path|] && TableAt(s, c, t)
    ensures var r := L1Of(s.mem, t, |c.path|, page);
            r.Some? ==> IsTable(s.mem, r.value) && TableAt(s, L1(c.proc, page), r.value)
    decreases 3 - |c.path|
  {
    var d := |c.path|;
    TableReal(s, c, t);
    if d == 3 {
      assert c == L1(c.proc, page);
    } else {
      TableStep(s, c, t, page[d]);
      if Link(s.mem[t][page[d]]) {
        assert Child(c, page[d]).path == page[..d + 1];
        L1OfAt(s, Child(c, page[d]), s.mem[t][page[d]].addr, page);
      }
    }
  }

  /**
   Clearing a page leaves the kernel's tables alone exactly when the entry that serves it is unused already or
   lies in an L1 table of the process. The code does not test this.
   */
  lemma ClearSparesKernelIff(s: State, p: nat, page: seq<nat>)
    requires Inv(s) && Node(p, []) in s.owned && IsPage(page)
    ensures (forall t | t in s.kernel :: ClearPage(s.mem, p, page)[t] == s.mem[t])
            <==> L1(p, page) in s.owned || Serving(s.mem, p, page) == UNUSED
  {
    assert page[..0] == [];
    L1OfAt(s, Node(p, []), p, page);
    var r := L1Of(s.mem, p, 0, page);
    if r.Some? {
      TableReal(s, L1(p, page), r.value);
      if Serving(s.mem, p, page) != UNUSED && r.value in s.kernel {
        assert ClearPage(s.mem, p, page)[r.value][page[3]] == UNUSED;
      }
    }
  }

  /** One page is unmapped and no other translation changes. */
  ghost predicate PageCleared(s: State, s': State, p: nat, page: seq<nat>)
    requires IsPage(page)
  {
    && Inv(s') && Confined(s, s', p) && s'.owned == s.owned && s'.free == s.free && Trans(s', p, page).None?
    && forall other | IsPage(other) && other != page :: Same(Trans(s, p, other), Trans(s', p, other))
  }

  ghost function FrameOf(s: State, p: nat, page: seq<nat>): Option<nat>
    requires IsPage(page)
  {
    if Trans(s, p, page).Some? then Some(Trans(s, p, page).value.addr) else None
  }

  lemma ClearStep(s: State, s': State, p: nat, page: seq<nat>)
    requires Inv(s) && IsPage(page) && L1(p, page) in s.owned && s' == Rewrite(s, L1(p, page), page[3], UNUSED)
    ensures PageCleared(s, s', p, page)
  {
    assert page == page[..3] + [page[3]];
    LeafStep(s, L1(p, page), page[3], UNUSED);
    OwnedWalk(s', p, page);
  }

  /** A page not met before still has its frame; one met before is gone already. */
  lemma PageThen(s: State, s': State, p: nat, start: nat, k: nat, frames: seq<nat>)
    requires Unmapping(s, s', p, start, k, frames)
    ensures RangePage(start, k, PageAt(start, k)) ==> Trans(s', p, PageAt(start, k)).None?
    ensures !RangePage(start, k, PageAt(start, k)) ==>
            Same(Trans(s, p, PageAt(start, k)), Trans(s', p, PageAt(start, k)))
  {
    if RangePage(start, k, PageAt(start, k)) {
      var j: nat :| j < k && PageAt(start, j) == PageAt(start, k);
      assert Trans(s', p, PageAt(start, j)).None?;
    }
  }

  /** What the code does to a page with an L1 table of the process. */
  lemma ClearedOwned(s: State, s': State, p: nat, page: seq<nat>)
    requires Inv(s) && Node(p, []) in s.owned && IsPage(page) && L1(p, page) in s.owned
    requires s' == s.(mem := ClearPage(s.mem, p, page))
    ensures PageCleared(s, s', p, page) && ServedFrame(s.mem, p, page) == FrameOf(s, p, page)
  {
    assert page[..0] == [];
    OwnedL1(s, p, page, 0);
    OwnedWalk(s, p, page);
    if Serving(s.mem, p, page) != UNUSED { ClearStep(s, s', p, page); }
  }

  /** The list after one more page: its frame if the page is still mapped, nothing otherwise. */
  lemma ListsGrow(s: State, s': State, p: nat, start: nat, k: nat, frames: seq<nat>, frames': seq<nat>)
    requires Unmapping(s, s', p, start, k, frames) && Unmappable(s, p, start, k + 1)
    requires frames' == if Trans(s', p, PageAt(start, k)).Some?
               then frames + [Trans(s', p, PageAt(start, k)).value.addr] else frames
    ensures Lists(s, p, start, k + 1, frames')
  {
    PageThen(s, s', p, start, k, frames);
    var page := PageAt(start, k);
    if Trans(s', p, page).Some? {
      var f := Trans(s, p, page).value.addr;
      assert f !in frames by {
        forall j: nat | j < k && Trans(s, p, PageAt(start, j)).Some?
          ensures Trans(s, p, PageAt(start, j)).value.addr != f
        {
          assert FramesDiffer(s, p, start, j, k);
        }
      }
    }
    forall f | f in frames' ensures Backs(s, p, start, k + 1, f) {
      if f in frames { BacksMore(s, p, start, k, f); }
    }
    forall f | Backs(s, p, start, k + 1, f) ensures f in frames' {
      BacksLast(s, p, start, k, f);
    }
  }

  lemma BacksMore(s: State, p: nat, start: nat, k: nat, f: nat)
    requires Backs(s, p, start, k, f)
    ensures Backs(s, p, start, k + 1, f)
  {
  }

  lemma BacksLast(s: State, p: nat, start: nat, k: nat, f: nat)
    requires Backs(s, p, start, k + 1, f)
    ensures Backs(s, p, start, k, f)
            || (Trans(s, p, PageAt(start, k)).Some? && Trans(s, p, PageAt(start, k)).value.addr == f)
  {
  }

  /** Clearing one more page. */
  lemma ClearedGrow(s1: State, s2: State, p: nat, start: nat, k: nat)
    requires Cleared(s1, p, start, k) && Trans(s2, p, PageAt(start, k)).None?
    requires forall other | IsPage(other) && other != PageAt(start, k) :: Same(Trans(s1, p, other), Trans(s2, p, other))
    ensures Cleared(s2, p, start, k + 1)
  {
    forall j: nat | j < k + 1 ensures Trans(s2, p, PageAt(start, j)).None? {
      if PageAt(start, j) != PageAt(start, k) {
        assert Same(Trans(s1, p, PageAt(start, j)), Trans(s2, p, PageAt(start, j)));
      }
    }
  }

  /** Clearing the next page of the range. */
  lemma UnmappingStep(s: State, s1: State, s2: State, p: nat, start: nat, k: nat, frames: seq<nat>, frames': seq<nat>)
    requires Unmapping(s, s1, p, start, k, frames) && Unmappable(s, p, start, k + 1)
    requires PageCleared(s1, s2, p, PageAt(start, k))
    requires var f := FrameOf(s1, p, PageAt(start, k)); frames' == if f.Some? then frames + [f.value] else frames
    ensures Unmapping(s, s2, p, start, k + 1, frames')
  {
    ListsGrow(s, s1, p, start, k, frames, frames');
    ConfinedTrans(s, s1, s2, p);
    OutsideGrow(s, s1, s2, p, start, k);
    ClearedGrow(s1, s2, p, start, k);
  }

  // ---------------------------------------------------------------
  // Giving the frames back
  // ---------------------------------------------------------------

  function Released(s: State, frames: seq<nat>): State {
    s.(free := s.free + Elements(frames))
  }

  lemma ReleasedOk(s: State, frames: seq<nat>)
    requires Inv(s) && (forall f | f in frames :: Fresh(s, f))
    ensures Inv(Released(s, frames))
  {
    var s' := Released(s, frames);
    assert forall n, i: nat :: EntryOf(s', n, i) == EntryOf(s, n, i);
    forall n, i: nat | n in s'.owned && |n.path| < 3 && Link(EntryOf(s', n, i))
      ensures TableAt(s', Child(n, i), EntryOf(s', n, i).addr)
    {
      assert TableAt(s, Child(n, i), EntryOf(s, n, i).addr);
    }
  }

  /** What unmapping promises. */
  ghost predicate Unmapped(s: State, s': State, p: nat, start: nat, count: nat, frames: seq<nat>) {
    && Inv(s') && s'.free == s.free + Elements(frames) && s'.owned == s.owned && Confined(s, s'.(free := s.free), p)
    && OutsideSame(s, s', p, start, count) && Cleared(s', p, start, count) && Lists(s, p, start, count, frames)
  }

  lemma MappedPage(s: State, s1: State, p: nat, start: nat, frames: seq<nat>, flags: set<Flag>, j: nat)
    requires RangeMapped(s, s1, p, start, frames, flags) && j < |frames| <= 0x10_0000_0000
    ensures L1(p, PageAt(start, j)) in s1.owned
    ensures Trans(s1, p, PageAt(start, j)) == Some(Leaf(frames[j], flags, true, true, 3))
  {
    RangeDistinct(start, j, |frames|);
  }

  /** A range that was just mapped can be unmapped. */
  lemma MappedUnmappable(s: State, s1: State, p: nat, start: nat, frames: seq<nat>, flags: set<Flag>)
    requires RangeMapped(s, s1, p, start, frames, flags) && |frames| <= 0x10_0000_0000
    ensures Unmappable(s1, p, start, |frames|)
  {
    forall j: nat | j < |frames|
      ensures L1(p, PageAt(start, j)) in s1.owned
      ensures Trans(s1, p, PageAt(start, j)).Some? ==> Fresh(s1, Trans(s1, p, PageAt(start, j)).value.addr)
    {
      MappedPage(s, s1, p, start, frames, flags, j);
    }
    forall i: nat, j: nat | i < |frames| && j < |frames| && PageAt(start, i) != PageAt(start, j)
      ensures FramesDiffer(s1, p, start, i, j)
    {
      MappedPage(s, s1, p, start, frames, flags, i);
      MappedPage(s, s1, p, start, frames, flags, j);
      Differ(frames, i, j);
    }
  }

  lemma Differ(frames: seq<nat>, i: nat, j: nat)
    requires forall a, b | 0 <= a < b < |frames| :: frames[a] != frames[b]
    requires i < |frames| && j < |frames| && i != j
    ensures frames[i] != frames[j]
  {
  }

  /** Unmapping a mapped range gives back exactly its frames, and every other page is as before mapping. */
  lemma MappedThenUnmapped(s: State, s1: State, s2: State, p: nat, start: nat, frames: seq<nat>, flags: set<Flag>,
                           back: seq<nat>)
    requires RangeMapped(s, s1, p, start, frames, flags) && |frames| <= 0x10_0000_0000
    requires Unmapped(s1, s2, p, start, |frames|, back)
    ensures Elements(back) == Elements(frames) && OutsideSame(s, s2, p, start, |frames|)
  {
    forall f | f in frames ensures f in back {
      var j: nat :| j < |frames| && frames[j] == f;
      MappedPage(s, s1, p, start, frames, flags, j);
      assert Backs(s1, p, start, |frames|, f);
    }
    forall f | f in back ensures f in frames {
      assert Backs(s1, p, start, |frames|, f);
      var j: nat :| j < |frames| && Trans(s1, p, PageAt(start, j)).Some?
        && Trans(s1, p, PageAt(start, j)).value.addr == f;
      MappedPage(s, s1, p, start, frames, flags, j);
    }
    OutsideTrans(s, s1, s2, p, start, |frames|);
  }

  lemma OutsideTrans(s: State, s1: State, s2: State, p: nat, start: nat, k: nat)
    requires OutsideSame(s, s1, p, start, k) && OutsideSame(s1, s2, p, start, k)
    ensures OutsideSame(s, s2, p, start, k)
  {
    forall page | IsPage(page) && !RangePage(start, k, page) ensures Same(Trans(s, p, page), Trans(s2, p, page)) {
      assert Same(Trans(s, p, page), Trans(s1, p, page)) && Same(Trans(s1, p, page), Trans(s2, p, page));
    }
  }
}

/** Mapping ELF segments: a page gets a fresh frame, or keeps one of the process's frames with merged flags. */
module PagingElf {
  import opened Options
  import opened PageTables
  import opened PagingSteps
  import opened PagingHooks
  import opened PagingMap
  import opened PagingRange

  /** Page flags of an ELF segment: bit 0 of elfFlags is execute, bit 1 write. */
  function PageFlags(elfFlags: nat): set<Flag> {
    {Present, User}
    + (if elfFlags / 2 % 2 == 1 then {Writable} else {})
    + (if elfFlags % 2 == 0 then {NoExecute} else {})
  }

  /** Flags of a page shared by two segments: what either of them permits. */
  function Merge(existing: set<Flag>, new_: set<Flag>): (m: set<Flag>)
    ensures Writable in m <==> Writable in existing || Writable in new_
    ensures NoExecute in m <==> NoExecute in existing && NoExecute in new_
    ensures forall f | f != Writable && f != NoExecute :: f in m <==> f in existing
  {
    var m := if Writable in new_ then existing + {Writable} else existing;
    if NoExecute !in new_ then m - {NoExecute} else m
  }

  /** The page keeps its frame f, one of the known frames, with the flags merged. */
  ghost predicate PageReused(s: State, s': State, p: nat, page: seq<nat>, f: nat, leaf: set<Flag>, known: seq<nat>)
    requires IsPage(page)
  {
    && Inv(s') && Confined(s, s', p) && f in known && Spent(s, s', {}) == true
    && Trans(s, p, page).Some? && Trans(s, p, page).value.addr == f && User in Trans(s, p, page).value.flags
    && Trans(s', p, page) == Some(Leaf(f, Merge(Trans(s, p, page).value.flags, leaf), true, true, 3))
    && (forall other | IsPage(other) && other != page :: Same(Trans(s, p, other), Trans(s', p, other)))
  }

  /** The page is already backed by one of the known frames, marked USER. */
  ghost predicate Ours(w: Option<Leaf>, known: seq<nat>) {
    w.Some? && User in w.value.flags && w.value.addr in known
  }

  ghost predicate PageLoaded(s: State, s': State, p: nat, page: seq<nat>, f: nat, leaf: set<Flag>, known: seq<nat>)
    requires IsPage(page)
  {
    if Ours(Trans(s, p, page), known) then PageReused(s, s', p, page, f, leaf, known)
    else PageMapped(s, s', p, page, f, leaf)
  }

  lemma OursSame(s: State, s1: State, p: nat, page: seq<nat>, known: seq<nat>)
    requires IsPage(page) && SameTranslations(s, s1, p)
    ensures Ours(Trans(s, p, page), known) <==> Ours(Trans(s1, p, page), known)
  {
    assert Same(Trans(s, p, page), Trans(s1, p, page));
  }

  /** Writing an L1 entry keeps the tables above and takes no frame. */
  lemma RewriteFrame(s: State, s': State, n: Node, i: nat, e: Entry)
    requires Inv(s) && n in s.owned && |n.path| == 3 && i < 512 && s' == Rewrite(s, n, i, e)
    ensures s'.owned == s.owned && EntryOf(s', n, i) == e && Spent(s, s', {})
    ensures forall m | m in s.owned && |m.path| < 3 :: s.owned[m] in s'.mem && s'.mem[s.owned[m]] == s.mem[s.owned[m]]
  {
  }

  lemma ReuseStep(s: State, s': State, p: nat, page: seq<nat>, leaf: set<Flag>, known: seq<nat>, e: Entry)
    requires Inv(s) && IsPage(page) && Node(p, page[..3]) in s.owned && OpenAbove(s, p, page)
    requires e == EntryOf(s, Node(p, page[..3]), page[3]) && e != UNUSED && User in e.flags && e.addr in known
    requires s' == Rewrite(s, Node(p, page[..3]), page[3], Entry(e.addr, Merge(e.flags, leaf)))
    ensures PageReused(s, s', p, page, e.addr, leaf, known)
  {
    var n, e' := Node(p, page[..3]), Entry(e.addr, Merge(e.flags, leaf));
    assert page == page[..3] + [page[3]];
    assert EntryOk(e) && Present in e'.flags;
    LeafStep(s, n, page[3], e');
    RewriteFrame(s, s', n, page[3], e');
    OwnedWalk(s, p, page);
    MapTranslates(s, s', p, page, e');
  }

  /** A quiet step before it does not change what loading a page means. */
  lemma QuietLoaded(s: State, s1: State, s2: State, p: nat, page: seq<nat>, f: nat, leaf: set<Flag>, known: seq<nat>)
    requires Inv(s) && IsPage(page) && Quiet(s, s1, p) && PageReused(s1, s2, p, page, f, leaf, known)
    ensures PageReused(s, s2, p, page, f, leaf, known)
  {
    SpentAfter(s, s1, s2, p, {});
    ConfinedTrans(s, s1, s2, p);
    assert Same(Trans(s, p, page), Trans(s1, p, page));
    OthersAfter(s, s1, s2, p, page);
  }

  // ---------------------------------------------------------------
  // A loaded range
  // ---------------------------------------------------------------

  /** Each page translates to its frame and user code reaches it. */
  ghost predicate InsideLoaded(s: State, p: nat, start: nat, frames: seq<nat>) {
    forall j: nat | j < |frames| && LastOf(start, j, |frames|) ::
      Reach(s, p, PageAt(start, j)) && Trans(s, p, PageAt(start, j)).value.addr == frames[j]
  }

  /** Only frames of the list leave the free frames and tables. */
  ghost predicate SpentWithin(s: State, s': State, out: set<nat>) {
    Held(s') <= Held(s) && (NoGiant(s) ==> Held(s) <= Held(s') + out)
  }

  ghost predicate RangeLoaded(s: State, s': State, p: nat, start: nat, frames: seq<nat>) {
    && OutsideSame(s, s', p, start, |frames|) && InsideLoaded(s', p, start, frames)
    && SpentWithin(s, s', Elements(frames)) == true
  }

  lemma LoadedInside(s1: State, s2: State, p: nat, start: nat, frames: seq<nat>, f: nat)
    requires InsideLoaded(s1, p, start, frames)
    requires Reach(s2, p, PageAt(start, |frames|)) && Trans(s2, p, PageAt(start, |frames|)).value.addr == f
    requires forall other | IsPage(other) && other != PageAt(start, |frames|) ::
               Same(Trans(s1, p, other), Trans(s2, p, other))
    ensures InsideLoaded(s2, p, start, frames + [f])
  {
    var all := frames + [f];
    forall j: nat | j < |all| && LastOf(start, j, |all|)
      ensures Reach(s2, p, PageAt(start, j)) && Trans(s2, p, PageAt(start, j)).value.addr == all[j]
    {
      if j < |frames| {
        LastBefore(start, j, |frames|);
        assert Same(Trans(s1, p, PageAt(start, j)), Trans(s2, p, PageAt(start, j)));
      }
    }
  }

  lemma WithinGrow(s: State, s1: State, s2: State, p: nat, frames: seq<nat>, f: nat)
    requires Inv(s) && Confined(s, s1, p) && SpentWithin(s, s1, Elements(frames))
    requires Spent(s1, s2, {}) || Spent(s1, s2, {f})
    ensures SpentWithin(s, s2, Elements(frames + [f]))
  {
    NoGiantKept(s, s1, p);
    assert Elements(frames + [f]) == Elements(frames) + {f};
  }

  lemma LoadedGrow(s: State, s1: State, s2: State, p: nat, start: nat, frames: seq<nat>, f: nat, leaf: set<Flag>,
                   known: seq<nat>)
    requires Inv(s) && Confined(s, s1, p) && RangeLoaded(s, s1, p, start, frames) && User in leaf
    requires PageLoaded(s1, s2, p, PageAt(start, |frames|), f, leaf, known)
    ensures RangeLoaded(s, s2, p, start, frames + [f])
  {
    WithinGrow(s, s1, s2, p, frames, f);
    OutsideGrow(s, s1, s2, p, start, |frames|);
    LoadedInside(s1, s2, p, start, frames, f);
  }

  // ---------------------------------------------------------------
  // The permissions of a loaded range
  // ---------------------------------------------------------------

  /** No earlier page of the range has the same indices. */
  ghost predicate FirstOf(start: nat, j: nat) {
    forall i: nat | i < j :: PageAt(start, i) != PageAt(start, j)
  }

  lemma {:induction false} FirstIndex(start: nat, k: nat, page: seq<nat>) returns (j: nat)
    requires RangePage(start, k, page)
    ensures j < k && PageAt(start, j) == page && FirstOf(start, j)
    decreases k
  {
    if RangePage(start, k - 1, page) {
      j := FirstIndex(start, k - 1, page);
    } else {
      j := k - 1;
    }
  }

  /** The leaf flags a page ends up with: those of the segment, merged into those of a frame it keeps. */
  ghost function LoadedFlags(w: Option<Leaf>, leaf: set<Flag>, known: seq<nat>): set<Flag> {
    if Ours(w, known) then Merge(w.value.flags, leaf) else leaf
  }

  /** One page of the range, from the state before the whole range to the state after it. */
  ghost predicate LeafLoaded(s: State, s': State, p: nat, page: seq<nat>, f: nat, leaf: set<Flag>, known: seq<nat>)
    requires IsPage(page)
  {
    var w := Trans(s, p, page);
    && (if Ours(w, known) then f == w.value.addr else f in s.free)
    && Trans(s', p, page) == Some(Leaf(f, LoadedFlags(w, leaf, known), true, true, 3))
  }

  ghost predicate LeavesLoaded(s: State, s': State, p: nat, start: nat, frames: seq<nat>, leaf: set<Flag>,
                               previous: seq<nat>) {
    forall j: nat | j < |frames| && FirstOf(start, j) ::
      LeafLoaded(s, s', p, PageAt(start, j), frames[j], leaf, frames[..j] + previous)
  }

  /** A page met for the first time: the range so far has not touched it. */
  lemma LoadedFirst(s: State, s1: State, s2: State, p: nat, page: seq<nat>, f: nat, leaf: set<Flag>, known: seq<nat>)
    requires IsPage(page) && Same(Trans(s, p, page), Trans(s1, p, page)) && s1.free <= s.free
    requires PageLoaded(s1, s2, p, page, f, leaf, known)
    ensures LeafLoaded(s, s2, p, page, f, leaf, known)
  {
  }

  /** A page met again keeps its frame and its flags. */
  lemma LoadedAgain(s: State, s1: State, s2: State, p: nat, page: seq<nat>, f: nat, g: nat, leaf: set<Flag>,
                    known: seq<nat>, all: seq<nat>)
    requires IsPage(page) && LeafLoaded(s, s1, p, page, f, leaf, known) && f in all && User in leaf
    requires PageLoaded(s1, s2, p, page, g, leaf, all)
    ensures g == f && Trans(s2, p, page) == Trans(s1, p, page)
  {
    var w := Trans(s, p, page);
    assert Ours(Trans(s1, p, page), all);
    var flags := LoadedFlags(w, leaf, known);
    assert Merge(flags, leaf) == flags;
  }

  lemma LeavesGrow(s: State, s1: State, s2: State, p: nat, start: nat, frames: seq<nat>, f: nat, leaf: set<Flag>,
                   previous: seq<nat>)
    requires OutsideSame(s, s1, p, start, |frames|) && s1.free <= s.free && User in leaf
    requires LeavesLoaded(s, s1, p, start, frames, leaf, previous)
    requires PageLoaded(s1, s2, p, PageAt(start, |frames|), f, leaf, frames + previous)
    ensures LeavesLoaded(s, s2, p, start, frames + [f], leaf, previous)
  {
    var all, last := frames + [f], PageAt(start, |frames|);
    forall j: nat | j < |all| && FirstOf(start, j)
      ensures LeafLoaded(s, s2, p, PageAt(start, j), all[j], leaf, all[..j] + previous)
    {
      assert all[..j] == frames[..j];
      if j == |frames| {
        assert !RangePage(start, j, last);
        assert all[..j] == frames;
        LoadedFirst(s, s1, s2, p, last, f, leaf, frames + previous);
      } else if PageAt(start, j) == last {
        LoadedAgain(s, s1, s2, p, last, frames[j], f, leaf, frames[..j] + previous, frames + previous);
      } else {
        assert Same(Trans(s1, p, PageAt(start, j)), Trans(s2, p, PageAt(start, j)));
      }
    }
  }

  /**
   One page of a segment, in the bits of its flags (bit 0 execute, bit 1 write): a page that kept its frame
   allows what it allowed before and what the segment allows, a page with a fresh frame exactly what the
   segment allows.
   */
  ghost predicate SegmentPage(s: State, s': State, p: nat, page: seq<nat>, f: nat, elfFlags: nat, known: seq<nat>)
    requires IsPage(page)
  {
    var w, w' := Trans(s, p, page), Trans(s', p, page);
    && w'.Some? && w'.value.addr == f && User in w'.value.flags && w'.value.path && w'.value.write
    && if w.Some? && User in w.value.flags && w.value.addr in known then
      && f == w.value.addr
      && (Writable in w'.value.flags <==> Writable in w.value.flags || elfFlags / 2 % 2 == 1)
      && (NoExecute in w'.value.flags <==> NoExecute in w.value.flags && elfFlags % 2 == 0)
    else
      && f in s.free && Present in w'.value.flags
      && (Writable in w'.value.flags <==> elfFlags / 2 % 2 == 1)
      && (NoExecute in w'.value.flags <==> elfFlags % 2 == 0)
  }

  /** User code can write the page if bit 1 is set, and run it if bit 0 is set. */
  ghost predicate SegmentRights(s: State, p: nat, page: seq<nat>, elfFlags: nat)
    requires IsPage(page)
  {
    && Reach(s, p, page)
    && (elfFlags / 2 % 2 == 1 ==> Writable in Trans(s, p, page).value.flags && Trans(s, p, page).value.write)
    && (elfFlags % 2 == 1 ==> NoExecute !in Trans(s, p, page).value.flags)
  }

  lemma SegmentLoaded(s: State, s': State, p: nat, page: seq<nat>, f: nat, elfFlags: nat, known: seq<nat>)
    requires IsPage(page) && LeafLoaded(s, s', p, page, f, PageFlags(elfFlags), known)
    ensures SegmentPage(s, s', p, page, f, elfFlags, known) && SegmentRights(s', p, page, elfFlags)
  {
  }

  lemma SegmentRange(s: State, s': State, p: nat, start: nat, frames: seq<nat>, elfFlags: nat, previous: seq<nat>)
    requires LeavesLoaded(s, s', p, start, frames, PageFlags(elfFlags), previous)
    ensures forall j: nat | j < |frames| && FirstOf(start, j) ::
              SegmentPage(s, s', p, PageAt(start, j), frames[j], elfFlags, frames[..j] + previous)
    ensures forall j: nat | j < |frames| :: SegmentRights(s', p, PageAt(start, j), elfFlags)
  {
    forall j: nat | j < |frames| && FirstOf(start, j)
      ensures SegmentPage(s, s', p, PageAt(start, j), frames[j], elfFlags, frames[..j] + previous)
    {
      SegmentLoaded(s, s', p, PageAt(start, j), frames[j], elfFlags, frames[..j] + previous);
    }
    forall j: nat | j < |frames| ensures SegmentRights(s', p, PageAt(start, j), elfFlags) {
      assert RangePage(start, |frames|, PageAt(start, j));
      var i := FirstIndex(start, |frames|, PageAt(start, j));
      SegmentLoaded(s, s', p, PageAt(start, i), frames[i], elfFlags, frames[..i] + previous);
    }
  }
}

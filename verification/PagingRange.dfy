/** What mapping a range of pages leaves behind, and which pages user code can then reach. */
module PagingRange {
  import opened Options
  import opened PageTables
  import opened PagingSteps
  import opened PagingHooks
  import opened PagingMap

  function PageAt(start: nat, j: nat): (page: seq<nat>)
    ensures IsPage(page)
  {
    PageOf(start + j * 4096)
  }

  /** The page is one of the first k pages of the range. */
  predicate RangePage(start: nat, k: nat, page: seq<nat>) {
    exists j: nat | j < k :: PageAt(start, j) == page
  }

  /** No later page of the range has the same indices. */
  ghost predicate LastOf(start: nat, j: nat, k: nat) {
    forall i: nat | j < i < k :: PageAt(start, i) != PageAt(start, j)
  }

  /** Below 2^36 pages the range does not wrap onto itself. */
  lemma RangeDistinct(start: nat, j: nat, k: nat)
    requires j < k <= 0x10_0000_0000
    ensures LastOf(start, j, k)
  {
    forall i: nat | j < i < k ensures PageAt(start, i) != PageAt(start, j) {
      PageOfPeriod(start + i * 4096, start + j * 4096);
      PageNumber(start, i);
      PageNumber(start, j);
      ModApart(start / 4096, i, j);
    }
  }

  lemma PageNumber(start: nat, i: nat)
    ensures (start + i * 4096) / 4096 == start / 4096 + i
  {
  }

  lemma ModApart(s: nat, i: nat, j: nat)
    requires j < i < j + 0x10_0000_0000
    ensures (s + i) % 0x10_0000_0000 != (s + j) % 0x10_0000_0000
  {
    var q, q' := (s + i) / 0x10_0000_0000, (s + j) / 0x10_0000_0000;
    assert (s + i) - (s + j) == (q - q') * 0x10_0000_0000 + ((s + i) % 0x10_0000_0000 - (s + j) % 0x10_0000_0000);
  }

  lemma {:induction false} LastIndex(start: nat, k: nat, page: seq<nat>) returns (j: nat)
    requires RangePage(start, k, page)
    ensures j < k && PageAt(start, j) == page && LastOf(start, j, k)
    decreases k
  {
    if PageAt(start, k - 1) == page { return k - 1; }
    assert RangePage(start, k - 1, page);
    j := LastIndex(start, k - 1, page);
  }

  // ---------------------------------------------------------------
  // A mapped range
  // ---------------------------------------------------------------

  /** The frames were free, differ from each other, are in no page table and hold zeroes. */
  ghost predicate FramesFresh(s: State, s': State, frames: seq<nat>) {
    && (forall j | 0 <= j < |frames| :: frames[j] in s.free && Fresh(s', frames[j]) && IsZero(s'.mem[frames[j]]))
    && (forall i, j | 0 <= i < j < |frames| :: frames[i] != frames[j])
  }

  ghost predicate OutsideSame(s: State, s': State, p: nat, start: nat, k: nat) {
    forall page | IsPage(page) && !RangePage(start, k, page) :: Same(Trans(s, p, page), Trans(s', p, page))
  }

  /** Each page translates to its frame, with the leaf flags, below entries marked USER. */
  ghost predicate InsideMapped(s': State, p: nat, start: nat, frames: seq<nat>, flags: set<Flag>) {
    forall j: nat | j < |frames| && LastOf(start, j, |frames|) ::
      Node(p, PageAt(start, j)[..3]) in s'.owned
      && Trans(s', p, PageAt(start, j)) == Some(Leaf(frames[j], flags, true, true, 3))
  }

  ghost predicate RangeMapped(s: State, s': State, p: nat, start: nat, frames: seq<nat>, flags: set<Flag>) {
    && Inv(s') && Confined(s, s', p) && FramesFresh(s, s', frames) && Spent(s, s', Elements(frames)) == true
    && OutsideSame(s, s', p, start, |frames|) && InsideMapped(s', p, start, frames, flags)
  }

  lemma FreshKept(s: State, s': State, p: nat, f: nat)
    requires Inv(s) && Inv(s') && Confined(s, s', p) && Fresh(s, f)
    ensures Fresh(s', f) && s'.mem[f] == s.mem[f]
  {
    assert !OwnedBy(s, p, f);
    forall n | n in s'.owned ensures s'.owned[n] != f {
      if n.proc == p && s'.owned[n] == f { assert OwnedBy(s', p, f); }
    }
  }

  lemma FramesGrow(s: State, s1: State, s2: State, p: nat, frames: seq<nat>, f: nat)
    requires Inv(s1) && Inv(s2) && Confined(s1, s2, p) && s1.free <= s.free && FramesFresh(s, s1, frames)
    requires f in s1.free && Fresh(s2, f) && IsZero(s2.mem[f])
    ensures FramesFresh(s, s2, frames + [f])
  {
    var all := frames + [f];
    forall j | 0 <= j < |all| ensures all[j] in s.free && Fresh(s2, all[j]) && IsZero(s2.mem[all[j]]) {
      if j < |frames| { FreshKept(s1, s2, p, frames[j]); }
    }
  }

  lemma OutsideGrow(s: State, s1: State, s2: State, p: nat, start: nat, k: nat)
    requires OutsideSame(s, s1, p, start, k)
    requires forall other | IsPage(other) && other != PageAt(start, k) :: Same(Trans(s1, p, other), Trans(s2, p, other))
    ensures OutsideSame(s, s2, p, start, k + 1)
  {
    forall page | IsPage(page) && !RangePage(start, k + 1, page) ensures Same(Trans(s, p, page), Trans(s2, p, page)) {
      assert page != PageAt(start, k);
      assert !RangePage(start, k, page);
      assert Same(Trans(s, p, page), Trans(s1, p, page)) && Same(Trans(s1, p, page), Trans(s2, p, page));
    }
  }

  lemma InsideGrow(s1: State, s2: State, p: nat, start: nat, frames: seq<nat>, flags: set<Flag>, f: nat)
    requires InsideMapped(s1, p, start, frames, flags) && User in flags
    requires Node(p, PageAt(start, |frames|)[..3]) in s2.owned && (forall n | n in s1.owned :: n in s2.owned)
    requires Trans(s2, p, PageAt(start, |frames|)) == Some(Leaf(f, flags, true, true, 3))
    requires forall other | IsPage(other) && other != PageAt(start, |frames|) ::
               Same(Trans(s1, p, other), Trans(s2, p, other))
    ensures InsideMapped(s2, p, start, frames + [f], flags)
  {
    var all := frames + [f];
    forall j: nat | j < |all| && LastOf(start, j, |all|)
      ensures Node(p, PageAt(start, j)[..3]) in s2.owned
      ensures Trans(s2, p, PageAt(start, j)) == Some(Leaf(all[j], flags, true, true, 3))
    {
      if j < |frames| {
        LastBefore(start, j, |frames|);
        assert Node(p, PageAt(start, j)[..3]) in s1.owned;
        SameLeafTrans(s1, s2, p, PageAt(start, j), frames[j], flags);
      }
    }
  }

  /** A user page that is reached stays as it is under the same translations. */
  lemma SameLeafTrans(s1: State, s2: State, p: nat, page: seq<nat>, f: nat, flags: set<Flag>)
    requires IsPage(page) && Trans(s1, p, page) == Some(Leaf(f, flags, true, true, 3)) && User in flags
    requires Same(Trans(s1, p, page), Trans(s2, p, page))
    ensures Trans(s2, p, page) == Some(Leaf(f, flags, true, true, 3))
  {
  }

  lemma LastBefore(start: nat, j: nat, n: nat)
    requires j < n && LastOf(start, j, n + 1)
    ensures LastOf(start, j, n) && PageAt(start, j) != PageAt(start, n)
  {
    assert PageAt(start, n) != PageAt(start, j);
  }

  lemma SpentGrow(s: State, s1: State, s2: State, p: nat, frames: seq<nat>, f: nat)
    requires Inv(s) && Confined(s, s1, p) && Spent(s, s1, Elements(frames)) && Spent(s1, s2, {f})
    ensures Spent(s, s2, Elements(frames + [f]))
  {
    SpentTrans(s, s1, s2, p, Elements(frames), {f});
    assert Elements(frames + [f]) == Elements(frames) + {f};
  }

  lemma RangeEmpty(s: State, p: nat, start: nat, flags: set<Flag>)
    requires Inv(s)
    ensures RangeMapped(s, s, p, start, [], flags)
  {
    assert Elements([]) == {};
  }

  /** One more page of the range. */
  lemma RangeGrow(s: State, s1: State, s2: State, p: nat, start: nat, frames: seq<nat>, flags: set<Flag>, f: nat)
    requires Inv(s) && RangeMapped(s, s1, p, start, frames, flags) && User in flags
    requires PageMapped(s1, s2, p, PageAt(start, |frames|), f, flags)
    ensures RangeMapped(s, s2, p, start, frames + [f], flags)
  {
    ConfinedTrans(s, s1, s2, p);
    SpentGrow(s, s1, s2, p, frames, f);
    FramesGrow(s, s1, s2, p, frames, f);
    OutsideGrow(s, s1, s2, p, start, |frames|);
    InsideGrow(s1, s2, p, start, frames, flags, f);
  }

  // ---------------------------------------------------------------
  // User reachability
  // ---------------------------------------------------------------

  /** USER on every entry of the walk. */
  predicate Reach(s: State, p: nat, page: seq<nat>)
    requires IsPage(page)
  {
    Trans(s, p, page).Some? && User in Trans(s, p, page).value.flags && Trans(s, p, page).value.path
  }

  /** A leaf marked USER sits below entries marked USER. */
  ghost predicate UserLeavesReached(s: State, p: nat) {
    forall page | IsPage(page) && Trans(s, p, page).Some? && User in Trans(s, p, page).value.flags :: Reach(s, p, page)
  }

  /** Exactly the mapped pages become user-reachable. */
  lemma ReachAfterMap(s: State, s': State, p: nat, start: nat, frames: seq<nat>, flags: set<Flag>, page: seq<nat>)
    requires RangeMapped(s, s', p, start, frames, flags) && User in flags && UserLeavesReached(s, p) && IsPage(page)
    ensures Reach(s', p, page) <==> Reach(s, p, page) || RangePage(start, |frames|, page)
    ensures Trans(s', p, page).Some? && User in Trans(s', p, page).value.flags ==> Reach(s', p, page)
  {
    if RangePage(start, |frames|, page) {
      var j := LastIndex(start, |frames|, page);
      assert Trans(s', p, PageAt(start, j)) == Some(Leaf(frames[j], flags, true, true, 3));
    } else {
      assert Same(Trans(s, p, page), Trans(s', p, page));
    }
  }

  lemma UserLeavesKept(s: State, s': State, p: nat, start: nat, frames: seq<nat>, flags: set<Flag>)
    requires RangeMapped(s, s', p, start, frames, flags) && User in flags && UserLeavesReached(s, p)
    ensures UserLeavesReached(s', p)
  {
    forall page | IsPage(page) && Trans(s', p, page).Some? && User in Trans(s', p, page).value.flags
      ensures Reach(s', p, page)
    {
      ReachAfterMap(s, s', p, start, frames, flags, page);
    }
  }
}

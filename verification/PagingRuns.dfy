/** What whole runs of the paging operations keep: kernel tables, other processes, data frames, user reach. */
module PagingRuns {
  import opened Options
  import opened PageTables
  import opened PagingSteps
  import opened PagingHooks
  import opened PagingMap
  import opened PagingRange
  import opened PagingLife
  import opened PagingDestroy
  import opened PagingUser
  import opened PagingElf
  import opened PagingUnmap

  // ---------------------------------------------------------------
  // The kernel
  // ---------------------------------------------------------------

  /** The kernel's tables are entry by entry the same. */
  ghost predicate KernelKept(s: State, s': State) {
    && s'.root == s.root && s'.kernel == s.kernel
    && forall t | t in s.kernel :: t in s.mem && t in s'.mem && s'.mem[t] == s.mem[t]
  }

  lemma ConfinedKernel(s: State, s': State, p: nat)
    requires Inv(s) && Confined(s, s', p)
    ensures KernelKept(s, s')
  {
    assert forall t | t in s.kernel :: IsTable(s.mem, t);
    ConfinedIsolates(s, s', p);
  }

  lemma {:induction false} KernelWalk(s: State, s': State, q: Path, t: nat, page: seq<nat>)
    requires KernelOk(s) && KernelKept(s, s') && IsPath(q) && IsPage(page)
    requires KernelTable(s.mem, s.root, q) == Some(t)
    ensures Walk(s'.mem, t, |q|, page) == Walk(s.mem, t, |q|, page)
    decreases 3 - |q|
  {
    assert t in s.kernel;
    var e := s.mem[t][page[|q|]];
    if |q| < 3 && Link(e) {
      KernelChild(s, q, page[|q|]);
      KernelWalk(s, s', q + [page[|q|]], e.addr, page);
    }
  }

  /** No leaf of the kernel's tables is marked USER. */
  ghost predicate KernelPrivate(s: State) {
    forall page | IsPage(page) && Walk(s.mem, s.root, 0, page).Some? ::
      User !in Walk(s.mem, s.root, 0, page).value.flags
  }

  lemma PrivateKept(s: State, s': State)
    requires KernelOk(s) && KernelKept(s, s')
    ensures KernelPrivate(s') <==> KernelPrivate(s)
  {
    forall page | IsPage(page) ensures Walk(s'.mem, s'.root, 0, page) == Walk(s.mem, s.root, 0, page) {
      KernelWalk(s, s', [], s.root, page);
    }
  }

  // ---------------------------------------------------------------
  // Other processes
  // ---------------------------------------------------------------

  ghost predicate SeesSame(s: State, s': State, q: nat) {
    Node(q, []) in s'.owned && forall page | IsPage(page) :: Trans(s', q, page) == Trans(s, q, page)
  }

  /** Every process that is not named lives on and sees the same. */
  ghost predicate OthersSame(s: State, s': State, named: set<nat>) {
    forall q | q !in named && Node(q, []) in s.owned :: SeesSame(s, s', q)
  }

  lemma ConfinedOthersSame(s: State, s': State, p: nat)
    requires Inv(s) && Confined(s, s', p)
    ensures OthersSame(s, s', {p})
  {
    forall q | q !in {p} && Node(q, []) in s.owned ensures SeesSame(s, s', q) {
      forall page | IsPage(page) ensures Trans(s', q, page) == Trans(s, q, page) { ConfinedOthers(s, s', p, q, page); }
    }
  }

  lemma OthersSameTrans(s: State, s': State, s'': State, a: set<nat>, b: set<nat>)
    requires OthersSame(s, s', a) && OthersSame(s', s'', b)
    ensures OthersSame(s, s'', a + b)
  {
    forall q | q !in a + b && Node(q, []) in s.owned ensures SeesSame(s, s'', q) {
      assert SeesSame(s, s', q) && SeesSame(s', s'', q);
    }
  }

  // ---------------------------------------------------------------
  // Data frames
  // ---------------------------------------------------------------

  datatype Place = Place(proc: nat, page: seq<nat>)

  /** The page is served by an L1 table of its process and backed by f, which is in no page table. */
  ghost predicate Backed(s: State, k: Place, f: nat) {
    && IsPage(k.page) && L1(k.proc, k.page) in s.owned && Fresh(s, f)
    && Trans(s, k.proc, k.page).Some? && Trans(s, k.proc, k.page).value.addr == f
  }

  /** The noted pages are backed by their noted frames, which all differ. */
  ghost predicate DataOk(s: State, data: map<Place, nat>) {
    && (forall k | k in data :: Backed(s, k, data[k]))
    && (forall k, l | k in data && l in data && data[k] == data[l] :: k == l)
  }

  /** A step of p keeps the pages of other processes, and those of p whose address did not change. */
  lemma BackedKept(s: State, s': State, p: nat, k: Place, f: nat)
    requires Inv(s) && Inv(s') && Confined(s, s', p) && Backed(s, k, f)
    requires k.proc == p ==> Trans(s', p, k.page).Some? && Trans(s', p, k.page).value.addr == f
    ensures Backed(s', k, f)
  {
    FreshKept(s, s', p, f);
    if k.proc != p {
      RootOwned(s, L1(k.proc, k.page));
      ConfinedOthers(s, s', p, k.proc, k.page);
    }
  }

  /** Notes the frames of a mapped range, later pages last. */
  function Noted(data: map<Place, nat>, p: nat, start: nat, frames: seq<nat>): map<Place, nat> {
    if frames == [] then data else
      var n := |frames| - 1;
      Noted(data, p, start, frames[..n])[Place(p, PageAt(start, n)) := frames[n]]
  }

  ghost predicate InRange(p: nat, start: nat, count: nat, k: Place) {
    k.proc == p && RangePage(start, count, k.page)
  }

  lemma {:induction false} NotedOutside(data: map<Place, nat>, p: nat, start: nat, frames: seq<nat>, k: Place)
    requires !InRange(p, start, |frames|, k)
    ensures k in Noted(data, p, start, frames) <==> k in data
    ensures k in data ==> Noted(data, p, start, frames)[k] == data[k]
    decreases |frames|
  {
    if frames != [] {
      var n := |frames| - 1;
      assert !InRange(p, start, n, k);
      assert k != Place(p, PageAt(start, n));
      NotedOutside(data, p, start, frames[..n], k);
    }
  }

  lemma {:induction false} NotedInside(data: map<Place, nat>, p: nat, start: nat, frames: seq<nat>, k: Place)
    returns (j: nat)
    requires InRange(p, start, |frames|, k)
    ensures j < |frames| && PageAt(start, j) == k.page && LastOf(start, j, |frames|)
    ensures k in Noted(data, p, start, frames) && Noted(data, p, start, frames)[k] == frames[j]
    decreases |frames|
  {
    var n := |frames| - 1;
    if k.page == PageAt(start, n) { return n; }
    assert RangePage(start, n, k.page);
    j := NotedInside(data, p, start, frames[..n], k);
  }

  lemma MappedBacked(s: State, s': State, data: map<Place, nat>, data': map<Place, nat>, p: nat, start: nat,
                     frames: seq<nat>, flags: set<Flag>, k: Place)
    requires Inv(s) && DataOk(s, data) && RangeMapped(s, s', p, start, frames, flags)
    requires data' == Noted(data, p, start, frames) && k in data'
    ensures Backed(s', k, data'[k])
    ensures InRange(p, start, |frames|, k) <==> data'[k] in s.free
  {
    if InRange(p, start, |frames|, k) {
      var j := NotedInside(data, p, start, frames, k);
      assert Trans(s', p, PageAt(start, j)) == Some(Leaf(frames[j], flags, true, true, 3));
    } else {
      NotedOutside(data, p, start, frames, k);
      OutsideBacked(s, s', p, start, |frames|, k, data'[k]);
    }
  }

  lemma OutsideBacked(s: State, s': State, p: nat, start: nat, count: nat, k: Place, f: nat)
    requires Inv(s) && Inv(s') && Confined(s, s', p) && OutsideSame(s, s', p, start, count) && Backed(s, k, f)
    requires !InRange(p, start, count, k)
    ensures Backed(s', k, f)
  {
    if k.proc == p { assert Same(Trans(s, p, k.page), Trans(s', p, k.page)); }
    BackedKept(s, s', p, k, f);
  }

  lemma NotedDiffer(s: State, s': State, data: map<Place, nat>, p: nat, start: nat, frames: seq<nat>, k: Place,
                    l: Place)
    requires FramesFresh(s, s', frames) && InRange(p, start, |frames|, k) && InRange(p, start, |frames|, l) && k != l
    ensures k in Noted(data, p, start, frames) && l in Noted(data, p, start, frames)
    ensures Noted(data, p, start, frames)[k] != Noted(data, p, start, frames)[l]
  {
    var i := NotedInside(data, p, start, frames, k);
    var j := NotedInside(data, p, start, frames, l);
    assert i != j;
  }

  /** Mapping a range adds its pages to the noted ones. */
  lemma MapData(s: State, s': State, data: map<Place, nat>, p: nat, start: nat, frames: seq<nat>, flags: set<Flag>)
    requires Inv(s) && DataOk(s, data) && RangeMapped(s, s', p, start, frames, flags)
    ensures DataOk(s', Noted(data, p, start, frames))
  {
    var data' := Noted(data, p, start, frames);
    forall k | k in data'
      ensures Backed(s', k, data'[k]) && (InRange(p, start, |frames|, k) <==> data'[k] in s.free)
    {
      MappedBacked(s, s', data, data', p, start, frames, flags, k);
    }
    forall k, l | k in data' && l in data' && data'[k] == data'[l] ensures k == l {
      if InRange(p, start, |frames|, k) {
        if k != l { NotedDiffer(s, s', data, p, start, frames, k, l); }
      } else {
        NotedOutside(data, p, start, frames, k);
        NotedOutside(data, p, start, frames, l);
      }
    }
  }

  /** The noted pages without those of a range. */
  function Dropped(data: map<Place, nat>, p: nat, start: nat, count: nat): map<Place, nat> {
    map k | k in data && !(k.proc == p && RangePage(start, count, k.page)) :: data[k]
  }

  lemma LoadData(s: State, s': State, data: map<Place, nat>, p: nat, start: nat, count: nat)
    requires Inv(s) && Inv(s') && Confined(s, s', p) && OutsideSame(s, s', p, start, count) && DataOk(s, data)
    ensures DataOk(s', Dropped(data, p, start, count))
  {
    forall k | k in Dropped(data, p, start, count) ensures Backed(s', k, data[k]) {
      assert Backed(s, k, data[k]);
      OutsideBacked(s, s', p, start, count, k, data[k]);
    }
  }

  lemma MarkData(s: State, s': State, data: map<Place, nat>, p: nat)
    requires Inv(s) && Widened(s, s', p) && DataOk(s, data)
    ensures DataOk(s', data)
  {
    forall k | k in data ensures Backed(s', k, data[k]) {
      assert Backed(s, k, data[k]);
      assert Grows(Trans(s, p, k.page), Trans(s', p, k.page));
      BackedKept(s, s', p, k, data[k]);
    }
  }

  /** Every page of the range is noted. */
  predicate AllNoted(data: map<Place, nat>, p: nat, start: nat, count: nat) {
    forall j: nat | j < count :: Place(p, PageAt(start, j)) in data
  }

  lemma NotedUnmappable(s: State, data: map<Place, nat>, p: nat, start: nat, count: nat)
    requires DataOk(s, data) && AllNoted(data, p, start, count)
    ensures Unmappable(s, p, start, count)
  {
    forall j: nat | j < count
      ensures L1(p, PageAt(start, j)) in s.owned && Trans(s, p, PageAt(start, j)).Some?
      ensures Fresh(s, Trans(s, p, PageAt(start, j)).value.addr)
    {
      assert Backed(s, Place(p, PageAt(start, j)), data[Place(p, PageAt(start, j))]);
    }
    forall i: nat, j: nat | i < count && j < count && PageAt(start, i) != PageAt(start, j)
      ensures FramesDiffer(s, p, start, i, j)
    {
      var k, l := Place(p, PageAt(start, i)), Place(p, PageAt(start, j));
      assert Backed(s, k, data[k]) && Backed(s, l, data[l]);
    }
  }

  /** A frame outside the range's is not given back. */
  lemma NotReleased(s: State, data: map<Place, nat>, p: nat, start: nat, count: nat, frames: seq<nat>, k: Place)
    requires DataOk(s, data) && AllNoted(data, p, start, count) && Lists(s, p, start, count, frames)
    requires k in data && !InRange(p, start, count, k)
    ensures data[k] !in frames
  {
    forall j: nat | j < count && Trans(s, p, PageAt(start, j)).Some?
      ensures Trans(s, p, PageAt(start, j)).value.addr != data[k]
    {
      var l := Place(p, PageAt(start, j));
      assert Backed(s, l, data[l]);
      assert l != k;
    }
  }

  lemma UnmapBacked(s: State, s': State, data: map<Place, nat>, p: nat, start: nat, count: nat, frames: seq<nat>,
                    k: Place)
    requires Inv(s) && DataOk(s, data) && AllNoted(data, p, start, count)
    requires Unmapped(s, s', p, start, count, frames) && Inv(s'.(free := s.free))
    requires k in data && !InRange(p, start, count, k)
    ensures Backed(s', k, data[k])
  {
    NotReleased(s, data, p, start, count, frames, k);
    assert Backed(s, k, data[k]);
    if k.proc == p { assert Same(Trans(s, p, k.page), Trans(s', p, k.page)); }
    BackedKept(s, s'.(free := s.free), p, k, data[k]);
  }

  /** Freeing fewer frames keeps the invariant. */
  lemma LessFree(s: State, free: set<nat>)
    requires Inv(s) && free <= s.free
    ensures Inv(s.(free := free))
  {
    var s' := s.(free := free);
    assert forall n, i: nat :: EntryOf(s', n, i) == EntryOf(s, n, i);
    forall n, i: nat | n in s'.owned && |n.path| < 3 && Link(EntryOf(s', n, i))
      ensures TableAt(s', Child(n, i), EntryOf(s', n, i).addr)
    {
      assert TableAt(s, Child(n, i), EntryOf(s, n, i).addr);
    }
  }

  lemma UnmapData(s: State, s': State, data: map<Place, nat>, p: nat, start: nat, count: nat, frames: seq<nat>)
    requires Inv(s) && DataOk(s, data) && AllNoted(data, p, start, count) && Unmapped(s, s', p, start, count, frames)
    ensures DataOk(s', Dropped(data, p, start, count))
  {
    LessFree(s', s.free);
    forall k | k in Dropped(data, p, start, count) ensures Backed(s', k, data[k]) {
      UnmapBacked(s, s', data, p, start, count, frames, k);
    }
  }

  lemma CreateData(s: State, f: nat, data: map<Place, nat>)
    requires Inv(s) && f in s.free && DataOk(s, data)
    ensures DataOk(Created(s, f), data)
  {
    CreatedOk(s, f);
    forall k | k in data ensures Backed(Created(s, f), k, data[k]) {
      assert Backed(s, k, data[k]);
      RootOwned(s, L1(k.proc, k.page));
      CreatedOthers(s, f, k.proc, k.page);
    }
  }

  /** The noted pages without those of a process. */
  function Gone(data: map<Place, nat>, p: nat): map<Place, nat> {
    map k | k in data && k.proc != p :: data[k]
  }

  lemma DestroyData(s: State, p: nat, data: map<Place, nat>)
    requires Inv(s) && DataOk(s, data)
    ensures DataOk(Destroyed(s, p), Gone(data, p))
  {
    forall k | k in Gone(data, p) ensures Backed(Destroyed(s, p), k, data[k]) {
      assert Backed(s, k, data[k]);
    }
  }

  // ---------------------------------------------------------------
  // User reach
  // ---------------------------------------------------------------

  /** User code of p reaches exactly these pages, and no USER leaf waits below an entry without USER. */
  ghost predicate ReachIs(s: State, p: nat, pages: iset<seq<nat>>) {
    && UserLeavesReached(s, p)
    && (forall page | IsPage(page) :: Reach(s, p, page) <==> page in pages)
  }

  ghost function RangePages(start: nat, count: nat): iset<seq<nat>> {
    iset page | IsPage(page) && RangePage(start, count, page)
  }

  lemma MapReach(s: State, s': State, p: nat, start: nat, frames: seq<nat>, flags: set<Flag>, pages: iset<seq<nat>>)
    requires RangeMapped(s, s', p, start, frames, flags) && User in flags && ReachIs(s, p, pages)
    ensures ReachIs(s', p, pages + RangePages(start, |frames|))
  {
    UserLeavesKept(s, s', p, start, frames, flags);
    forall page | IsPage(page)
      ensures Reach(s', p, page) <==> page in pages + RangePages(start, |frames|)
    {
      ReachAfterMap(s, s', p, start, frames, flags, page);
    }
  }

  lemma LoadReachPage(s: State, s': State, p: nat, start: nat, frames: seq<nat>, page: seq<nat>)
    requires RangeLoaded(s, s', p, start, frames) && UserLeavesReached(s, p) && IsPage(page)
    ensures Reach(s', p, page) <==> Reach(s, p, page) || RangePage(start, |frames|, page)
    ensures Trans(s', p, page).Some? && User in Trans(s', p, page).value.flags ==> Reach(s', p, page)
  {
    if RangePage(start, |frames|, page) {
      var j := LastIndex(start, |frames|, page);
      assert Reach(s', p, PageAt(start, j));
    } else {
      assert Same(Trans(s, p, page), Trans(s', p, page));
    }
  }

  lemma LoadReach(s: State, s': State, p: nat, start: nat, frames: seq<nat>, pages: iset<seq<nat>>)
    requires RangeLoaded(s, s', p, start, frames) && ReachIs(s, p, pages)
    ensures ReachIs(s', p, pages + RangePages(start, |frames|))
  {
    forall page | IsPage(page)
      ensures Reach(s', p, page) <==> page in pages + RangePages(start, |frames|)
      ensures Trans(s', p, page).Some? && User in Trans(s', p, page).value.flags ==> Reach(s', p, page)
    {
      LoadReachPage(s, s', p, start, frames, page);
    }
  }

  lemma UnmapReachPage(s: State, s': State, p: nat, start: nat, count: nat, page: seq<nat>)
    requires OutsideSame(s, s', p, start, count) && Cleared(s', p, start, count) && UserLeavesReached(s, p)
    requires IsPage(page)
    ensures Reach(s', p, page) <==> Reach(s, p, page) && !RangePage(start, count, page)
    ensures Trans(s', p, page).Some? && User in Trans(s', p, page).value.flags ==> Reach(s', p, page)
  {
    if RangePage(start, count, page) {
      var j: nat :| j < count && PageAt(start, j) == page;
      assert Trans(s', p, PageAt(start, j)).None?;
    } else {
      assert Same(Trans(s, p, page), Trans(s', p, page));
    }
  }

  lemma UnmapReach(s: State, s': State, p: nat, start: nat, count: nat, pages: iset<seq<nat>>)
    requires OutsideSame(s, s', p, start, count) && Cleared(s', p, start, count) && ReachIs(s, p, pages)
    ensures ReachIs(s', p, pages - RangePages(start, count))
  {
    forall page | IsPage(page)
      ensures Reach(s', p, page) <==> page in pages - RangePages(start, count)
      ensures Trans(s', p, page).Some? && User in Trans(s', p, page).value.flags ==> Reach(s', p, page)
    {
      UnmapReachPage(s, s', p, start, count, page);
    }
  }

  /** A new process reaches nothing. */
  lemma CreateReach(s: State, f: nat)
    requires Inv(s) && f in s.free && KernelPrivate(s)
    ensures ReachIs(Created(s, f), f, iset{})
  {
    forall page | IsPage(page)
      ensures !Reach(Created(s, f), f, page)
      ensures Trans(Created(s, f), f, page).Some? ==> User !in Trans(Created(s, f), f, page).value.flags
    {
      CreatedSeesKernel(s, f, page);
    }
  }

  lemma SeesReach(s: State, s': State, q: nat, pages: iset<seq<nat>>)
    requires ReachIs(s, q, pages) && SeesSame(s, s', q)
    ensures ReachIs(s', q, pages)
  {
    forall page | IsPage(page)
      ensures Reach(s', q, page) <==> page in pages
      ensures Trans(s', q, page).Some? && User in Trans(s', q, page).value.flags ==> Reach(s', q, page)
    {
      assert Trans(s', q, page) == Trans(s, q, page);
    }
  }

  /** For some processes, the pages that user code reaches. */
  ghost predicate ReachOk(s: State, reach: map<nat, iset<seq<nat>>>) {
    forall p | p in reach :: Node(p, []) in s.owned && ReachIs(s, p, reach[p])
  }

  /** The named process gets a new entry or none; the others keep theirs. */
  lemma ReachStep(s: State, s': State, p: nat, reach: map<nat, iset<seq<nat>>>, reach': map<nat, iset<seq<nat>>>)
    requires ReachOk(s, reach) && OthersSame(s, s', {p})
    requires forall q | q in reach' && q != p :: q in reach && reach'[q] == reach[q]
    requires p in reach' ==> Node(p, []) in s'.owned && ReachIs(s', p, reach'[p])
    ensures ReachOk(s', reach')
  {
    forall q | q in reach' ensures Node(q, []) in s'.owned && ReachIs(s', q, reach'[q]) {
      if q != p {
        assert SeesSame(s, s', q);
        SeesReach(s, s', q, reach[q]);
      }
    }
  }

  // ---------------------------------------------------------------
  // Living processes
  // ---------------------------------------------------------------

  ghost predicate LiveOk(s: State, live: set<nat>) {
    forall p :: p in live <==> Node(p, []) in s.owned
  }

  lemma ConfinedLive(s: State, s': State, p: nat, live: set<nat>)
    requires Inv(s) && Confined(s, s', p) && LiveOk(s, live) && p in live
    ensures LiveOk(s', live)
  {
  }

  lemma CreateOthers(s: State, f: nat)
    requires Inv(s) && f in s.free
    ensures OthersSame(s, Created(s, f), {}) && KernelKept(s, Created(s, f))
  {
    CreatedOk(s, f);
    assert forall t | t in s.kernel :: IsTable(s.mem, t);
    forall q | Node(q, []) in s.owned ensures SeesSame(s, Created(s, f), q) {
      forall page | IsPage(page) ensures Trans(Created(s, f), q, page) == Trans(s, q, page) {
        CreatedOthers(s, f, q, page);
      }
    }
  }

  lemma DestroyOthers(s: State, p: nat)
    requires Inv(s)
    ensures OthersSame(s, Destroyed(s, p), {p}) && KernelKept(s, Destroyed(s, p))
  {
    assert forall t | t in s.kernel :: IsTable(s.mem, t);
  }

  /** Everything a run keeps account of. */
  ghost predicate Accounts(s: State, live: set<nat>, data: map<Place, nat>, reach: map<nat, iset<seq<nat>>>) {
    Inv(s) && LiveOk(s, live) && DataOk(s, data) && ReachOk(s, reach)
  }

  /** What a step keeps whatever comes of it: the kernel's tables and the processes that are not named. */
  ghost predicate StepSafe(s: State, s': State, named: set<nat>) {
    Inv(s') && KernelKept(s, s') && OthersSame(s, s', named)
  }

  lemma ConfinedSafe(s: State, s': State, p: nat)
    requires Inv(s) && Inv(s') && Confined(s, s', p)
    ensures StepSafe(s, s', {p})
  {
    ConfinedKernel(s, s', p);
    ConfinedOthersSame(s, s', p);
  }

  lemma SafeTrans(s: State, s': State, s'': State, a: set<nat>, b: set<nat>)
    requires StepSafe(s, s', a) && StepSafe(s', s'', b)
    ensures StepSafe(s, s'', a + b)
  {
    OthersSameTrans(s, s', s'', a, b);
  }
}

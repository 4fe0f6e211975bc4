/** The physical frame allocator: one buddy region per usable memory region. */
module BuddyFrames {
  import opened Options
  import opened Dyadic
  import opened BuddyTheory
  import opened BuddyTables
  import opened BuddyRegion

  datatype MemoryRegion = MemoryRegion(start: nat, pageCount: nat)

  // ---------------------------------------------------------------
  // sort_by_key(start)
  // ---------------------------------------------------------------

  predicate SortedByStart(s: seq<MemoryRegion>) {
    forall i, j | 0 <= i < j < |s| :: s[i].start <= s[j].start
  }

  function InsertByStart(s: seq<MemoryRegion>, r: MemoryRegion): seq<MemoryRegion> {
    if s == [] || s[|s| - 1].start <= r.start then s + [r]
    else InsertByStart(s[..|s| - 1], r) + [s[|s| - 1]]
  }

  function SortByStart(s: seq<MemoryRegion>): seq<MemoryRegion> {
    if s == [] then [] else InsertByStart(SortByStart(s[..|s| - 1]), s[|s| - 1])
  }

  lemma {:induction false} InsertKeeps(s: seq<MemoryRegion>, r: MemoryRegion)
    ensures multiset(InsertByStart(s, r)) == multiset(s) + multiset{r}
  {
    if s != [] && s[|s| - 1].start > r.start {
      var n := |s| - 1;
      InsertKeeps(s[..n], r);
      assert s == s[..n] + [s[n]];
      assert multiset(s) == multiset(s[..n]) + multiset([s[n]]);
      assert multiset(InsertByStart(s, r)) == multiset(InsertByStart(s[..n], r)) + multiset([s[n]]);
    }
  }

  lemma {:induction false} InsertSorts(s: seq<MemoryRegion>, r: MemoryRegion, bound: nat)
    requires SortedByStart(s) && r.start <= bound && forall i | 0 <= i < |s| :: s[i].start <= bound
    ensures SortedByStart(InsertByStart(s, r))
    ensures forall i | 0 <= i < |InsertByStart(s, r)| :: InsertByStart(s, r)[i].start <= bound
  {
    if s != [] && s[|s| - 1].start > r.start {
      InsertSorts(s[..|s| - 1], r, s[|s| - 1].start);
    }
  }

  lemma {:induction false} SortSorts(s: seq<MemoryRegion>, bound: nat)
    requires forall i | 0 <= i < |s| :: s[i].start <= bound
    ensures SortedByStart(SortByStart(s))
    ensures forall i | 0 <= i < |SortByStart(s)| :: SortByStart(s)[i].start <= bound
  {
    if s != [] {
      SortSorts(s[..|s| - 1], bound);
      InsertSorts(SortByStart(s[..|s| - 1]), s[|s| - 1], bound);
    }
  }

  lemma {:induction false} SortKeeps(s: seq<MemoryRegion>)
    ensures multiset(SortByStart(s)) == multiset(s)
  {
    if s != [] {
      var n := |s| - 1;
      SortKeeps(s[..n]);
      InsertKeeps(SortByStart(s[..n]), s[n]);
      assert s == s[..n] + [s[n]];
      assert multiset(s) == multiset(s[..n]) + multiset([s[n]]);
    }
  }

  predicate Apart(a: MemoryRegion, b: MemoryRegion) {
    End(a.start, a.pageCount) <= b.start || End(b.start, b.pageCount) <= a.start
  }

  predicate Whole(r: MemoryRegion) {
    r.pageCount > 0 && r.start % 4096 == 0
  }

  /** Page-aligned, non-empty, pairwise non-overlapping regions. */
  predicate Usable(s: seq<MemoryRegion>) {
    && (forall i | 0 <= i < |s| :: Whole(s[i]))
    && (forall i, j | 0 <= i < j < |s| :: Apart(s[i], s[j]))
  }

  predicate ApartFromAll(s: seq<MemoryRegion>, r: MemoryRegion) {
    forall i | 0 <= i < |s| :: Apart(s[i], r)
  }

  lemma ApartLast(s: seq<MemoryRegion>, x: MemoryRegion, r: MemoryRegion)
    ensures ApartFromAll(s + [x], r) <==> ApartFromAll(s, r) && Apart(x, r)
  {
    assert (s + [x])[|s|] == x && forall i | 0 <= i < |s| :: (s + [x])[i] == s[i];
  }

  lemma UsableLast(s: seq<MemoryRegion>, x: MemoryRegion)
    ensures Usable(s + [x]) <==> Usable(s) && ApartFromAll(s, x) && Whole(x)
  {
    assert (s + [x])[|s|] == x && forall i | 0 <= i < |s| :: (s + [x])[i] == s[i];
  }

  lemma {:induction false} InsertApart(s: seq<MemoryRegion>, r: MemoryRegion, x: MemoryRegion)
    ensures ApartFromAll(InsertByStart(s, r), x) <==> ApartFromAll(s, x) && Apart(r, x)
  {
    if s != [] && s[|s| - 1].start > r.start {
      var n := |s| - 1;
      InsertApart(s[..n], r, x);
      assert s == s[..n] + [s[n]];
      ApartLast(s[..n], s[n], x);
      ApartLast(InsertByStart(s[..n], r), s[n], x);
    } else {
      ApartLast(s, r, x);
    }
  }

  /** Inserting neither makes nor hides an overlap. */
  lemma {:induction false} InsertUsable(s: seq<MemoryRegion>, r: MemoryRegion)
    ensures Usable(InsertByStart(s, r)) <==> Usable(s) && ApartFromAll(s, r) && Whole(r)
  {
    if s != [] && s[|s| - 1].start > r.start {
      var n := |s| - 1;
      InsertUsable(s[..n], r);
      InsertApart(s[..n], r, s[n]);
      UsableLast(InsertByStart(s[..n], r), s[n]);
      assert s == s[..n] + [s[n]];
      UsableLast(s[..n], s[n]);
      ApartLast(s[..n], s[n], r);
    } else {
      UsableLast(s, r);
    }
  }

  lemma {:induction false} SortApart(s: seq<MemoryRegion>, x: MemoryRegion)
    ensures ApartFromAll(SortByStart(s), x) <==> ApartFromAll(s, x)
  {
    if s != [] {
      var n := |s| - 1;
      SortApart(s[..n], x);
      InsertApart(SortByStart(s[..n]), s[n], x);
      assert s == s[..n] + [s[n]];
      ApartLast(s[..n], s[n], x);
    }
  }

  lemma {:induction false} SortUsable(s: seq<MemoryRegion>)
    ensures Usable(SortByStart(s)) <==> Usable(s)
  {
    if s != [] {
      var n := |s| - 1;
      SortUsable(s[..n]);
      SortApart(s[..n], s[n]);
      InsertUsable(SortByStart(s[..n]), s[n]);
      assert s == s[..n] + [s[n]];
      UsableLast(s[..n], s[n]);
    }
  }

  function TotalPages(s: seq<MemoryRegion>): nat {
    if s == [] then 0 else TotalPages(s[..|s| - 1]) + s[|s| - 1].pageCount
  }

  lemma {:induction false} StartBound(s: seq<MemoryRegion>) returns (bound: nat)
    ensures forall i | 0 <= i < |s| :: s[i].start <= bound
  {
    if s == [] {
      bound := 0;
    } else {
      bound := StartBound(s[..|s| - 1]);
      bound := if bound < s[|s| - 1].start then s[|s| - 1].start else bound;
    }
  }

  predicate Ascends(t: seq<MemoryRegion>) {
    forall i, j | 0 <= i < j < |t| :: End(t[i].start, t[i].pageCount) <= t[j].start
  }

  /** The sorted regions are ascending without overlap. */
  lemma SortOrders(s: seq<MemoryRegion>)
    requires Usable(s)
    ensures Usable(SortByStart(s))
    ensures Ascends(SortByStart(s))
  {
    SortUsable(s);
    var bound := StartBound(s);
    SortSorts(s, bound);
    var t := SortByStart(s);
    forall i, j | 0 <= i < j < |t| ensures End(t[i].start, t[i].pageCount) <= t[j].start {
      assert Apart(t[i], t[j]) && t[i].start <= t[j].start;
    }
  }

  // ---------------------------------------------------------------
  // Address arithmetic
  // ---------------------------------------------------------------

  function End(start: nat, pageCount: nat): nat {
    start + pageCount * 4096
  }

  function FrameIndex(start: nat, addr: nat): nat
    requires start <= addr
  {
    (addr - start) / 4096
  }

  /** A region's frames after every page of [lo, hi) has been reserved. */
  predicate Reserved(before: seq<bool>, after: seq<bool>, start: nat, lo: nat, hi: nat) {
    |after| == |before| &&
    forall o | 0 <= o < |before| :: after[o] == (before[o] || lo <= Address(start, o) < hi)
  }

  // ---------------------------------------------------------------
  // A row of regions
  // ---------------------------------------------------------------

  type Regions = seq<RegionBuddyAllocator>

  /** Distinct, page-aligned, non-empty regions in ascending order without overlap. */
  ghost predicate Ordered(rs: Regions) {
    && AllDistinct(rs)
    && (forall i | 0 <= i < |rs| :: rs[i].start % 4096 == 0 && rs[i].pageCount > 0)
    && (forall i, j | 0 <= i < j < |rs| :: End(rs[i].start, rs[i].pageCount) <= rs[j].start)
  }

  ghost predicate HasBitmaps(rs: Regions)
    reads rs
  {
    forall i {:trigger WellFormedBitmap(rs[i].bitmap, rs[i].pageCount)} | 0 <= i < |rs| ::
      WellFormedBitmap(rs[i].bitmap, rs[i].pageCount)
  }

  ghost predicate AllValid(rs: Regions)
    reads rs
  {
    forall i {:trigger rs[i].Valid()} | 0 <= i < |rs| :: rs[i].Valid()
  }

  /** The bitmap of every region, as values. */
  ghost function Uses(rs: Regions): (u: seq<seq<bool>>)
    reads rs
    requires HasBitmaps(rs)
    ensures |u| == |rs| && forall i | 0 <= i < |rs| :: u[i] == rs[i].UsedFrames()
  {
    seq(|rs|, i requires 0 <= i < |rs| reads rs requires HasBitmaps(rs) => rs[i].UsedFrames())
  }

  /** The number of set bits over all regions. */
  function TotalUsed(u: seq<seq<bool>>): nat {
    if u == [] then 0 else TotalUsed(u[..|u| - 1]) + CountUsed(u[|u| - 1])
  }

  lemma {:induction false} TotalUpdate(u: seq<seq<bool>>, i: nat, x: seq<bool>)
    requires i < |u|
    ensures TotalUsed(u[i := x]) == TotalUsed(u) - CountUsed(u[i]) + CountUsed(x)
  {
    var n := |u| - 1;
    if i < n {
      assert u[i := x][..n] == u[..n][i := x];
      TotalUpdate(u[..n], i, x);
    } else {
      assert u[i := x][..n] == u[..n];
    }
  }

  lemma {:induction false} TotalZero(u: seq<seq<bool>>)
    requires forall i, j | 0 <= i < |u| && 0 <= j < |u[i]| :: !u[i][j]
    ensures TotalUsed(u) == 0
  {
    if u != [] {
      TotalZero(u[..|u| - 1]);
      CountConstant(u[|u| - 1], false);
    }
  }

  predicate RegionIs(r: RegionBuddyAllocator, m: MemoryRegion) {
    r.start == m.start && r.pageCount == m.pageCount
  }

  predicate RegionsAre(rs: Regions, ms: seq<MemoryRegion>) {
    |rs| == |ms| && forall i | 0 <= i < |rs| :: RegionIs(rs[i], ms[i])
  }

  predicate AllDistinct(rs: Regions) {
    forall i, j | 0 <= i < j < |rs| :: rs[i] != rs[j]
  }

  /** Every frame of every region is free. */
  ghost predicate AllFrames(rs: Regions)
    reads rs
  {
    HasBitmaps(rs) && forall i, j | 0 <= i < |rs| && 0 <= j < rs[i].pageCount :: !rs[i].UsedFrames()[j]
  }

  /** addr lies in region i. */
  predicate Owns(rs: Regions, i: nat, addr: nat)
    requires i < |rs|
  {
    rs[i].start <= addr < End(rs[i].start, rs[i].pageCount)
  }

  /** partition_point(|r| r.start <= addr) */
  method PartitionPoint(rs: Regions, addr: nat) returns (pos: nat)
    requires Ordered(rs)
    ensures pos <= |rs|
    ensures forall i | 0 <= i < pos :: rs[i].start <= addr
    ensures forall i | pos <= i < |rs| :: addr < rs[i].start
  {
    var lo: nat, hi: nat := 0, |rs|;
    while lo < hi
      invariant 0 <= lo <= hi <= |rs|
      invariant forall i | 0 <= i < lo :: rs[i].start <= addr
      invariant forall i | hi <= i < |rs| :: addr < rs[i].start
    {
      var mid := (lo + hi) / 2;
      if rs[mid].start <= addr {
        assert forall i | 0 <= i < mid :: rs[i].start <= rs[mid].start;
        lo := mid + 1;
      } else {
        assert forall i | mid < i < |rs| :: rs[mid].start <= rs[i].start;
        hi := mid;
      }
    }
    return lo;
  }

  /** Binary search plus the containment test finds the one region that owns an address. */
  method FindRegion(rs: Regions, addr: nat) returns (r: Option<nat>)
    requires Ordered(rs)
    ensures r.Some? ==> r.value < |rs| && Owns(rs, r.value, addr)
    ensures r.Some? ==> forall i | 0 <= i < |rs| && Owns(rs, i, addr) :: i == r.value
    ensures r.None? ==> forall i | 0 <= i < |rs| :: !Owns(rs, i, addr)
  {
    var pos := PartitionPoint(rs, addr);
    if pos > 0 {
      var idx := pos - 1;
      assert forall i | 0 <= i < idx :: End(rs[i].start, rs[i].pageCount) <= rs[idx].start;
      if rs[idx].start <= addr < End(rs[idx].start, rs[idx].pageCount) {
        return Some(idx);
      }
    }
    return None;
  }

  lemma CountHandedOut(before: seq<bool>, after: seq<bool>, start: nat, addr: nat, order: nat)
    requires HandedOut(before, after, start, addr, order)
    ensures CountUsed(after) == CountUsed(before) + Pow2(order)
  {
    CountMarked(before, after, FrameIndex(start, addr), Pow2(order), true);
  }

  ghost predicate NoneFits(u: seq<seq<bool>>, order: nat) {
    forall i | 0 <= i < |u| :: !Fits(u[i], order)
  }

  /** None of the first n regions. */
  ghost predicate NoneFitsOf(u: seq<seq<bool>>, n: nat, order: nat) {
    forall i | 0 <= i < n && i < |u| :: !Fits(u[i], order)
  }

  lemma SomeFits(u: seq<seq<bool>>, i: nat, order: nat)
    requires i < |u| && Fits(u[i], order)
    ensures !NoneFits(u, order)
  {
  }

  /** The block at addr came from region i and is the only thing that changed. */
  ghost predicate HandedOutFrom(before: seq<seq<bool>>, after: seq<seq<bool>>, rs: Regions,
                                i: nat, addr: nat, order: nat)
    requires |before| == |rs| && i < |rs|
  {
    && |after| == |before|
    && HandedOut(before[i], after[i], rs[i].start, addr, order)
    && after == before[i := after[i]]
  }

  lemma CountHandedOutFrom(before: seq<seq<bool>>, after: seq<seq<bool>>, rs: Regions,
                           i: nat, addr: nat, order: nat)
    requires |before| == |rs| && i < |rs| && HandedOutFrom(before, after, rs, i, addr, order)
    ensures TotalUsed(after) == TotalUsed(before) + Pow2(order)
  {
    TotalUpdate(before, i, after[i]);
    CountHandedOut(before[i], after[i], rs[i].start, addr, order);
  }

  predicate FrameUsed(used: seq<bool>, start: nat, addr: nat) {
    start <= addr && FrameIndex(start, addr) < |used| && used[FrameIndex(start, addr)]
  }

  /** What deallocation demands of its caller: an aligned block, in range, all or nothing in use. */
  ghost predicate Freeable(used: seq<bool>, start: nat, addr: nat, order: nat) {
    && start <= addr && (addr - start) % 4096 == 0
    && Aligned(order, FrameIndex(start, addr))
    && FrameIndex(start, addr) + Pow2(order) <= |used|
    && (FrameUsed(used, start, addr) ==> AllUsed(used, FrameIndex(start, addr), Pow2(order)))
  }

  predicate AllUsed(used: seq<bool>, lo: nat, n: nat) {
    lo + n <= |used| && forall i | lo <= i < lo + n :: used[i]
  }

  /** The block at addr returned to region i and is the only thing that changed. */
  ghost predicate TakenBackBy(before: seq<seq<bool>>, after: seq<seq<bool>>, rs: Regions,
                              i: nat, addr: nat, order: nat)
    requires |before| == |rs| && i < |rs| && rs[i].start <= addr
  {
    && |after| == |before|
    && AllUsed(before[i], FrameIndex(rs[i].start, addr), Pow2(order))
    && Marked(before[i], after[i], FrameIndex(rs[i].start, addr), Pow2(order), false)
    && after == before[i := after[i]]
  }

  lemma CountTakenBackBy(before: seq<seq<bool>>, after: seq<seq<bool>>, rs: Regions,
                         i: nat, addr: nat, order: nat)
    requires |before| == |rs| && i < |rs| && rs[i].start <= addr
    requires TakenBackBy(before, after, rs, i, addr, order)
    ensures TotalUsed(before) == TotalUsed(after) + Pow2(order)
  {
    TotalUpdate(before, i, after[i]);
    CountMarked(before[i], after[i], FrameIndex(rs[i].start, addr), Pow2(order), false);
  }

  function PageDown(a: nat): (p: nat)
    ensures p % 4096 == 0 && p <= a < p + 4096
  {
    a - a % 4096
  }

  lemma NextPage(a: nat, b: nat)
    requires a % 4096 == 0 && b % 4096 == 0 && a < b
    ensures (a + 4096) % 4096 == 0 && a + 4096 <= b
  {
  }

  function PageUp(a: nat): nat {
    PageDown(a + 4096 - 1)
  }

  ghost predicate ReservedAll(before: seq<seq<bool>>, after: seq<seq<bool>>, rs: Regions, lo: nat, hi: nat)
    requires |before| == |rs|
  {
    |after| == |before| &&
    forall i | 0 <= i < |rs| :: Reserved(before[i], after[i], rs[i].start, lo, hi)
  }

  /** The page has a byte in common with the range. */
  predicate MeetsPage(page: nat, start: nat, size: nat) {
    page < start + size && start < page + 4096
  }

  /** Exactly the pages with a byte in the range lie between its rounded ends. */
  lemma RoundedMeets(page: nat, start: nat, size: nat)
    requires page % 4096 == 0 && size > 0
    ensures PageDown(start) <= page < PageUp(start + size) <==> MeetsPage(page, start, size)
  {
    if page < PageDown(start) { NextPage(page, PageDown(start)); }
    if PageDown(start) < page { NextPage(PageDown(start), page); }
    if page < PageUp(start + size) { NextPage(page, PageUp(start + size)); }
  }

  lemma ReservedBytes(before: seq<seq<bool>>, after: seq<seq<bool>>, rs: Regions, start: nat, size: nat)
    requires Ordered(rs) && Sized(before, rs) && size > 0
    requires ReservedAll(before, after, rs, PageDown(start), PageUp(start + size))
    ensures forall i, o | 0 <= i < |rs| && 0 <= o < rs[i].pageCount ::
              after[i][o] == (before[i][o] || MeetsPage(rs[i].start + o * 4096, start, size))
  {
    forall i, o | 0 <= i < |rs| && 0 <= o < rs[i].pageCount
      ensures after[i][o] == (before[i][o] || MeetsPage(rs[i].start + o * 4096, start, size))
    {
      assert Reserved(before[i], after[i], rs[i].start, PageDown(start), PageUp(start + size));
      RoundedMeets(rs[i].start + o * 4096, start, size);
    }
  }

  lemma ReservedNothing(u: seq<seq<bool>>, rs: Regions, lo: nat)
    requires |u| == |rs|
    ensures ReservedAll(u, u, rs, lo, lo)
  {
  }

  function SetPage(u: seq<seq<bool>>, rs: Regions, i: nat, addr: nat): seq<seq<bool>>
    requires |u| == |rs| && i < |rs| && rs[i].start <= addr && FrameIndex(rs[i].start, addr) < |u[i]|
  {
    u[i := u[i][FrameIndex(rs[i].start, addr) := true]]
  }

  /** Reserving the owner's page, if there is an owner, extends the reserved range by one page. */
  lemma ReservedStep(before: seq<seq<bool>>, now: seq<seq<bool>>, rs: Regions, lo: nat, addr: nat, owner: Option<nat>)
    requires Ordered(rs) && |before| == |now| == |rs| && lo <= addr && addr % 4096 == 0
    requires ReservedAll(before, now, rs, lo, addr)
    requires forall i | 0 <= i < |rs| :: |now[i]| == rs[i].pageCount
    requires forall i | 0 <= i < |rs| :: Owns(rs, i, addr) <==> owner == Some(i)
    requires owner.Some? ==> owner.value < |rs| && Owns(rs, owner.value, addr)
    ensures owner.None? ==> ReservedAll(before, now, rs, lo, addr + 4096)
    ensures owner.Some? ==>
              ReservedAll(before, SetPage(now, rs, owner.value, addr), rs, lo, addr + 4096)
  {
    forall i | 0 <= i < |rs|
      ensures if owner == Some(i)
              then Reserved(before[i], now[i][FrameIndex(rs[i].start, addr) := true], rs[i].start, lo, addr + 4096)
              else Reserved(before[i], now[i], rs[i].start, lo, addr + 4096)
    {
      ReservedRegion(before[i], now[i], rs[i].start, lo, addr);
    }
  }

  /** Within one region the next page of the range is the frame at addr, or no frame at all. */
  lemma ReservedRegion(before: seq<bool>, now: seq<bool>, start: nat, lo: nat, addr: nat)
    requires Reserved(before, now, start, lo, addr) && lo <= addr
    requires addr % 4096 == 0 && start % 4096 == 0
    ensures start <= addr < End(start, |now|) ==>
              Reserved(before, now[FrameIndex(start, addr) := true], start, lo, addr + 4096)
    ensures !(start <= addr < End(start, |now|)) ==> Reserved(before, now, start, lo, addr + 4096)
  {
  }

  method MakeRegions(sorted: seq<MemoryRegion>) returns (rs: seq<RegionBuddyAllocator>)
    ensures |rs| == |sorted| && fresh(rs) && AllValid(rs) && AllFrames(rs)
    ensures RegionsAre(rs, sorted) && AllDistinct(rs)
  {
    rs := [];
    for i := 0 to |sorted|
      invariant |rs| == i && fresh(rs) && AllValid(rs) && AllFrames(rs)
      invariant RegionsAre(rs, sorted[..i]) && AllDistinct(rs)
    {
      var r := NewRegion(rs, sorted[i]);
      assert AllDistinct(rs + [r]) && RegionsAre(rs + [r], sorted[..i + 1]);
      rs := rs + [r];
    }
  }

  /** The regions are ordered exactly when the input is usable. */
  lemma SortedRegionsOrdered(rs: Regions, input: seq<MemoryRegion>)
    requires RegionsAre(rs, SortByStart(input)) && AllDistinct(rs)
    ensures Ordered(rs) <==> Usable(input)
  {
    if Usable(input) {
      SortOrders(input);
      AscendingOrdered(rs, SortByStart(input));
    }
    if Ordered(rs) {
      OrderedUsable(rs, SortByStart(input));
      SortUsable(input);
    }
  }

  lemma AscendingOrdered(rs: Regions, t: seq<MemoryRegion>)
    requires RegionsAre(rs, t) && AllDistinct(rs) && Usable(t) && Ascends(t)
    ensures Ordered(rs)
  {
    forall i, j | 0 <= i < j < |rs| ensures End(rs[i].start, rs[i].pageCount) <= rs[j].start {
      assert RegionIs(rs[i], t[i]) && RegionIs(rs[j], t[j]) && Whole(t[i]) && Whole(t[j]) && Apart(t[i], t[j]);
    }
    forall i | 0 <= i < |rs| ensures rs[i].start % 4096 == 0 && rs[i].pageCount > 0 {
      assert RegionIs(rs[i], t[i]) && Whole(t[i]);
    }
  }

  lemma OrderedUsable(rs: Regions, t: seq<MemoryRegion>)
    requires RegionsAre(rs, t) && Ordered(rs)
    ensures Usable(t)
  {
    forall i, j | 0 <= i < j < |t| ensures Apart(t[i], t[j]) {
      assert RegionIs(rs[i], t[i]) && RegionIs(rs[j], t[j]);
    }
    forall i | 0 <= i < |t| ensures Whole(t[i]) {
      assert RegionIs(rs[i], t[i]);
    }
  }

  method NewRegion(rs: seq<RegionBuddyAllocator>, m: MemoryRegion) returns (r: RegionBuddyAllocator)
    requires AllValid(rs) && AllFrames(rs)
    ensures fresh(r) && RegionIs(r, m)
    ensures AllValid(rs + [r]) && AllFrames(rs + [r])
  {
    r := new RegionBuddyAllocator(m.start, m.pageCount);
    assert r.Valid();
  }

  // ---------------------------------------------------------------
  // The allocator seen as a set of free frames
  // ---------------------------------------------------------------

  /** Addresses of all free frames. */
  ghost function FreeFrames(u: seq<seq<bool>>, rs: Regions): set<nat>
    requires |u| == |rs|
  {
    set i, o | 0 <= i < |u| && 0 <= o < |u[i]| && !u[i][o] :: Address(rs[i].start, o)
  }

  /** Each region's bitmap has one bit per page. */
  predicate Sized(u: seq<seq<bool>>, rs: Regions) {
    |u| == |rs| && forall i | 0 <= i < |rs| :: |u[i]| == rs[i].pageCount
  }

  /** An address names at most one frame of one region. */
  lemma FrameUnique(rs: Regions, i: nat, o: nat, j: nat, p: nat)
    requires Ordered(rs) && i < |rs| && j < |rs| && o < rs[i].pageCount && p < rs[j].pageCount
    requires Address(rs[i].start, o) == Address(rs[j].start, p)
    ensures i == j && o == p
  {
  }

  lemma FreeFrameAt(u: seq<seq<bool>>, rs: Regions, i: nat, o: nat)
    requires Ordered(rs) && Sized(u, rs) && i < |rs| && o < |u[i]|
    ensures Address(rs[i].start, o) in FreeFrames(u, rs) <==> !u[i][o]
  {
    if Address(rs[i].start, o) in FreeFrames(u, rs) {
      var j, p :| 0 <= j < |u| && 0 <= p < |u[j]| && !u[j][p] && Address(rs[j].start, p) == Address(rs[i].start, o);
      FrameUnique(rs, i, o, j, p);
    }
  }

  /** Flipping one frame's bit adds or removes one address. */
  lemma FreeFramesUpdate(u: seq<seq<bool>>, rs: Regions, i: nat, o: nat, v: bool)
    requires Ordered(rs) && Sized(u, rs) && i < |rs| && o < |u[i]|
    ensures Sized(u[i := u[i][o := v]], rs)
    ensures FreeFrames(u[i := u[i][o := v]], rs) ==
            if v then FreeFrames(u, rs) - {Address(rs[i].start, o)}
            else FreeFrames(u, rs) + {Address(rs[i].start, o)}
  {
    var u' := u[i := u[i][o := v]];
    forall a ensures a in FreeFrames(u', rs) <==>
                     if v then a in FreeFrames(u, rs) && a != Address(rs[i].start, o)
                     else a in FreeFrames(u, rs) || a == Address(rs[i].start, o)
    {
      FreeFramesAt(u, rs, i, o, v, a);
    }
  }

  lemma FreeFramesAt(u: seq<seq<bool>>, rs: Regions, i: nat, o: nat, v: bool, a: nat)
    requires Ordered(rs) && Sized(u, rs) && i < |rs| && o < |u[i]|
    ensures a in FreeFrames(u[i := u[i][o := v]], rs) <==>
            if v then a in FreeFrames(u, rs) && a != Address(rs[i].start, o)
            else a in FreeFrames(u, rs) || a == Address(rs[i].start, o)
  {
    var u' := u[i := u[i][o := v]];
    FreeFrameAt(u', rs, i, o);
    if a != Address(rs[i].start, o) {
      if a in FreeFrames(u, rs) {
        var j, p :| 0 <= j < |u| && 0 <= p < |u[j]| && !u[j][p] && Address(rs[j].start, p) == a;
        FreeFrameAt(u', rs, j, p);
      }
      if a in FreeFrames(u', rs) {
        var j, p :| 0 <= j < |u'| && 0 <= p < |u'[j]| && !u'[j][p] && Address(rs[j].start, p) == a;
        FreeFrameAt(u, rs, j, p);
      }
    }
  }

  lemma MarkedOne(before: seq<bool>, after: seq<bool>, o: nat, v: bool)
    requires Marked(before, after, o, Pow2(0), v)
    ensures o < |before| && after == before[o := v]
  {
    assert Pow2(0) == 1;
  }

  lemma FrameHandedOut(before: seq<seq<bool>>, after: seq<seq<bool>>, rs: Regions, i: nat, addr: nat)
    requires Ordered(rs) && Sized(before, rs) && i < |rs| && HandedOutFrom(before, after, rs, i, addr, 0)
    ensures addr in FreeFrames(before, rs) && FreeFrames(after, rs) == FreeFrames(before, rs) - {addr}
  {
    var o := FrameIndex(rs[i].start, addr);
    MarkedOne(before[i], after[i], o, true);
    FreeFrameAt(before, rs, i, o);
    FreeFramesUpdate(before, rs, i, o, true);
  }

  lemma FrameTakenBack(before: seq<seq<bool>>, after: seq<seq<bool>>, rs: Regions, i: nat, addr: nat)
    requires Ordered(rs) && Sized(before, rs) && i < |rs| && Owns(rs, i, addr) && addr % 4096 == 0
    requires TakenBackBy(before, after, rs, i, addr, 0)
    ensures FreeFrames(after, rs) == FreeFrames(before, rs) + {addr}
  {
    var o := FrameIndex(rs[i].start, addr);
    MarkedOne(before[i], after[i], o, false);
    FreeFramesUpdate(before, rs, i, o, false);
  }

  lemma OneFrameFreeable(u: seq<seq<bool>>, rs: Regions, i: nat, addr: nat)
    requires Ordered(rs) && Sized(u, rs) && i < |rs| && Owns(rs, i, addr) && addr % 4096 == 0
    ensures Freeable(u[i], rs[i].start, addr, 0)
    ensures FrameUsed(u[i], rs[i].start, addr) <==> addr !in FreeFrames(u, rs)
    ensures Address(rs[i].start, FrameIndex(rs[i].start, addr)) == addr
  {
    assert Pow2(0) == 1;
    AnyAligned(FrameIndex(rs[i].start, addr));
    FreeFrameAt(u, rs, i, FrameIndex(rs[i].start, addr));
  }

  /** The safety condition of deallocate_order: whichever region owns addr can take the block back. */
  ghost predicate SafeToFree(u: seq<seq<bool>>, rs: Regions, addr: nat, order: nat)
    requires |u| == |rs|
  {
    forall i | 0 <= i < |rs| && Owns(rs, i, addr) :: Freeable(u[i], rs[i].start, addr, order)
  }

  /** Some region owns addr. */
  predicate Managed(rs: Regions, addr: nat) {
    exists i :: 0 <= i < |rs| && Owns(rs, i, addr)
  }

  /** Some region owns addr and has its frame marked. */
  predicate InUse(u: seq<seq<bool>>, rs: Regions, addr: nat)
    requires |u| == |rs|
  {
    exists i :: 0 <= i < |rs| && Owns(rs, i, addr) && FrameUsed(u[i], rs[i].start, addr)
  }

  lemma UniqueOwner(u: seq<seq<bool>>, rs: Regions, i: nat, addr: nat)
    requires Ordered(rs) && |u| == |rs| && i < |rs| && Owns(rs, i, addr)
    ensures InUse(u, rs, addr) <==> FrameUsed(u[i], rs[i].start, addr)
  {
  }

  lemma OwnersFreeable(u: seq<seq<bool>>, rs: Regions, addr: nat)
    requires Ordered(rs) && Sized(u, rs) && addr % 4096 == 0
    ensures SafeToFree(u, rs, addr, 0)
    ensures InUse(u, rs, addr) <==> addr !in FreeFrames(u, rs) && Managed(rs, addr)
  {
    forall i | 0 <= i < |rs| && Owns(rs, i, addr)
      ensures Freeable(u[i], rs[i].start, addr, 0)
      ensures FrameUsed(u[i], rs[i].start, addr) <==> addr !in FreeFrames(u, rs)
    {
      OneFrameFreeable(u, rs, i, addr);
    }
  }

  lemma NoneFitsNoFrames(u: seq<seq<bool>>, rs: Regions)
    requires |u| == |rs| && NoneFits(u, 0)
    ensures FreeFrames(u, rs) == {}
  {
    forall i, o | 0 <= i < |u| && 0 <= o < |u[i]| ensures u[i][o] {
      if !u[i][o] {
        assert Pow2(0) == 1;
        AnyAligned(o);
        assert FreeBlock(u[i], 0, o);
        assert Fits(u[i], 0);
      }
    }
  }

  class BuddyFrameAllocator {
    var regions: Regions
    var totalFrames: nat
    var allocatedCount: nat
    var invalidDeallocCount: nat

    /** allocatedCount is the number of set bitmap bits and every region's lists are canonical. */
    ghost predicate Valid()
      reads this, regions
    {
      && Ordered(regions) && AllValid(regions) && HasBitmaps(regions)
      && allocatedCount == TotalUsed(Uses(regions))
    }

    constructor ()
      ensures Valid() && regions == [] && totalFrames == 0
    {
      regions := [];
      totalFrames, allocatedCount, invalidDeallocCount := 0, 0, 0;
    }

    ghost function Free(): set<nat>
      reads this, regions
      requires HasBitmaps(regions)
    {
      FreeFrames(Uses(regions), regions)
    }

    /** Sorts the regions and starts with every frame free; any regions are accepted, usable ones make a valid state. */
    method Init(input: seq<MemoryRegion>)
      modifies this
      ensures fresh(regions) && AllValid(regions) && HasBitmaps(regions) && allocatedCount == 0
      ensures Valid() <==> Usable(input)
      ensures RegionsAre(regions, SortByStart(input))
      ensures forall i, j | 0 <= i < |regions| && 0 <= j < regions[i].pageCount :: !Uses(regions)[i][j]
      ensures totalFrames == TotalPages(input)
    {
      var sorted := SortByStart(input);
      var rs := MakeRegions(sorted);
      SortedRegionsOrdered(rs, input);
      regions := rs;
      totalFrames := TotalPages(input);
      allocatedCount := 0;
      invalidDeallocCount := 0;
      TotalZero(Uses(regions));
    }

    /** Allocates in one region; the others stay as they are. */
    method Take(i: nat, order: nat, ghost before: seq<seq<bool>>) returns (r: Option<nat>)
      requires Valid() && i < |regions| && Uses(regions) == before
      modifies regions[i]
      ensures AllValid(regions) && HasBitmaps(regions) && Uses(regions) == before[i := regions[i].UsedFrames()]
      ensures r.None? <==> !Fits(before[i], order)
      ensures r.None? ==> Uses(regions) == before
      ensures r.Some? ==> HandedOut(before[i], Uses(regions)[i], regions[i].start, r.value, order)
    {
      r := regions[i].Allocate(order);
      assert AllValid(regions);
      assert Uses(regions) == before[i := regions[i].UsedFrames()];
      if r.None? { assert Uses(regions) == before; }
    }

    /** Frees in one region; the others stay as they are. */
    method GiveBack(i: nat, addr: nat, order: nat, ghost before: seq<seq<bool>>) returns (ok: bool)
      requires Valid() && i < |regions| && order <= MAX_ORDER && Uses(regions) == before && Owns(regions, i, addr)
      requires Freeable(before[i], regions[i].start, addr, order)
      modifies regions[i]
      ensures AllValid(regions) && HasBitmaps(regions) && Uses(regions) == before[i := regions[i].UsedFrames()]
      ensures ok <==> FrameUsed(before[i], regions[i].start, addr)
      ensures !ok ==> Uses(regions) == before
      ensures ok ==> Marked(before[i], Uses(regions)[i], FrameIndex(regions[i].start, addr), Pow2(order), false)
    {
      ok := regions[i].Deallocate(addr, order);
      assert AllValid(regions);
      assert Uses(regions) == before[i := regions[i].UsedFrames()];
      if !ok { assert Uses(regions) == before; }
    }

    /** Tries one region; on success exactly one block of that region becomes used. */
    method AllocateIn(i: nat, order: nat) returns (r: Option<nat>)
      requires Valid() && i < |regions|
      modifies this`allocatedCount, regions[i]
      ensures Valid()
      ensures r.None? <==> !Fits(old(Uses(regions))[i], order)
      ensures r.None? ==> Uses(regions) == old(Uses(regions)) && allocatedCount == old(allocatedCount)
      ensures r.Some? ==> allocatedCount == old(allocatedCount) + Pow2(order)
      ensures r.Some? ==> HandedOutFrom(old(Uses(regions)), Uses(regions), regions, i, r.value, order)
    {
      ghost var before := Uses(regions);
      r := Take(i, order, before);
      ghost var after := Uses(regions);
      if r.Some? {
        CountHandedOutFrom(before, after, regions, i, r.value, order);
        Count(Pow2(order));
      } else {
        assert after == before;
      }
    }

    method Count(n: nat)
      requires Ordered(regions) && AllValid(regions) && HasBitmaps(regions)
      requires allocatedCount + n == TotalUsed(Uses(regions))
      modifies this`allocatedCount
      ensures Valid() && allocatedCount == old(allocatedCount) + n && Uses(regions) == old(Uses(regions))
    {
      allocatedCount := allocatedCount + n;
    }

    /**
     First-fit over the regions. Fails exactly when no region has an aligned free run of
     that size; otherwise exactly that block of exactly one region becomes used.
     */
    method AllocateOrder(order: nat) returns (r: Option<nat>, ghost from: nat)
      requires Valid()
      modifies this`allocatedCount, regions
      ensures Valid()
      ensures r.None? <==> NoneFits(old(Uses(regions)), order)
      ensures r.None? ==> Uses(regions) == old(Uses(regions)) && allocatedCount == old(allocatedCount)
      ensures r.Some? ==> allocatedCount == old(allocatedCount) + Pow2(order)
      ensures r.Some? ==> from < |regions| &&
                          HandedOutFrom(old(Uses(regions)), Uses(regions), regions, from, r.value, order)
    {
      r, from := FirstFit(order, Uses(regions), allocatedCount);
    }

    /** The search, against the bitmaps and the count at its start. */
    method FirstFit(order: nat, ghost before: seq<seq<bool>>, ghost count: nat)
      returns (r: Option<nat>, ghost from: nat)
      requires Valid() && Uses(regions) == before && allocatedCount == count
      modifies this`allocatedCount, regions
      ensures Valid()
      ensures r.None? ==> NoneFits(before, order) && Uses(regions) == before && allocatedCount == count
      ensures r.Some? ==> !NoneFits(before, order) && allocatedCount == count + Pow2(order)
      ensures r.Some? ==> from < |regions| && HandedOutFrom(before, Uses(regions), regions, from, r.value, order)
    {
      var i := 0;
      while i < |regions|
        invariant i <= |regions| && Valid() && allocatedCount == count && Uses(regions) == before
        invariant NoneFitsOf(before, i, order)
      {
        r := TryRegion(i, order, before);
        if r.Some? { return r, i; }
        i := i + 1;
      }
      return None, 0;
    }

    /** One step of the search. */
    method TryRegion(i: nat, order: nat, ghost before: seq<seq<bool>>) returns (r: Option<nat>)
      requires Valid() && i < |regions| && Uses(regions) == before && NoneFitsOf(before, i, order)
      modifies this`allocatedCount, regions
      ensures Valid()
      ensures r.None? ==> Uses(regions) == before && allocatedCount == old(allocatedCount)
      ensures r.None? ==> NoneFitsOf(before, i + 1, order)
      ensures r.Some? ==> !NoneFits(before, order) && allocatedCount == old(allocatedCount) + Pow2(order)
      ensures r.Some? ==> HandedOutFrom(before, Uses(regions), regions, i, r.value, order)
    {
      r := AllocateIn(i, order);
      if r.Some? { SomeFits(before, i, order); }
    }

    /**
     Frees a block in the region that owns it. The result is false, and nothing changes,
     where the kernel panics: no region owns the address, or its frame is already free.
     */
    method DeallocateOrder(addr: nat, order: nat) returns (ok: bool, ghost from: nat)
      requires Valid() && order <= MAX_ORDER
      requires SafeToFree(Uses(regions), regions, addr, order)
      modifies this`allocatedCount, regions
      ensures Valid()
      ensures ok <==> InUse(old(Uses(regions)), regions, addr)
      ensures ok ==> from < |regions| && Owns(regions, from, addr) &&
                     TakenBackBy(old(Uses(regions)), Uses(regions), regions, from, addr, order)
      ensures ok ==> allocatedCount == old(allocatedCount) - Pow2(order)
      ensures !ok ==> Uses(regions) == old(Uses(regions)) && allocatedCount == old(allocatedCount)
    {
      var idx := FindRegion(regions, addr);
      if idx.None? {
        return false, 0;
      }
      from := idx.value;
      UniqueOwner(Uses(regions), regions, from, addr);
      ok := DeallocateIn(idx.value, addr, order);
    }

    method DeallocateIn(i: nat, addr: nat, order: nat) returns (ok: bool)
      requires Valid() && i < |regions| && order <= MAX_ORDER && Owns(regions, i, addr)
      requires Freeable(Uses(regions)[i], regions[i].start, addr, order)
      modifies this`allocatedCount, regions[i]
      ensures Valid()
      ensures ok <==> FrameUsed(old(Uses(regions))[i], regions[i].start, addr)
      ensures ok ==> TakenBackBy(old(Uses(regions)), Uses(regions), regions, i, addr, order)
      ensures ok ==> allocatedCount == old(allocatedCount) - Pow2(order)
      ensures !ok ==> Uses(regions) == old(Uses(regions)) && allocatedCount == old(allocatedCount)
    {
      ghost var before := Uses(regions);
      ok := GiveBack(i, addr, order, before);
      ghost var after := Uses(regions);
      if ok {
        CountTakenBackBy(before, after, regions, i, addr, order);
        Uncount(Pow2(order));
      } else {
        assert after == before;
      }
    }

    method Uncount(n: nat)
      requires Ordered(regions) && AllValid(regions) && HasBitmaps(regions)
      requires allocatedCount == TotalUsed(Uses(regions)) + n
      modifies this`allocatedCount
      ensures Valid() && allocatedCount == old(allocatedCount) - n && Uses(regions) == old(Uses(regions))
    {
      allocatedCount := allocatedCount - n;
    }

    /** One frame: it was free, and is the only frame that stops being free. */
    method AllocateFrame() returns (r: Option<nat>)
      requires Valid()
      modifies this`allocatedCount, regions
      ensures Valid()
      ensures r.None? <==> old(Free()) == {}
      ensures r.Some? ==> r.value in old(Free()) && Free() == old(Free()) - {r.value}
      ensures r.None? ==> Free() == old(Free())
    {
      ghost var before := Uses(regions);
      ghost var from;
      r, from := AllocateOrder(0);
      if r.Some? {
        FrameHandedOut(before, Uses(regions), regions, from, r.value);
      } else {
        NoneFitsNoFrames(before, regions);
      }
    }

    /** Frees one frame of some region; false is the panic on a double free or a foreign address. */
    method DeallocateFrame(addr: nat) returns (ok: bool)
      requires Valid() && addr % 4096 == 0
      modifies this`allocatedCount, regions
      ensures Valid()
      ensures ok <==> addr !in old(Free()) && Managed(regions, addr)
      ensures ok ==> Free() == old(Free()) + {addr}
      ensures !ok ==> Free() == old(Free())
    {
      ghost var before := Uses(regions);
      assert Free() == FreeFrames(before, regions);
      ok := DeallocateOne(addr, before);
      assert Free() == FreeFrames(Uses(regions), regions);
    }

    method DeallocateOne(addr: nat, ghost before: seq<seq<bool>>) returns (ok: bool)
      requires Valid() && addr % 4096 == 0 && Uses(regions) == before
      modifies this`allocatedCount, regions
      ensures Valid()
      ensures ok <==> addr !in FreeFrames(before, regions) && Managed(regions, addr)
      ensures ok ==> FreeFrames(Uses(regions), regions) == FreeFrames(before, regions) + {addr}
      ensures !ok ==> Uses(regions) == before
    {
      ghost var from;
      OwnersFreeable(before, regions, addr);
      ok, from := DeallocateOrder(addr, 0);
      if ok { FrameTakenBack(before, Uses(regions), regions, from, addr); }
    }

    /**
     Marks every page that meets [start, start + size) as used, counts each page once,
     and rebuilds the lists of the regions it touched.
     */
    method ReserveRange(start: nat, size: nat)
      requires Valid()
      modifies this`allocatedCount, regions
      ensures Valid()
      ensures size == 0 ==> Uses(regions) == old(Uses(regions))
      ensures size > 0 ==> ReservedAll(old(Uses(regions)), Uses(regions),
                                       regions, PageDown(start), PageUp(start + size))
      ensures size > 0 ==>
              forall i, o | 0 <= i < |regions| && 0 <= o < regions[i].pageCount ::
                Uses(regions)[i][o] == (old(Uses(regions))[i][o] || MeetsPage(regions[i].start + o * 4096, start, size))
    {
      if size == 0 {
        return;
      }
      var startAligned := PageDown(start);
      var endAligned := PageUp(start + size);
      ghost var before := Uses(regions);
      ReservePages(startAligned, endAligned);
      ReservedBytes(before, Uses(regions), regions, start, size);
    }

    method ReservePages(startAligned: nat, endAligned: nat)
      requires Valid() && startAligned <= endAligned
      requires startAligned % 4096 == 0 && endAligned % 4096 == 0
      modifies this`allocatedCount, regions
      ensures Valid() && ReservedAll(old(Uses(regions)), Uses(regions), regions, startAligned, endAligned)
    {
      var affected := seq(|regions|, _ => false);
      NothingLags(regions, affected);
      var addr := startAligned;
      ghost var before := Uses(regions);
      ReservedNothing(before, regions, startAligned);
      while addr < endAligned
        invariant addr % 4096 == 0 && startAligned <= addr <= endAligned
        invariant |affected| == |regions| && Reserving(affected)
        invariant ReservedAll(before, Uses(regions), regions, startAligned, addr)
      {
        affected := ReserveAddress(before, startAligned, addr, affected);
        NextPage(addr, endAligned);
        addr := addr + 4096;
      }
      Rebuild(affected);
    }

    /** One round of the reserving loop. */
    method ReserveAddress(ghost before: seq<seq<bool>>, ghost lo: nat, addr: nat, affected: seq<bool>)
      returns (affected': seq<bool>)
      requires |affected| == |regions| == |before| && Reserving(affected)
      requires lo <= addr && addr % 4096 == 0 && ReservedAll(before, Uses(regions), regions, lo, addr)
      modifies this`allocatedCount, regions
      ensures |affected'| == |regions| && Reserving(affected')
      ensures ReservedAll(before, Uses(regions), regions, lo, addr + 4096)
    {
      var idx := FindRegion(regions, addr);
      ReservedStep(before, Uses(regions), regions, lo, addr, idx);
      if idx.Some? {
        ReservePage(idx.value, addr, affected);
        return affected[idx.value := true];
      }
      return affected;
    }

    /** Bitmaps may run ahead of the lists, but only in regions marked as affected. */
    ghost predicate Reserving(affected: seq<bool>)
      reads this, regions
      requires |affected| == |regions|
    {
      && Ordered(regions) && HasBitmaps(regions) && ListsLag(regions, affected)
      && allocatedCount == TotalUsed(Uses(regions))
    }

    method ReservePage(i: nat, addr: nat, affected: seq<bool>)
      requires |affected| == |regions| && Reserving(affected) && i < |regions|
      requires addr % 4096 == 0 && Owns(regions, i, addr)
      modifies this`allocatedCount, regions[i]
      ensures Reserving(affected[i := true])
      ensures Uses(regions) == SetPage(old(Uses(regions)), regions, i, addr)
    {
      ghost var before := Uses(regions);
      var pageOffset := FrameIndex(regions[i].start, addr);
      var inUse := regions[i].IsFrameAllocated(pageOffset);
      if !inUse {
        MarkPage(regions, i, addr, affected);
        CountSetPage(before, regions, i, addr);
        CountReserved(affected[i := true]);
      } else {
        SetPageAgain(before, regions, i, addr);
      }
    }

    method CountReserved(affected: seq<bool>)
      requires |affected| == |regions| && Ordered(regions) && HasBitmaps(regions) && ListsLag(regions, affected)
      requires allocatedCount + 1 == TotalUsed(Uses(regions))
      modifies this`allocatedCount
      ensures Reserving(affected) && Uses(regions) == old(Uses(regions))
    {
      allocatedCount := allocatedCount + 1;
    }

    method Rebuild(affected: seq<bool>)
      requires |affected| == |regions| && Reserving(affected)
      modifies regions
      ensures Valid() && Uses(regions) == old(Uses(regions))
    {
      for i := 0 to |regions|
        invariant HasBitmaps(regions) && Uses(regions) == old(Uses(regions))
        invariant ListsLag(regions, Done(affected, i))
      {
        DoneStep(affected, i);
        RebuildRegion(regions, i, Done(affected, i));
      }
      AllDone(regions, affected);
    }
  }

  lemma NothingLags(rs: Regions, affected: seq<bool>)
    requires |affected| == |rs| && AllValid(rs)
    ensures ListsLag(rs, affected)
  {
    forall i | 0 <= i < |rs| ensures rs[i].WellFormed() && rs[i].Valid() {
      assert rs[i].Valid();
    }
  }

  lemma DoneStep(affected: seq<bool>, n: nat)
    requires n < |affected|
    ensures Done(affected, n)[n := false] == Done(affected, n + 1)
  {
  }

  lemma AllDone(rs: Regions, affected: seq<bool>)
    requires |affected| == |rs| && ListsLag(rs, Done(affected, |rs|))
    ensures AllValid(rs)
  {
  }

  /** Regions that are not flagged have canonical lists; flagged ones only well-formed tables. */
  ghost predicate ListsLag(rs: Regions, affected: seq<bool>)
    reads rs
    requires |affected| == |rs|
  {
    forall i {:trigger rs[i].WellFormed()} {:trigger rs[i].Valid()} | 0 <= i < |rs| ::
      rs[i].WellFormed() && (!affected[i] ==> rs[i].Valid())
  }

  /** The flags that remain when the first n regions have been rebuilt. */
  function Done(affected: seq<bool>, n: nat): (r: seq<bool>)
    requires n <= |affected|
    ensures |r| == |affected|
  {
    seq(n, _ => false) + affected[n..]
  }

  method RebuildRegion(rs: seq<RegionBuddyAllocator>, i: nat, affected: seq<bool>)
    requires |affected| == |rs| && i < |rs| && Ordered(rs) && HasBitmaps(rs) && ListsLag(rs, affected)
    modifies rs[i]
    ensures HasBitmaps(rs) && Uses(rs) == old(Uses(rs)) && ListsLag(rs, affected[i := false])
  {
    assert rs[i].WellFormed();
    if affected[i] {
      rs[i].BuildFreeLists();
    }
  }

  method MarkPage(rs: seq<RegionBuddyAllocator>, i: nat, addr: nat, affected: seq<bool>)
    requires |affected| == |rs| && i < |rs| && Ordered(rs) && HasBitmaps(rs) && ListsLag(rs, affected)
    requires addr % 4096 == 0 && Owns(rs, i, addr)
    modifies rs[i]
    ensures HasBitmaps(rs) && ListsLag(rs, affected[i := true])
    ensures Uses(rs) == SetPage(old(Uses(rs)), rs, i, addr)
  {
    assert rs[i].WellFormed();
    rs[i].SetFrameAllocated(FrameIndex(rs[i].start, addr));
    assert rs[i].WellFormed();
  }

  lemma CountSetPage(u: seq<seq<bool>>, rs: Regions, i: nat, addr: nat)
    requires |u| == |rs| && i < |rs| && rs[i].start <= addr && FrameIndex(rs[i].start, addr) < |u[i]|
    requires !u[i][FrameIndex(rs[i].start, addr)]
    ensures TotalUsed(SetPage(u, rs, i, addr)) == TotalUsed(u) + 1
  {
    var o := FrameIndex(rs[i].start, addr);
    CountMarked(u[i], u[i][o := true], o, 1, true);
    TotalUpdate(u, i, u[i][o := true]);
  }

  lemma SetPageAgain(u: seq<seq<bool>>, rs: Regions, i: nat, addr: nat)
    requires |u| == |rs| && i < |rs| && rs[i].start <= addr && FrameIndex(rs[i].start, addr) < |u[i]|
    requires u[i][FrameIndex(rs[i].start, addr)]
    ensures SetPage(u, rs, i, addr) == u
  {
    assert u[i][FrameIndex(rs[i].start, addr) := true] == u[i];
  }
}

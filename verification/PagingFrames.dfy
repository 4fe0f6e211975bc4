/** Where frames are over a run: free, in a page table of a process, or behind a noted page. */
module PagingFrames {
  import opened Options
  import opened PageTables
  import opened PagingSteps
  import opened PagingHooks
  import opened PagingMap
  import opened PagingRange
  import opened PagingLife
  import opened PagingDestroy
  import opened PagingUser
  import opened PagingElf
  import opened PagingUnmap
  import opened PagingRuns

  /** All frames that are accounted for. */
  function Total(s: State, data: map<Place, nat>): set<nat> {
    Held(s) + data.Values
  }

  /**
   No frame comes from nowhere; and if the kernel maps no 1 GiB page, the account is the same afterwards exactly
   when nothing is lost.
   */
  ghost predicate Conserved(s: State, data: map<Place, nat>, s': State, data': map<Place, nat>, loses: bool) {
    && Total(s', data') <= Total(s, data)
    && (NoGiant(s) ==> (Total(s', data') == Total(s, data) <==> !loses))
  }

  lemma CreateConserves(s: State, f: nat, data: map<Place, nat>)
    requires Inv(s) && f in s.free
    ensures Held(Created(s, f)) == Held(s) && Conserved(s, data, Created(s, f), data, false)
  {
    NoPositions(s, f, []);
    var s' := Created(s, f);
    assert s'.owned == s.owned[Node(f, []) := f];
    AddedValue(s.owned, Node(f, []), f);
  }

  lemma AddedValue(m: map<Node, nat>, n: Node, f: nat)
    requires n !in m
    ensures m[n := f].Values == m.Values + {f}
  {
    assert n in m[n := f];
    forall x | x in m.Values ensures x in m[n := f].Values {
      var k :| k in m && m[k] == x;
      assert k in m[n := f] && m[n := f][k] == x;
    }
  }

  lemma MarkConserves(s: State, s': State, p: nat, data: map<Place, nat>)
    requires Widened(s, s', p)
    ensures Conserved(s, data, s', data, false)
  {
  }

  // ---------------------------------------------------------------
  // Mapping
  // ---------------------------------------------------------------

  /** The range does not wrap and none of its pages is noted already. */
  predicate MapsFresh(data: map<Place, nat>, p: nat, start: nat, count: nat) {
    count <= 0x10_0000_0000 && forall j: nat | j < count :: Place(p, PageAt(start, j)) !in data
  }

  lemma ValueOf(data: map<Place, nat>, k: Place)
    requires k in data
    ensures data[k] in data.Values
  {
  }

  lemma NotedValues(data: map<Place, nat>, p: nat, start: nat, frames: seq<nat>)
    ensures Noted(data, p, start, frames).Values <= data.Values + Elements(frames)
  {
    var data' := Noted(data, p, start, frames);
    forall f | f in data'.Values ensures f in data.Values + Elements(frames) {
      var k :| k in data' && data'[k] == f;
      if InRange(p, start, |frames|, k) {
        var j := NotedInside(data, p, start, frames, k);
      } else {
        NotedOutside(data, p, start, frames, k);
        ValueOf(data, k);
      }
    }
  }

  /** On fresh pages nothing is overwritten. */
  lemma FreshValues(data: map<Place, nat>, p: nat, start: nat, frames: seq<nat>)
    requires MapsFresh(data, p, start, |frames|)
    ensures Noted(data, p, start, frames).Values == data.Values + Elements(frames)
  {
    var data' := Noted(data, p, start, frames);
    NotedValues(data, p, start, frames);
    forall f | f in Elements(frames) ensures f in data'.Values {
      var j :| 0 <= j < |frames| && frames[j] == f;
      var k := Place(p, PageAt(start, j));
      assert RangePage(start, |frames|, k.page);
      var i := NotedInside(data, p, start, frames, k);
      RangeDistinct(start, j, |frames|);
      ValueOf(data', k);
    }
    forall f | f in data.Values ensures f in data'.Values {
      var k :| k in data && data[k] == f;
      assert !InRange(p, start, |frames|, k);
      NotedOutside(data, p, start, frames, k);
      ValueOf(data', k);
    }
  }

  /** The frame of a noted page that is mapped again is lost. */
  lemma OverwrittenLost(s: State, s': State, data: map<Place, nat>, p: nat, start: nat, frames: seq<nat>,
                        flags: set<Flag>, j: nat)
    requires Inv(s) && DataOk(s, data) && RangeMapped(s, s', p, start, frames, flags)
    requires j < |frames| && Place(p, PageAt(start, j)) in data
    ensures data[Place(p, PageAt(start, j))] !in Total(s', Noted(data, p, start, frames))
  {
    var k, data' := Place(p, PageAt(start, j)), Noted(data, p, start, frames);
    var f := data[k];
    assert Backed(s, k, f) && f !in s.free;
    FreshNotHeld(s, f);
    assert RangePage(start, |frames|, k.page);
    forall l | l in data' ensures data'[l] != f {
      if InRange(p, start, |frames|, l) {
        var i := NotedInside(data, p, start, frames, l);
      } else {
        NotedOutside(data, p, start, frames, l);
      }
    }
  }

  lemma FreshNotHeld(s: State, f: nat)
    requires Fresh(s, f)
    ensures f !in Held(s)
  {
  }

  /** A range of more than 2^36 pages maps its first page twice. */
  lemma WrapsAround(start: nat)
    ensures PageAt(start, 0x10_0000_0000) == PageAt(start, 0)
  {
    var n := 0x10_0000_0000;
    PageNumber(start, 0);
    PageNumber(start, n);
    Period(start / 4096);
    PageOfPeriod(start + n * 4096, start + 0 * 4096);
  }

  lemma Period(x: nat)
    ensures (x + 0x10_0000_0000) % 0x10_0000_0000 == x % 0x10_0000_0000
  {
  }

  /** Then the first frame is noted nowhere. */
  lemma WrappedValue(s: State, s': State, data: map<Place, nat>, p: nat, start: nat, frames: seq<nat>, l: Place)
    requires DataOk(s, data) && FramesFresh(s, s', frames) && |frames| > 0x10_0000_0000
    requires l in Noted(data, p, start, frames)
    ensures Noted(data, p, start, frames)[l] != frames[0]
  {
    if InRange(p, start, |frames|, l) {
      var i := NotedInside(data, p, start, frames, l);
      WrapsAround(start);
      if i != 0 { Differ(frames, 0, i); }
    } else {
      NotedOutside(data, p, start, frames, l);
      assert Backed(s, l, data[l]);
    }
  }

  lemma WrappedLost(s: State, s': State, data: map<Place, nat>, p: nat, start: nat, frames: seq<nat>)
    requires DataOk(s, data) && FramesFresh(s, s', frames) && Spent(s, s', Elements(frames))
    requires |frames| > 0x10_0000_0000
    ensures frames[0] !in Total(s', Noted(data, p, start, frames))
  {
    assert frames[0] in Elements(frames);
    forall l | l in Noted(data, p, start, frames) ensures Noted(data, p, start, frames)[l] != frames[0] {
      WrappedValue(s, s', data, p, start, frames, l);
    }
  }

  lemma MapBounded(s: State, s': State, data: map<Place, nat>, p: nat, start: nat, frames: seq<nat>)
    requires FramesFresh(s, s', frames) && Spent(s, s', Elements(frames))
    ensures Total(s', Noted(data, p, start, frames)) <= Total(s, data)
    ensures NoGiant(s) && MapsFresh(data, p, start, |frames|) ==>
            Total(s', Noted(data, p, start, frames)) == Total(s, data)
  {
    NotedValues(data, p, start, frames);
    assert Elements(frames) <= s.free;
    if MapsFresh(data, p, start, |frames|) { FreshValues(data, p, start, frames); }
  }

  lemma MapConserves(s: State, s': State, data: map<Place, nat>, p: nat, start: nat, frames: seq<nat>, flags: set<Flag>)
    requires Inv(s) && DataOk(s, data) && RangeMapped(s, s', p, start, frames, flags)
    ensures Conserved(s, data, s', Noted(data, p, start, frames), !MapsFresh(data, p, start, |frames|))
  {
    MapBounded(s, s', data, p, start, frames);
    if |frames| > 0x10_0000_0000 {
      WrappedLost(s, s', data, p, start, frames);
      assert frames[0] in Total(s, data);
    } else if !MapsFresh(data, p, start, |frames|) {
      var j: nat :| j < |frames| && Place(p, PageAt(start, j)) in data;
      OverwrittenLost(s, s', data, p, start, frames, flags, j);
      ValueOf(data, Place(p, PageAt(start, j)));
    }
  }

  // ---------------------------------------------------------------
  // Loading and unmapping
  // ---------------------------------------------------------------

  lemma DroppedValues(data: map<Place, nat>, p: nat, start: nat, count: nat)
    ensures Dropped(data, p, start, count).Values <= data.Values
  {
    forall f | f in Dropped(data, p, start, count).Values ensures f in data.Values {
      var k :| k in Dropped(data, p, start, count) && Dropped(data, p, start, count)[k] == f;
      ValueOf(data, k);
    }
  }

  lemma LoadBounded(s: State, s': State, data: map<Place, nat>, p: nat, start: nat, frames: seq<nat>)
    requires RangeLoaded(s, s', p, start, frames)
    ensures Total(s', Dropped(data, p, start, |frames|)) <= Total(s, data)
  {
    DroppedValues(data, p, start, |frames|);
  }

  /** The frames that come back are those of the notes that go. */
  lemma ReturnedValues(s: State, data: map<Place, nat>, p: nat, start: nat, count: nat, frames: seq<nat>)
    requires DataOk(s, data) && AllNoted(data, p, start, count) && Lists(s, p, start, count, frames)
    ensures Dropped(data, p, start, count).Values + Elements(frames) == data.Values
  {
    var data' := Dropped(data, p, start, count);
    DroppedValues(data, p, start, count);
    forall f | f in Elements(frames) ensures f in data.Values {
      assert Backs(s, p, start, count, f);
      var j: nat :| j < count && Trans(s, p, PageAt(start, j)).Some? && Trans(s, p, PageAt(start, j)).value.addr == f;
      assert Backed(s, Place(p, PageAt(start, j)), data[Place(p, PageAt(start, j))]);
      ValueOf(data, Place(p, PageAt(start, j)));
    }
    forall f | f in data.Values ensures f in data'.Values + Elements(frames) {
      var k :| k in data && data[k] == f;
      assert Backed(s, k, f);
      if k in data' {
        ValueOf(data', k);
      } else {
        var j: nat :| j < count && PageAt(start, j) == k.page;
        assert Backs(s, p, start, count, f);
      }
    }
  }

  lemma UnmapConserves(s: State, s': State, data: map<Place, nat>, p: nat, start: nat, count: nat, frames: seq<nat>)
    requires DataOk(s, data) && AllNoted(data, p, start, count) && Unmapped(s, s', p, start, count, frames)
    ensures Conserved(s, data, s', Dropped(data, p, start, count), false)
  {
    ReturnedValues(s, data, p, start, count, frames);
  }

  // ---------------------------------------------------------------
  // Destroying
  // ---------------------------------------------------------------

  /** Every table comes back and no page of the process is noted. */
  ghost predicate DestroysAll(s: State, p: nat, data: map<Place, nat>) {
    KernelAboveAll(s, p) && NoneMistaken(s, p) && forall k | k in data :: k.proc != p
  }

  lemma DestroyConserves(s: State, p: nat, data: map<Place, nat>)
    requires Inv(s) && DataOk(s, data)
    ensures Conserved(s, data, Destroyed(s, p), Gone(data, p), !DestroysAll(s, p, data))
  {
    DestroyBounded(s, p, data);
    DestroyFreesAllIff(s, p);
    if DestroysAll(s, p, data) {
      DestroyComplete(s, p, data);
    } else if FreedBy(s, p) != Positions(s, p) {
      TableLost(s, p, data);
    } else {
      NoteLost(s, p, data);
    }
  }

  lemma DestroyBounded(s: State, p: nat, data: map<Place, nat>)
    ensures Total(Destroyed(s, p), Gone(data, p)) <= Total(s, data)
  {
    forall f | f in Gone(data, p).Values ensures f in data.Values {
      var k :| k in Gone(data, p) && Gone(data, p)[k] == f;
      ValueOf(data, k);
    }
    forall f | f in Without(s.owned, p).Values ensures f in s.owned.Values {
      var n :| n in Without(s.owned, p) && Without(s.owned, p)[n] == f;
      OwnedValue(s.owned, n);
    }
    forall f | f in Frames(s, FreedBy(s, p)) ensures f in s.owned.Values {
      var n :| n in FreedBy(s, p) && n in s.owned && s.owned[n] == f;
      OwnedValue(s.owned, n);
    }
  }

  lemma OwnedValue(owned: map<Node, nat>, n: Node)
    requires n in owned
    ensures owned[n] in owned.Values
  {
  }

  lemma DestroyComplete(s: State, p: nat, data: map<Place, nat>)
    requires FreedBy(s, p) == Positions(s, p) && forall k | k in data :: k.proc != p
    ensures Total(s, data) <= Total(Destroyed(s, p), Gone(data, p))
  {
    assert Gone(data, p) == data;
    forall f | f in s.owned.Values ensures f in Held(Destroyed(s, p)) {
      var n :| n in s.owned && s.owned[n] == f;
      if n.proc == p {
        assert n in Positions(s, p) && n in FreedBy(s, p);
      } else {
        OwnedValue(Without(s.owned, p), n);
      }
    }
  }

  /** A table that is not given back is nowhere afterwards. */
  lemma TableLost(s: State, p: nat, data: map<Place, nat>)
    requires Inv(s) && DataOk(s, data) && FreedBy(s, p) != Positions(s, p)
    ensures Total(Destroyed(s, p), Gone(data, p)) != Total(s, data)
  {
    assert FreedBy(s, p) <= Positions(s, p);
    var n :| n in Positions(s, p) && n !in FreedBy(s, p);
    var f := s.owned[n];
    OwnedValue(s.owned, n);
    forall k | k in Gone(data, p) ensures Gone(data, p)[k] != f {
      assert Backed(s, k, data[k]) && Fresh(s, data[k]);
    }
    assert f !in Frames(s, FreedBy(s, p));
    assert f !in Without(s.owned, p).Values;
  }

  /** So is the frame of a noted page of the process. */
  lemma NoteLost(s: State, p: nat, data: map<Place, nat>)
    requires Inv(s) && DataOk(s, data) && !(forall k | k in data :: k.proc != p)
    ensures Total(Destroyed(s, p), Gone(data, p)) != Total(s, data)
  {
    var k :| k in data && k.proc == p;
    var f := data[k];
    ValueOf(data, k);
    assert Backed(s, k, f);
    FreshNotHeld(s, f);
    DestroyBounded(s, p, map[]);
    assert Held(Destroyed(s, p)) <= Total(Destroyed(s, p), Gone(map[], p));
    forall l | l in Gone(data, p) ensures Gone(data, p)[l] != f {
      assert data[l] == f ==> l == k;
    }
  }
}

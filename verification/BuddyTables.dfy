/** The two tables a region keeps: bitmap words and per-order free lists, as values. */
module BuddyTables {
  import opened Dyadic
  import opened BuddyTheory

  // ---------------------------------------------------------------
  // Bitmap: one bit per frame, 64 frames per word
  // ---------------------------------------------------------------

  const WORD_LIMIT: nat := 0x1_0000_0000_0000_0000

  predicate Word(w: nat) {
    w < WORD_LIMIT
  }

  lemma WordLimit()
    ensures Pow2(64) == WORD_LIMIT
  {
    Pow2Byte(0);
    Pow2Byte(8);
    Pow2Byte(16);
    Pow2Byte(24);
    Pow2Byte(32);
    Pow2Byte(40);
    Pow2Byte(48);
    Pow2Byte(56);
  }

  predicate WellFormedBitmap(bitmap: seq<nat>, frames: nat) {
    |bitmap| == (frames + 63) / 64 && forall i | 0 <= i < |bitmap| :: Word(bitmap[i])
  }

  function Used(bitmap: seq<nat>, frames: nat): (used: seq<bool>)
    requires WellFormedBitmap(bitmap, frames)
    ensures |used| == frames
    ensures forall i | 0 <= i < frames :: used[i] == Bit(bitmap[i / 64], i % 64)
  {
    seq(frames, i requires 0 <= i < frames => Bit(bitmap[i / 64], i % 64))
  }

  function SetFrame(bitmap: seq<nat>, f: nat): seq<nat>
    requires f / 64 < |bitmap|
  {
    bitmap[f / 64 := SetBit(bitmap[f / 64], f % 64)]
  }

  function ClearFrame(bitmap: seq<nat>, f: nat): seq<nat>
    requires f / 64 < |bitmap|
  {
    bitmap[f / 64 := ClearBit(bitmap[f / 64], f % 64)]
  }

  lemma SetFrameMarks(bitmap: seq<nat>, frames: nat, f: nat)
    requires WellFormedBitmap(bitmap, frames) && f < frames
    ensures WellFormedBitmap(SetFrame(bitmap, f), frames)
    ensures Used(SetFrame(bitmap, f), frames) == Used(bitmap, frames)[f := true]
  {
    WordLimit();
    BitOpsInRange(bitmap[f / 64], f % 64, 64);
    forall i | 0 <= i < frames
      ensures Used(SetFrame(bitmap, f), frames)[i] == Used(bitmap, frames)[f := true][i]
    {
      SetBitAt(bitmap[f / 64], f % 64, i % 64);
    }
  }

  lemma ClearFrameMarks(bitmap: seq<nat>, frames: nat, f: nat)
    requires WellFormedBitmap(bitmap, frames) && f < frames
    ensures WellFormedBitmap(ClearFrame(bitmap, f), frames)
    ensures Used(ClearFrame(bitmap, f), frames) == Used(bitmap, frames)[f := false]
  {
    WordLimit();
    BitOpsInRange(bitmap[f / 64], f % 64, 64);
    forall i | 0 <= i < frames
      ensures Used(ClearFrame(bitmap, f), frames)[i] == Used(bitmap, frames)[f := false][i]
    {
      ClearBitAt(bitmap[f / 64], f % 64, i % 64);
    }
  }

  /** A word of the bitmap is zero exactly when its 64 frames are free. */
  lemma SameWord(f: nat, i: nat)
    requires f % 64 == 0 && f <= i < f + 64
    ensures i / 64 == f / 64 && i % 64 == i - f
  {
  }

  lemma ZeroWordFree(bitmap: seq<nat>, frames: nat, f: nat)
    requires WellFormedBitmap(bitmap, frames) && f % 64 == 0 && f + 64 <= frames
    ensures bitmap[f / 64] == 0 <==> AllFree(Used(bitmap, frames), f, 64)
  {
    var w := bitmap[f / 64];
    WordLimit();
    ZeroWord(w, 64);
    if NoBits(w, 64) {
      forall i | f <= i < f + 64 ensures !Used(bitmap, frames)[i] {
        SameWord(f, i);
        assert !Bit(w, i % 64);
      }
    }
    if AllFree(Used(bitmap, frames), f, 64) {
      forall b | 0 <= b < 64 ensures !Bit(w, b) {
        SameWord(f, f + b);
        assert !Used(bitmap, frames)[f + b];
      }
    }
  }

  // ---------------------------------------------------------------
  // Free lists: physical addresses, one list per order
  // ---------------------------------------------------------------

  predicate NoRepeats(list: seq<nat>) {
    forall i, j | 0 <= i < j < |list| :: list[i] != list[j]
  }

  predicate WellFormedList(list: seq<nat>, start: nat) {
    NoRepeats(list) && forall i | 0 <= i < |list| :: start <= list[i] && (list[i] - start) % 4096 == 0
  }

  predicate WellFormedLists(lists: seq<seq<nat>>, start: nat) {
    |lists| == MAX_ORDER + 1 && forall k | 0 <= k < |lists| :: WellFormedList(lists[k], start)
  }

  function Address(start: nat, o: nat): nat {
    start + o * 4096
  }

  /** The blocks that the free lists name. */
  ghost function Family(lists: seq<seq<nat>>, start: nat): set<Block>
    requires WellFormedLists(lists, start)
  {
    set k, i | 0 <= k < |lists| && 0 <= i < |lists[k]| :: Block(k, (lists[k][i] - start) / 4096)
  }

  lemma Listed(lists: seq<seq<nat>>, start: nat, k: nat, o: nat)
    requires WellFormedLists(lists, start)
    ensures Block(k, o) in Family(lists, start) <==> k <= MAX_ORDER && Address(start, o) in lists[k]
  {
    if k <= MAX_ORDER && Address(start, o) in lists[k] {
      var i :| 0 <= i < |lists[k]| && lists[k][i] == Address(start, o);
      assert Block(k, (lists[k][i] - start) / 4096) == Block(k, o);
    }
    if Block(k, o) in Family(lists, start) {
      var i :| 0 <= i < |lists[k]| && (lists[k][i] - start) / 4096 == o;
      assert lists[k][i] == Address(start, o);
    }
  }

  /** Replacing one list changes the family at that order only. */
  lemma FamilyUpdate(lists: seq<seq<nat>>, start: nat, k: nat, list: seq<nat>, b: Block)
    requires WellFormedLists(lists, start) && k <= MAX_ORDER && WellFormedList(list, start)
    ensures WellFormedLists(lists[k := list], start)
    ensures b in Family(lists[k := list], start) <==>
            if b.order == k then Address(start, b.offset) in list else b in Family(lists, start)
  {
    Listed(lists, start, b.order, b.offset);
    Listed(lists[k := list], start, b.order, b.offset);
  }

  lemma AddressInjective(start: nat, o: nat, p: nat)
    ensures Address(start, o) == Address(start, p) ==> o == p
  {
  }

  /** Vec::push */
  lemma PushFamily(lists: seq<seq<nat>>, start: nat, k: nat, o: nat)
    requires WellFormedLists(lists, start) && k <= MAX_ORDER && Block(k, o) !in Family(lists, start)
    ensures WellFormedLists(lists[k := lists[k] + [Address(start, o)]], start)
    ensures Family(lists[k := lists[k] + [Address(start, o)]], start) == Family(lists, start) + {Block(k, o)}
  {
    Listed(lists, start, k, o);
    var list := lists[k] + [Address(start, o)];
    forall b ensures b in Family(lists[k := list], start) <==> b in Family(lists, start) + {Block(k, o)} {
      FamilyUpdate(lists, start, k, list, b);
      Listed(lists, start, b.order, b.offset);
    }
  }

  lemma RemoveFamily(lists: seq<seq<nat>>, start: nat, k: nat, o: nat, list: seq<nat>)
    requires WellFormedLists(lists, start) && k <= MAX_ORDER && WellFormedList(list, start)
    requires forall a :: a in list <==> a in lists[k] && a != Address(start, o)
    ensures WellFormedLists(lists[k := list], start)
    ensures Family(lists[k := list], start) == Family(lists, start) - {Block(k, o)}
  {
    forall b ensures b in Family(lists[k := list], start) <==> b in Family(lists, start) - {Block(k, o)} {
      FamilyUpdate(lists, start, k, list, b);
      Listed(lists, start, b.order, b.offset);
      AddressInjective(start, o, b.offset);
    }
  }

  /** Vec::pop */
  lemma PopFamily(lists: seq<seq<nat>>, start: nat, k: nat)
    requires WellFormedLists(lists, start) && k <= MAX_ORDER && lists[k] != []
    ensures var n := |lists[k]| - 1; var b := Block(k, (lists[k][n] - start) / 4096);
            && b in Family(lists, start)
            && Address(start, b.offset) == lists[k][n]
            && WellFormedLists(lists[k := lists[k][..n]], start)
            && Family(lists[k := lists[k][..n]], start) == Family(lists, start) - {b}
  {
    var n := |lists[k]| - 1;
    var o := (lists[k][n] - start) / 4096;
    assert Address(start, o) == lists[k][n];
    Listed(lists, start, k, o);
    assert lists[k] == lists[k][..n] + [lists[k][n]];
    RemoveFamily(lists, start, k, o, lists[k][..n]);
  }

  /** Vec::swap_remove: the last element takes the place of the removed one. */
  function SwapRemove(list: seq<nat>, pos: nat): seq<nat>
    requires pos < |list|
  {
    var n := |list| - 1;
    if pos == n then list[..n] else list[..n][pos := list[n]]
  }

  lemma SwapRemoveElements(list: seq<nat>, pos: nat)
    requires pos < |list| && NoRepeats(list)
    ensures NoRepeats(SwapRemove(list, pos))
    ensures forall a :: a in SwapRemove(list, pos) <==> a in list && a != list[pos]
  {
    var n := |list| - 1;
    var s := SwapRemove(list, pos);
    forall a | a in list && a != list[pos] ensures a in s {
      var i :| 0 <= i < |list| && list[i] == a;
      if i < n { assert s[i] == a; } else { assert s[pos] == a; }
    }
  }

  lemma SwapRemoveFamily(lists: seq<seq<nat>>, start: nat, k: nat, pos: nat, o: nat)
    requires WellFormedLists(lists, start) && k <= MAX_ORDER && pos < |lists[k]|
    requires lists[k][pos] == Address(start, o)
    ensures WellFormedLists(lists[k := SwapRemove(lists[k], pos)], start)
    ensures Family(lists[k := SwapRemove(lists[k], pos)], start) == Family(lists, start) - {Block(k, o)}
  {
    SwapRemoveElements(lists[k], pos);
    RemoveFamily(lists, start, k, o, SwapRemove(lists[k], pos));
  }

  function Reverse(list: seq<nat>): seq<nat> {
    seq(|list|, i requires 0 <= i < |list| => list[|list| - 1 - i])
  }

  lemma ReverseFamily(lists: seq<seq<nat>>, start: nat, k: nat)
    requires WellFormedLists(lists, start) && k <= MAX_ORDER
    ensures WellFormedLists(lists[k := Reverse(lists[k])], start)
    ensures Family(lists[k := Reverse(lists[k])], start) == Family(lists, start)
  {
    var r := Reverse(lists[k]);
    forall a ensures a in r <==> a in lists[k] {
      if a in lists[k] {
        var i :| 0 <= i < |lists[k]| && lists[k][i] == a;
        assert r[|lists[k]| - 1 - i] == a;
      }
    }
    forall b ensures b in Family(lists[k := r], start) <==> b in Family(lists, start) {
      FamilyUpdate(lists, start, k, r, b);
      Listed(lists, start, b.order, b.offset);
    }
  }
}

/** One physical memory region managed by a binary buddy allocator. */
module BuddyRegion {
  import opened Options
  import opened Dyadic
  import opened BuddyTheory
  import opened BuddyTables

  // ---------------------------------------------------------------
  // Scanning the bitmap from left to right
  // ---------------------------------------------------------------

  /** fam holds exactly the maximal blocks left of offset, and none straddles offset. */
  ghost predicate Scanned(fam: set<Block>, used: seq<bool>, offset: nat) {
    && (forall b :: b in fam <==> Maximal(used, b) && b.offset + Pow2(b.order) <= offset)
    && (forall b | Maximal(used, b) :: b.offset + Pow2(b.order) <= offset || offset <= b.offset)
  }

  lemma ScanUsed(fam: set<Block>, used: seq<bool>, offset: nat)
    requires Scanned(fam, used, offset) && offset < |used| && used[offset]
    ensures Scanned(fam, used, offset + 1)
  {
  }

  /** The largest free order at a scan position is the order of a maximal block. */
  lemma ScanMaximal(fam: set<Block>, used: seq<bool>, offset: nat, k: nat)
    requires Scanned(fam, used, offset) && k <= MAX_ORDER && FreeBlock(used, k, offset)
    requires k < MAX_ORDER ==> !FreeBlock(used, k + 1, offset)
    ensures Maximal(used, Block(k, offset))
  {
    if k < MAX_ORDER {
      var q := Parent(k, offset);
      ParentCases(k, offset);
      if FreeBlock(used, k + 1, q) {
        var m := Grow(used, k + 1, q);
      }
    }
  }

  lemma ScanFree(fam: set<Block>, used: seq<bool>, offset: nat, k: nat)
    requires Scanned(fam, used, offset) && Maximal(used, Block(k, offset))
    ensures Scanned(fam + {Block(k, offset)}, used, offset + Pow2(k))
  {
    forall b | Maximal(used, b) && b != Block(k, offset)
      ensures b.offset + Pow2(b.order) <= offset || offset + Pow2(k) <= b.offset
    {
      MaximalDisjoint(used, b, Block(k, offset));
    }
  }

  lemma ScanDone(fam: set<Block>, used: seq<bool>)
    requires Scanned(fam, used, |used|)
    ensures Canonical(fam, used)
  {
  }

  predicate Ascending(list: seq<nat>) {
    forall i, j | 0 <= i < j < |list| :: list[i] < list[j]
  }

  predicate Descending(list: seq<nat>) {
    forall i, j | 0 <= i < j < |list| :: list[i] > list[j]
  }

  /** Every list is ascending and stays below a bound. */
  predicate AllBelow(lists: seq<seq<nat>>, bound: nat) {
    forall k | 0 <= k < |lists| ::
      Ascending(lists[k]) && forall i | 0 <= i < |lists[k]| :: lists[k][i] < bound
  }

  lemma PushBelow(lists: seq<seq<nat>>, k: nat, a: nat, bound: nat)
    requires k < |lists| && AllBelow(lists, a) && a < bound
    ensures AllBelow(lists[k := lists[k] + [a]], bound)
  {
  }

  /** None of the halves that splitting b can produce is listed. */
  predicate HalvesUnlisted(fam: set<Block>, b: Block) {
    forall i | 0 <= i < b.order :: Block(i, b.offset + Pow2(i)) !in fam
  }

  lemma HalfNotMaximal(used: seq<bool>, b: Block, i: nat)
    requires Maximal(used, b) && i < b.order
    ensures !Maximal(used, Block(i, b.offset + Pow2(i)))
  {
    HalfShape(b.order, b.offset, i);
    if Maximal(used, Block(i, b.offset + Pow2(i))) {
      MaximalNotBelow(used, Block(i, b.offset + Pow2(i)), b, b.offset + Pow2(i));
    }
  }

  lemma CanonicalHalvesUnlisted(fam: set<Block>, used: seq<bool>, b: Block)
    requires Canonical(fam, used) && b in fam
    ensures HalvesUnlisted(fam, b)
  {
    forall i | 0 <= i < b.order ensures Block(i, b.offset + Pow2(i)) !in fam {
      HalfNotMaximal(used, b, i);
    }
  }

  /** An aligned run of 2^order free frames exists and the order is one the allocator serves. */
  ghost predicate Fits(used: seq<bool>, order: nat) {
    order <= MAX_ORDER && exists o :: FreeBlock(used, order, o)
  }

  /** addr names an aligned block that was free and is now marked, and nothing else changed. */
  ghost predicate HandedOut(before: seq<bool>, after: seq<bool>, start: nat, addr: nat, order: nat) {
    && start <= addr && (addr - start) % 4096 == 0
    && FreeBlock(before, order, (addr - start) / 4096)
    && Marked(before, after, (addr - start) / 4096, Pow2(order), true)
  }

  class RegionBuddyAllocator {
    const start: nat
    const pageCount: nat
    var freeLists: seq<seq<nat>>
    var bitmap: seq<nat>

    ghost predicate WellFormed()
      reads this
    {
      WellFormedBitmap(bitmap, pageCount) && WellFormedLists(freeLists, start)
    }

    /** The free lists are the canonical family of the bitmap. */
    ghost predicate Valid()
      reads this
    {
      WellFormed() && Canonical(Blocks(), UsedFrames())
    }

    ghost function Blocks(): set<Block>
      reads this
      requires WellFormedLists(freeLists, start)
    {
      Family(freeLists, start)
    }

    ghost function UsedFrames(): seq<bool>
      reads this
      requires WellFormedBitmap(bitmap, pageCount)
    {
      Used(bitmap, pageCount)
    }

    constructor (start: nat, pageCount: nat)
      ensures Valid() && this.start == start && this.pageCount == pageCount
      ensures forall i | 0 <= i < pageCount :: !UsedFrames()[i]
    {
      this.start := start;
      this.pageCount := pageCount;
      freeLists := seq(MAX_ORDER + 1, _ => []);
      bitmap := seq((pageCount + 63) / 64, _ => 0);
      new;
      assert forall i | 0 <= i < pageCount :: !Bit(bitmap[i / 64], i % 64) by {
        forall i | 0 <= i < pageCount ensures !Bit(bitmap[i / 64], i % 64) {
          ZeroWord(0, 64);
        }
      }
      BuildFreeLists();
    }

    /** Rebuilding from the bitmap yields the canonical family, lowest address last. */
    method BuildFreeLists()
      requires WellFormedBitmap(bitmap, pageCount) && |freeLists| == MAX_ORDER + 1
      modifies this`freeLists
      ensures Valid()
      ensures forall k | 0 <= k <= MAX_ORDER :: Descending(freeLists[k])
    {
      freeLists := seq(MAX_ORDER + 1, _ => []);
      ScanBitmap();
      for k := 0 to MAX_ORDER + 1
        invariant Valid()
        invariant forall i | 0 <= i < k :: Descending(freeLists[i])
        invariant forall i | k <= i <= MAX_ORDER :: Ascending(freeLists[i])
      {
        ReverseFamily(freeLists, start, k);
        freeLists := freeLists[k := Reverse(freeLists[k])];
      }
    }

    /** The scanning loop of BuildFreeLists. */
    method ScanBitmap()
      requires WellFormed() && forall k | 0 <= k <= MAX_ORDER :: freeLists[k] == []
      modifies this`freeLists
      ensures Valid()
      ensures forall k | 0 <= k <= MAX_ORDER :: Ascending(freeLists[k])
    {
      ghost var used := UsedFrames();
      var offset: nat := 0;
      assert Blocks() == {};
      while offset < pageCount
        invariant offset <= pageCount && WellFormed()
        invariant Scanned(Blocks(), used, offset)
        invariant AllBelow(freeLists, Address(start, offset))
      {
        var inUse := IsFrameAllocated(offset);
        if inUse {
          ScanUsed(Blocks(), used, offset);
          offset := offset + 1;
        } else {
          offset := PushMaximalAt(used, offset);
        }
      }
      ScanDone(Blocks(), used);
    }

    method PushMaximalAt(ghost used: seq<bool>, offset: nat) returns (next: nat)
      requires WellFormed() && used == UsedFrames() && offset < pageCount && !used[offset]
      requires Scanned(Blocks(), used, offset) && AllBelow(freeLists, Address(start, offset))
      modifies this`freeLists
      ensures offset < next <= pageCount && WellFormed()
      ensures Scanned(Blocks(), used, next) && AllBelow(freeLists, Address(start, next))
    {
      var order := MaxFreeOrderAt(offset);
      ScanMaximal(Blocks(), used, offset, order);
      ScanFree(Blocks(), used, offset, order);
      PushFamily(freeLists, start, order, offset);
      next := offset + Pow2(order);
      PushBelow(freeLists, order, Address(start, offset), Address(start, next));
      freeLists := freeLists[order := freeLists[order] + [Address(start, offset)]];
    }

    /** The largest order of a free aligned block starting at a free frame. */
    method MaxFreeOrderAt(offset: nat) returns (order: nat)
      requires WellFormedBitmap(bitmap, pageCount)
      requires offset < pageCount && !UsedFrames()[offset]
      ensures order <= MAX_ORDER && FreeBlock(UsedFrames(), order, offset)
      ensures order < MAX_ORDER ==> !FreeBlock(UsedFrames(), order + 1, offset)
    {
      order := 0;
      AnyAligned(offset);
      assert Pow2(0) == 1;
      while order < MAX_ORDER
        invariant order <= MAX_ORDER && FreeBlock(UsedFrames(), order, offset)
        decreases MAX_ORDER - order
      {
        var nextOrder := order + 1;
        var nextSize := Pow2(nextOrder);
        AlignedIsMod(nextOrder, offset);
        if offset % nextSize != 0 {
          break;
        }
        if offset + nextSize > pageCount {
          break;
        }
        var half := Pow2(order);
        var upper := IsRangeFree(offset + half, half);
        if !upper {
          break;
        }
        order := nextOrder;
      }
    }

    method IsFrameAllocated(pageOffset: nat) returns (inUse: bool)
      requires WellFormedBitmap(bitmap, pageCount)
      ensures pageOffset < pageCount ==> inUse == UsedFrames()[pageOffset]
      ensures pageOffset < pageCount ==> inUse == !AllFree(UsedFrames(), pageOffset, 1)
      ensures pageOffset >= 64 * |bitmap| ==> inUse
    {
      var word := pageOffset / 64;
      var bit := pageOffset % 64;
      if word >= |bitmap| {
        return true;
      }
      return Bit(bitmap[word], bit);
    }

    method SetFrameAllocated(pageOffset: nat)
      requires WellFormedBitmap(bitmap, pageCount) && pageOffset < pageCount
      modifies this`bitmap
      ensures WellFormedBitmap(bitmap, pageCount)
      ensures UsedFrames() == old(UsedFrames())[pageOffset := true]
    {
      SetFrameMarks(bitmap, pageCount, pageOffset);
      bitmap := SetFrame(bitmap, pageOffset);
    }

    method SetFrameFree(pageOffset: nat)
      requires WellFormedBitmap(bitmap, pageCount) && pageOffset < pageCount
      modifies this`bitmap
      ensures WellFormedBitmap(bitmap, pageCount)
      ensures UsedFrames() == old(UsedFrames())[pageOffset := false]
    {
      ClearFrameMarks(bitmap, pageCount, pageOffset);
      bitmap := ClearFrame(bitmap, pageOffset);
    }

    /** Frame-by-frame at the ragged ends, 64 frames per comparison in between. */
    method IsRangeFree(startOffset: nat, count: nat) returns (free: bool)
      requires WellFormedBitmap(bitmap, pageCount) && startOffset + count <= pageCount
      ensures free <==> AllFree(UsedFrames(), startOffset, count)
    {
      ghost var used := UsedFrames();
      var end := startOffset + count;
      var offset := startOffset;
      while offset < end && offset % 64 != 0
        invariant startOffset <= offset <= end
        invariant AllFree(used, startOffset, offset - startOffset)
      {
        var inUse := IsFrameAllocated(offset);
        AllFreeJoin(used, startOffset, offset - startOffset, 1, count);
        if inUse {
          return false;
        }
        offset := offset + 1;
      }
      while offset + 64 <= end
        invariant startOffset <= offset <= end
        invariant offset % 64 == 0 || offset == end
        invariant AllFree(used, startOffset, offset - startOffset)
      {
        var wordFree := IsWordFree(offset);
        AllFreeJoin(used, startOffset, offset - startOffset, 64, count);
        if !wordFree {
          return false;
        }
        offset := offset + 64;
      }
      while offset < end
        invariant startOffset <= offset <= end
        invariant AllFree(used, startOffset, offset - startOffset)
      {
        var inUse := IsFrameAllocated(offset);
        AllFreeJoin(used, startOffset, offset - startOffset, 1, count);
        if inUse {
          return false;
        }
        offset := offset + 1;
      }
      return true;
    }

    /** One comparison for 64 frames. */
    method IsWordFree(offset: nat) returns (free: bool)
      requires WellFormedBitmap(bitmap, pageCount) && offset % 64 == 0 && offset + 64 <= pageCount
      ensures free <==> AllFree(UsedFrames(), offset, 64)
    {
      var wordIdx := offset / 64;
      ZeroWordFree(bitmap, pageCount, offset);
      return !(wordIdx < |bitmap| && bitmap[wordIdx] != 0);
    }

    method MarkRangeAllocated(startOffset: nat, count: nat)
      requires WellFormedBitmap(bitmap, pageCount) && startOffset + count <= pageCount
      modifies this`bitmap
      ensures WellFormedBitmap(bitmap, pageCount)
      ensures Marked(old(UsedFrames()), UsedFrames(), startOffset, count, true)
    {
      for i := 0 to count
        invariant WellFormedBitmap(bitmap, pageCount)
        invariant Marked(old(UsedFrames()), UsedFrames(), startOffset, i, true)
      {
        SetFrameAllocated(startOffset + i);
      }
    }

    method MarkRangeFree(startOffset: nat, count: nat)
      requires WellFormedBitmap(bitmap, pageCount) && startOffset + count <= pageCount
      modifies this`bitmap
      ensures WellFormedBitmap(bitmap, pageCount)
      ensures Marked(old(UsedFrames()), UsedFrames(), startOffset, count, false)
    {
      for i := 0 to count
        invariant WellFormedBitmap(bitmap, pageCount)
        invariant Marked(old(UsedFrames()), UsedFrames(), startOffset, i, false)
      {
        SetFrameFree(startOffset + i);
      }
    }

    /**
     Hands out an aligned block that was free, marks exactly it, and keeps the lists
     canonical. Fails, changing nothing, exactly when no aligned run of that size is free.
     */
    method Allocate(order: nat) returns (r: Option<nat>)
      requires Valid()
      modifies this
      ensures Valid()
      ensures r.None? <==> !Fits(old(UsedFrames()), order)
      ensures r.None? ==> bitmap == old(bitmap) && freeLists == old(freeLists)
      ensures r.Some? ==> HandedOut(old(UsedFrames()), UsedFrames(), start, r.value, order)
    {
      ghost var used, fam := UsedFrames(), Blocks();
      var j := SmallestOrder(order);
      if j > MAX_ORDER {
        return None;
      }
      var blockAddr := PopBlock(j);
      ghost var b := Block(j, (blockAddr - start) / 4096);
      CanonicalHalvesUnlisted(fam, used, b);
      SplitDown(fam, b, blockAddr, j, order);
      var pageOffset := (blockAddr - start) / 4096;
      var frameCount := Pow2(order);
      AllocatedBlockFree(fam, used, b, order);
      MarkRangeAllocated(pageOffset, frameCount);
      AllocateKeepsCanonical(fam, Blocks(), used, UsedFrames(), b, order);
      return Some(blockAddr);
    }

    /** The first loop of Allocate: the smallest sufficient order with a listed block. */
    method SmallestOrder(order: nat) returns (j: nat)
      requires Valid()
      ensures order <= j
      ensures j <= MAX_ORDER ==> freeLists[j] != []
      ensures j > MAX_ORDER <==> !Fits(UsedFrames(), order)
    {
      j := order;
      while j <= MAX_ORDER
        invariant order <= j
        invariant forall k | order <= k < j && k <= MAX_ORDER :: freeLists[k] == []
      {
        if freeLists[j] != [] {
          break;
        }
        j := j + 1;
      }
      if order <= MAX_ORDER {
        FitsIffListed(Blocks(), UsedFrames(), order);
        if j <= MAX_ORDER { PopFamily(freeLists, start, j); }
      }
    }

    method PopBlock(j: nat) returns (blockAddr: nat)
      requires WellFormedLists(freeLists, start) && j <= MAX_ORDER && freeLists[j] != []
      modifies this`freeLists
      ensures WellFormedLists(freeLists, start)
      ensures start <= blockAddr && (blockAddr - start) % 4096 == 0
      ensures var b := Block(j, (blockAddr - start) / 4096);
              b in old(Blocks()) && SplitOf(old(Blocks()), Blocks(), b, j)
    {
      PopFamily(freeLists, start, j);
      blockAddr := freeLists[j][|freeLists[j]| - 1];
      freeLists := freeLists[j := freeLists[j][..|freeLists[j]| - 1]];
    }

    /** The splitting loop of Allocate: push the upper half at each order below the popped block. */
    method SplitDown(ghost fam: set<Block>, ghost b: Block, blockAddr: nat, from: nat, order: nat)
      requires WellFormedLists(freeLists, start) && HalvesUnlisted(fam, b)
      requires order <= from == b.order <= MAX_ORDER && blockAddr == Address(start, b.offset)
      requires SplitOf(fam, Blocks(), b, from)
      modifies this`freeLists
      ensures WellFormedLists(freeLists, start) && SplitOf(fam, Blocks(), b, order)
    {
      var j := from;
      while j > order
        invariant order <= j <= b.order && WellFormedLists(freeLists, start)
        invariant SplitOf(fam, Blocks(), b, j)
      {
        j := j - 1;
        var buddyAddr := blockAddr + Pow2(j) * 4096;
        assert buddyAddr == Address(start, b.offset + Pow2(j));
        SplitStep(fam, Blocks(), b, j);
        PushFamily(freeLists, start, j, b.offset + Pow2(j));
        freeLists := freeLists[j := freeLists[j] + [buddyAddr]];
      }
    }

    /**
     Returns false, changing nothing, when the first frame is already free; otherwise
     frees exactly the block and coalesces until the lists are canonical again.
     */
    method Deallocate(addr: nat, order: nat) returns (ok: bool)
      requires Valid() && order <= MAX_ORDER
      requires start <= addr && (addr - start) % 4096 == 0
      requires Aligned(order, (addr - start) / 4096)
      requires (addr - start) / 4096 + Pow2(order) <= pageCount
      requires var o := (addr - start) / 4096;
               UsedFrames()[o] ==> forall i | o <= i < o + Pow2(order) :: UsedFrames()[i]
      modifies this
      ensures Valid()
      ensures ok == old(UsedFrames()[(addr - start) / 4096])
      ensures !ok ==> bitmap == old(bitmap) && freeLists == old(freeLists)
      ensures ok ==> Marked(old(UsedFrames()), UsedFrames(), (addr - start) / 4096, Pow2(order), false)
    {
      var pageOffset := (addr - start) / 4096;
      var inUse := IsFrameAllocated(pageOffset);
      if !inUse {
        return false;
      }
      ghost var before, fam := UsedFrames(), Blocks();
      var frameCount := Pow2(order);
      MarkRangeFree(pageOffset, frameCount);
      ghost var used := UsedFrames();
      CoalesceInit(fam, before, used, order, pageOffset);
      Partition(fam, before);
      CoalesceFrom(used, pageOffset, order);
      return true;
    }

    /** The coalescing loop of Deallocate and the final push. */
    method CoalesceFrom(ghost used: seq<bool>, pageOffset: nat, order: nat)
      requires order <= MAX_ORDER && Merging(used, order, pageOffset)
      modifies this`freeLists
      ensures Valid()
    {
      var currentOffset: nat, currentOrder: nat := pageOffset, order;
      while currentOrder < MAX_ORDER
        invariant currentOrder <= MAX_ORDER && Merging(used, currentOrder, currentOffset)
        decreases MAX_ORDER - currentOrder
      {
        var merged := MergeBuddy(used, currentOffset, currentOrder);
        if merged.None? {
          break;
        }
        currentOffset, currentOrder := merged.value, currentOrder + 1;
      }
      NoneAbove(Blocks(), used, currentOrder, currentOffset);
      assert Block(currentOrder, currentOffset) !in Blocks();
      PushFamily(freeLists, start, currentOrder, currentOffset);
      freeLists := freeLists[currentOrder := freeLists[currentOrder] + [Address(start, currentOffset)]];
    }

    /** The coalescing loop's state: the block in hand is free and absent from the lists. */
    ghost predicate Merging(used: seq<bool>, k: nat, c: nat)
      reads this
    {
      && WellFormed() && UsedFrames() == used
      && PairwiseDisjoint(Blocks()) && Coalescing(Blocks(), used, k, c)
    }

    /** One round of the coalescing loop: absorb the buddy if the list of this order holds it. */
    method MergeBuddy(ghost used: seq<bool>, offset: nat, order: nat) returns (merged: Option<nat>)
      requires order < MAX_ORDER && Merging(used, order, offset)
      modifies this`freeLists
      ensures merged.Some? ==> Merging(used, order + 1, merged.value)
      ensures merged.None? ==> Merging(used, order, offset) && !FreeBlock(used, order + 1, Parent(order, offset))
    {
      var blockSize := Pow2(order);
      BuddyShape(order, offset);
      var buddyOffset: nat := Xor(offset, blockSize);
      if buddyOffset + blockSize > pageCount {
        return None;
      }
      var buddyAddr := Address(start, buddyOffset);
      var pos := Position(freeLists[order], buddyAddr);
      Listed(freeLists, start, order, buddyOffset);
      if pos.None? {
        BuddyMissing(Blocks(), used, order, offset);
        return None;
      }
      CoalesceMerge(Blocks(), used, order, offset);
      SwapRemoveFamily(freeLists, start, order, pos.value, buddyOffset);
      freeLists := freeLists[order := SwapRemove(freeLists[order], pos.value)];
      return Some(if offset < buddyOffset then offset else buddyOffset);
    }
  }

  lemma AllocatedBlockFree(fam: set<Block>, used: seq<bool>, b: Block, k: nat)
    requires Canonical(fam, used) && b in fam && k <= b.order
    ensures FreeBlock(used, k, b.offset)
  {
    Pow2Monotone(k, b.order);
    AlignedCoarser(k, b.order, b.offset);
  }

  /** Iterator::position for an equality test. */
  method Position(list: seq<nat>, a: nat) returns (pos: Option<nat>)
    ensures pos.Some? ==> pos.value < |list| && list[pos.value] == a
    ensures pos.None? ==> a !in list
  {
    for i := 0 to |list|
      invariant a !in list[..i]
    {
      if list[i] == a {
        return Some(i);
      }
    }
    return None;
  }
}

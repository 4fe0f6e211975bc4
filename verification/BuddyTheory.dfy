/**
 The canonical free-block family of a bitmap: the maximal aligned free blocks.
 Everything here is about values; the allocator that keeps its free lists equal
 to this family is in BuddyRegion.
 */
module BuddyTheory {
  import opened Dyadic

  const MAX_ORDER: nat := 10

  datatype Block = Block(order: nat, offset: nat)

  predicate Holds(b: Block, f: nat) {
    Inside(b.order, b.offset, f)
  }

  predicate Disjoint(b: Block, c: Block) {
    b.offset + Pow2(b.order) <= c.offset || c.offset + Pow2(c.order) <= b.offset
  }

  predicate AllFree(used: seq<bool>, lo: nat, n: nat) {
    lo + n <= |used| && forall i | lo <= i < lo + n :: !used[i]
  }

  lemma AllFreeJoin(used: seq<bool>, lo: nat, n: nat, m: nat, total: nat)
    requires lo + n + m <= lo + total <= |used| && AllFree(used, lo, n)
    ensures AllFree(used, lo + n, m) ==> AllFree(used, lo, n + m)
    ensures !AllFree(used, lo + n, m) ==> !AllFree(used, lo, total)
  {
  }

  /** used[i] is the bitmap bit of frame i. */
  ghost predicate FreeBlock(used: seq<bool>, k: nat, o: nat) {
    Aligned(k, o) && AllFree(used, o, Pow2(k))
  }

  /** A free block that cannot be merged into a free block of the next order. */
  ghost predicate Maximal(used: seq<bool>, b: Block) {
    && b.order <= MAX_ORDER
    && FreeBlock(used, b.order, b.offset)
    && (b.order < MAX_ORDER ==> !FreeBlock(used, b.order + 1, Parent(b.order, b.offset)))
  }

  predicate Covered(fam: set<Block>, f: nat) {
    exists b :: b in fam && Holds(b, f)
  }

  predicate Covers(fam: set<Block>, used: seq<bool>) {
    forall f: nat | f < |used| && !used[f] :: Covered(fam, f)
  }

  predicate PairwiseDisjoint(fam: set<Block>) {
    forall b, c | b in fam && c in fam && b != c :: Disjoint(b, c)
  }

  ghost predicate Canonical(fam: set<Block>, used: seq<bool>) {
    forall b :: b in fam <==> Maximal(used, b)
  }

  // ---------------------------------------------------------------
  // Maximal blocks
  // ---------------------------------------------------------------

  lemma SubBlockFree(used: seq<bool>, j: nat, p: nat, k: nat, o: nat, f: nat)
    requires FreeBlock(used, k, o) && Aligned(j, p) && j <= k
    requires Inside(j, p, f) && Inside(k, o, f)
    ensures FreeBlock(used, j, p)
  {
    Laminar(j, p, k, o, f);
  }

  lemma MaximalNotBelow(used: seq<bool>, b: Block, c: Block, f: nat)
    requires Maximal(used, b) && FreeBlock(used, c.order, c.offset) && c.order <= MAX_ORDER
    requires Holds(b, f) && Holds(c, f)
    ensures c.order <= b.order
    ensures c.order == b.order ==> c == b
  {
    if b.order < c.order {
      var q := Parent(b.order, b.offset);
      ParentCases(b.order, b.offset);
      SubBlockFree(used, b.order + 1, q, c.order, c.offset, f);
      assert false;
    }
    if c.order == b.order { Laminar(b.order, b.offset, c.order, c.offset, f); }
  }

  lemma MaximalUnique(used: seq<bool>, b: Block, c: Block, f: nat)
    requires Maximal(used, b) && Maximal(used, c) && Holds(b, f) && Holds(c, f)
    ensures b == c
  {
    MaximalNotBelow(used, b, c, f);
    MaximalNotBelow(used, c, b, f);
  }

  lemma MaximalDisjoint(used: seq<bool>, b: Block, c: Block)
    requires Maximal(used, b) && Maximal(used, c) && b != c
    ensures Disjoint(b, c)
  {
    if !Disjoint(b, c) {
      MaximalUnique(used, b, c, if b.offset < c.offset then c.offset else b.offset);
    }
  }

  /** The maximal block that a free block has grown into. */
  ghost function Grow(used: seq<bool>, k: nat, o: nat): (m: Block)
    requires k <= MAX_ORDER && FreeBlock(used, k, o)
    ensures Maximal(used, m) && k <= m.order
    ensures m.offset <= o && o + Pow2(k) <= m.offset + Pow2(m.order)
    decreases MAX_ORDER - k
  {
    if k < MAX_ORDER && FreeBlock(used, k + 1, Parent(k, o))
    then ParentCases(k, o); Grow(used, k + 1, Parent(k, o))
    else Block(k, o)
  }

  /** Listing only maximal blocks and missing no free frame forces the canonical family. */
  lemma CanonicalFromCover(fam: set<Block>, used: seq<bool>)
    requires forall b | b in fam :: Maximal(used, b)
    requires Covers(fam, used)
    ensures Canonical(fam, used)
  {
    forall b | Maximal(used, b) ensures b in fam {
      assert Covered(fam, b.offset);
      var c :| c in fam && Holds(c, b.offset);
      MaximalUnique(used, b, c, b.offset);
    }
  }

  lemma CanonicalCovers(fam: set<Block>, used: seq<bool>)
    requires Canonical(fam, used)
    ensures Covers(fam, used)
  {
    forall f: nat | f < |used| && !used[f] ensures Covered(fam, f) {
      AnyAligned(f);
      assert Pow2(0) == 1;
      var m := Grow(used, 0, f);
      assert m in fam && Holds(m, f);
    }
  }

  /**
   The canonical family is a partition of the free frames into aligned, in-range,
   pairwise disjoint blocks, no two of which are buddies that could be merged.
   */
  lemma Partition(fam: set<Block>, used: seq<bool>)
    requires Canonical(fam, used)
    ensures forall b | b in fam ::
              b.order <= MAX_ORDER && Aligned(b.order, b.offset) && b.offset + Pow2(b.order) <= |used|
    ensures PairwiseDisjoint(fam)
    ensures forall f: nat :: Covered(fam, f) <==> f < |used| && !used[f]
    ensures forall b, c | b in fam && c in fam && b != c && b.order < MAX_ORDER ::
              !(b.order == c.order && Parent(b.order, b.offset) == Parent(c.order, c.offset))
  {
    CanonicalCovers(fam, used);
    forall b, c | b in fam && c in fam && b != c ensures Disjoint(b, c) {
      MaximalDisjoint(used, b, c);
    }
    forall b, c | b in fam && c in fam && b != c && b.order < MAX_ORDER && b.order == c.order
      ensures Parent(b.order, b.offset) != Parent(c.order, c.offset)
    {
      ParentCases(b.order, b.offset);
      ParentCases(c.order, c.offset);
    }
  }

  /** An aligned free run of 2^k frames exists exactly when some listed block has order at least k. */
  lemma FitsIffListed(fam: set<Block>, used: seq<bool>, k: nat)
    requires Canonical(fam, used) && k <= MAX_ORDER
    ensures (exists o :: FreeBlock(used, k, o)) <==> (exists b :: b in fam && k <= b.order)
  {
    if o :| FreeBlock(used, k, o) {
      var m := Grow(used, k, o);
      assert m in fam;
    }
    if b :| b in fam && k <= b.order {
      Pow2Monotone(k, b.order);
      AlignedCoarser(k, b.order, b.offset);
      assert FreeBlock(used, k, b.offset);
    }
  }

  // ---------------------------------------------------------------
  // Marking a range
  // ---------------------------------------------------------------

  /** after is before with the n bits from lo on set to v. */
  predicate Marked(before: seq<bool>, after: seq<bool>, lo: nat, n: nat, v: bool) {
    && lo + n <= |before| == |after|
    && (forall i | 0 <= i < |before| && !(lo <= i < lo + n) :: after[i] == before[i])
    && (forall i | lo <= i < lo + n :: after[i] == v)
  }

  function CountUsed(used: seq<bool>): nat {
    if used == [] then 0 else CountUsed(used[..|used| - 1]) + if used[|used| - 1] then 1 else 0
  }

  lemma {:induction false} CountAppend(a: seq<bool>, b: seq<bool>)
    ensures CountUsed(a + b) == CountUsed(a) + CountUsed(b)
  {
    if b == [] {
      assert a + b == a;
    } else {
      assert (a + b)[..|a + b| - 1] == a + b[..|b| - 1];
      CountAppend(a, b[..|b| - 1]);
    }
  }

  lemma {:induction false} CountConstant(s: seq<bool>, v: bool)
    requires forall i | 0 <= i < |s| :: s[i] == v
    ensures CountUsed(s) == if v then |s| else 0
  {
    if s != [] { CountConstant(s[..|s| - 1], v); }
  }

  lemma CountReplace(a: seq<bool>, m: seq<bool>, n: seq<bool>, z: seq<bool>)
    ensures CountUsed(a + m + z) - CountUsed(m) == CountUsed(a + n + z) - CountUsed(n)
  {
    CountAppend(a, m);
    CountAppend(a + m, z);
    CountAppend(a, n);
    CountAppend(a + n, z);
  }

  /** Flipping a range that was uniformly the other way moves the count by the range's length. */
  lemma CountMarked(before: seq<bool>, after: seq<bool>, lo: nat, n: nat, v: bool)
    requires Marked(before, after, lo, n, v)
    requires forall i | lo <= i < lo + n :: before[i] == !v
    ensures v ==> CountUsed(after) == CountUsed(before) + n
    ensures !v ==> CountUsed(after) == CountUsed(before) - n
  {
    var front, was, now, rest := before[..lo], before[lo..lo + n], after[lo..lo + n], before[lo + n..];
    assert before == front + was + rest;
    assert after == front + now + rest;
    CountReplace(front, was, now, rest);
    CountConstant(was, !v);
    CountConstant(now, v);
  }

  // ---------------------------------------------------------------
  // Allocation: split one block
  // ---------------------------------------------------------------

  /** h now an upper half left over when b now split down to order k. */
  predicate IsHalf(b: Block, k: nat, h: Block) {
    k <= h.order < b.order && h.offset == b.offset + Pow2(h.order)
  }

  /** after is fam with block b taken out and split down to order k. */
  ghost predicate SplitOf(fam: set<Block>, after: set<Block>, b: Block, k: nat) {
    forall h :: h in after <==> (h in fam && h != b) || IsHalf(b, k, h)
  }

  lemma SplitStep(fam: set<Block>, now: set<Block>, b: Block, k: nat)
    requires SplitOf(fam, now, b, k + 1) && k < b.order
    ensures SplitOf(fam, now + {Block(k, b.offset + Pow2(k))}, b, k)
  {
  }

  lemma {:induction false} HalfHolding(b: Block, k: nat, f: nat) returns (h: Block)
    requires k <= b.order && b.offset + Pow2(k) <= f < b.offset + Pow2(b.order)
    ensures IsHalf(b, k, h) && Holds(h, f)
    decreases b.order - k
  {
    if f < b.offset + Pow2(k + 1) {
      h := Block(k, b.offset + Pow2(k));
    } else {
      h := HalfHolding(b, k + 1, f);
    }
  }

  lemma HalfShape(j: nat, o: nat, i: nat)
    requires Aligned(j, o) && i < j
    ensures Aligned(i, o + Pow2(i)) && Parent(i, o + Pow2(i)) == o
    ensures o + Pow2(i) + Pow2(i) <= o + Pow2(j)
  {
    Pow2Monotone(i + 1, j);
    AlignedCoarser(i + 1, j, o);
    HalvesAligned(i, o);
    ParentUnique(i, o, o + Pow2(i));
  }

  lemma HalfMaximal(before: seq<bool>, after: seq<bool>, k: nat, j: nat, c: Block, o: nat)
    requires j <= MAX_ORDER && FreeBlock(before, j, o) && k <= c.order < j && c.offset == o + Pow2(c.order)
    requires Marked(before, after, o, Pow2(k), true)
    ensures Maximal(after, c)
  {
    HalfShape(j, o, c.order);
    HalfFree(before, after, k, j, o, c.order);
    MaximalIntro(before, after, c, o, Pow2(k));
  }

  /** A free block whose parent holds a marked frame is maximal. */
  lemma MaximalIntro(before: seq<bool>, after: seq<bool>, b: Block, o: nat, n: nat)
    requires b.order <= MAX_ORDER && FreeBlock(after, b.order, b.offset) && Parent(b.order, b.offset) == o
    requires Marked(before, after, o, n, true) && n > 0
    ensures Maximal(after, b)
  {
    MarkedNotFree(before, after, o, n, Pow2(b.order + 1));
  }

  lemma HalfFree(before: seq<bool>, after: seq<bool>, k: nat, j: nat, o: nat, i: nat)
    requires AllFree(before, o, Pow2(j)) && k <= i < j
    requires Marked(before, after, o, Pow2(k), true)
    ensures AllFree(after, o + Pow2(i), Pow2(i))
  {
    Pow2Monotone(k, i);
    Pow2Monotone(i + 1, j);
    StillFree(before, after, o, Pow2(k), Pow2(j), o + Pow2(i), Pow2(i));
  }

  lemma MarkedNotFree(before: seq<bool>, after: seq<bool>, o: nat, n: nat, m: nat)
    requires Marked(before, after, o, n, true) && n > 0 && m > 0
    ensures !AllFree(after, o, m)
  {
    assert after[o];
  }

  lemma StillFree(before: seq<bool>, after: seq<bool>, o: nat, n: nat, m: nat, p: nat, w: nat)
    requires Marked(before, after, o, n, true) && AllFree(before, o, m)
    requires o + n <= p && p + w <= o + m
    ensures AllFree(after, p, w)
  {
  }

  lemma OtherMaximal(before: seq<bool>, after: seq<bool>, b: Block, k: nat, c: Block)
    requires Maximal(before, b) && Maximal(before, c) && b != c && k <= b.order
    requires Marked(before, after, b.offset, Pow2(k), true)
    ensures Maximal(after, c)
  {
    Pow2Monotone(k, b.order);
    MaximalDisjoint(before, b, c);
    if c.order < MAX_ORDER {
      var q := Parent(c.order, c.offset);
      assert FreeBlock(after, c.order + 1, q) ==> FreeBlock(before, c.order + 1, q);
    }
  }

  lemma SplitCovers(fam: set<Block>, fam': set<Block>, before: seq<bool>, after: seq<bool>, b: Block, k: nat)
    requires Covers(fam, before) && b in fam && k <= b.order && SplitOf(fam, fam', b, k)
    requires Marked(before, after, b.offset, Pow2(k), true)
    ensures Covers(fam', after)
  {
    forall f: nat | f < |after| && !after[f] ensures Covered(fam', f) {
      assert Covered(fam, f);
      var c :| c in fam && Holds(c, f);
      if c == b {
        var h := HalfHolding(b, k, f);
        assert h in fam';
      } else {
        assert c in fam';
      }
    }
  }

  lemma SplitMaximal(before: seq<bool>, after: seq<bool>, b: Block, k: nat, c: Block)
    requires Maximal(before, b) && k <= b.order && Marked(before, after, b.offset, Pow2(k), true)
    requires (Maximal(before, c) && c != b) || IsHalf(b, k, c)
    ensures Maximal(after, c)
  {
    if IsHalf(b, k, c) {
      HalfMaximal(before, after, k, b.order, c, b.offset);
    } else {
      OtherMaximal(before, after, b, k, c);
    }
  }

  /** Splitting a canonical block and marking its lowest part keeps the family canonical. */
  lemma AllocateKeepsCanonical(fam: set<Block>, fam': set<Block>, before: seq<bool>, after: seq<bool>,
                               b: Block, k: nat)
    requires Canonical(fam, before) && b in fam && k <= b.order && SplitOf(fam, fam', b, k)
    requires Marked(before, after, b.offset, Pow2(k), true)
    ensures Canonical(fam', after)
  {
    CanonicalCovers(fam, before);
    SplitCovers(fam, fam', before, after, b, k);
    forall c | c in fam' ensures Maximal(after, c) {
      SplitMaximal(before, after, b, k, c);
    }
    CanonicalFromCover(fam', after);
  }

  // ---------------------------------------------------------------
  // Deallocation: coalesce upwards
  // ---------------------------------------------------------------

  /**
   State of the coalescing loop: (k, c) is the block in hand, fam the listed blocks.
   Only a listed block whose parent swallows the block in hand may still be mergeable.
   */
  ghost predicate Coalescing(fam: set<Block>, used: seq<bool>, k: nat, c: nat) {
    && k <= MAX_ORDER
    && FreeBlock(used, k, c)
    && (forall b | b in fam :: b.order <= MAX_ORDER && FreeBlock(used, b.order, b.offset))
    && (forall b | b in fam :: Disjoint(b, Block(k, c)))
    && (forall f: nat | f < |used| && !used[f] :: Inside(k, c, f) || Covered(fam, f))
    && (forall b | b in fam :: LoneOrAbove(used, k, c, b))
  }

  ghost predicate LoneOrAbove(used: seq<bool>, k: nat, c: nat, b: Block) {
    b.order < MAX_ORDER && FreeBlock(used, b.order + 1, Parent(b.order, b.offset))
    ==> k <= b.order && Inside(b.order + 1, Parent(b.order, b.offset), c)
  }

  lemma CoalesceInit(fam: set<Block>, before: seq<bool>, after: seq<bool>, k: nat, c: nat)
    requires Canonical(fam, before) && k <= MAX_ORDER && Aligned(k, c)
    requires Marked(before, after, c, Pow2(k), false)
    requires forall i | c <= i < c + Pow2(k) :: before[i]
    ensures Coalescing(fam, after, k, c)
  {
    Partition(fam, before);
    forall b | b in fam
      ensures FreeBlock(after, b.order, b.offset) && Disjoint(b, Block(k, c))
      ensures LoneOrAbove(after, k, c, b)
    {
      InitFree(before, after, k, c, b);
      InitLone(before, after, k, c, b);
    }
  }

  /** A free block meets no used range, and freeing the range leaves it free. */
  lemma InitFree(before: seq<bool>, after: seq<bool>, k: nat, c: nat, b: Block)
    requires FreeBlock(before, b.order, b.offset) && Marked(before, after, c, Pow2(k), false)
    requires forall i | c <= i < c + Pow2(k) :: before[i]
    ensures FreeBlock(after, b.order, b.offset) && Disjoint(b, Block(k, c))
  {
    var f := if b.offset < c then c else b.offset;
    assert Holds(b, f) ==> f < |before| && !before[f];
  }

  lemma InitLone(before: seq<bool>, after: seq<bool>, k: nat, c: nat, b: Block)
    requires Maximal(before, b) && k <= MAX_ORDER && Aligned(k, c)
    requires Marked(before, after, c, Pow2(k), false)
    requires Disjoint(b, Block(k, c))
    ensures LoneOrAbove(after, k, c, b)
  {
    var q := Parent(b.order, b.offset);
    if b.order < MAX_ORDER && FreeBlock(after, b.order + 1, q) {
      var f :| q <= f < q + Pow2(b.order + 1) && before[f];
      assert Inside(k, c, f);
      ParentMeets(k, c, b, f);
    }
  }

  /** A block whose parent meets (k, c) without meeting it itself has a parent that contains it. */
  lemma ParentMeets(k: nat, c: nat, b: Block, f: nat)
    requires Aligned(k, c) && Aligned(b.order, b.offset) && Disjoint(b, Block(k, c))
    requires Inside(k, c, f) && Inside(b.order + 1, Parent(b.order, b.offset), f)
    ensures k <= b.order && Inside(b.order + 1, Parent(b.order, b.offset), c)
  {
    var q := Parent(b.order, b.offset);
    ParentCases(b.order, b.offset);
    if k <= b.order {
      Laminar(k, c, b.order + 1, q, f);
    } else {
      Laminar(b.order + 1, q, k, c, f);
      assert false;
    }
  }

  /** A mergeable listed block lies exactly in the way of the block in hand. */
  lemma NoneAbove(fam: set<Block>, used: seq<bool>, k: nat, c: nat)
    requires Coalescing(fam, used, k, c)
    requires k < MAX_ORDER ==> !FreeBlock(used, k + 1, Parent(k, c))
    ensures Canonical(fam + {Block(k, c)}, used)
  {
    var fam' := fam + {Block(k, c)};
    forall b | b in fam ensures Maximal(used, b) {
      var q := Parent(b.order, b.offset);
      if b.order < MAX_ORDER && FreeBlock(used, b.order + 1, q) {
        assert LoneOrAbove(used, k, c, b);
        ParentCases(k, c);
        SubBlockFree(used, k + 1, Parent(k, c), b.order + 1, q, c);
        assert false;
      }
    }
    forall f: nat | f < |used| && !used[f] ensures Covered(fam', f) {
      if Inside(k, c, f) {
        assert Block(k, c) in fam' && Holds(Block(k, c), f);
      } else {
        var b :| b in fam && Holds(b, f);
        assert b in fam';
      }
    }
    CanonicalFromCover(fam', used);
  }

  /** If the buddy is not listed as a whole block then the parent is not free. */
  lemma BuddyMissing(fam: set<Block>, used: seq<bool>, k: nat, c: nat)
    requires Coalescing(fam, used, k, c) && k < MAX_ORDER
    requires Block(k, Xor(c, Pow2(k))) !in fam
    ensures !FreeBlock(used, k + 1, Parent(k, c))
  {
    BuddyShape(k, c);
    ParentCases(k, c);
    var d := Xor(c, Pow2(k));
    if FreeBlock(used, k + 1, Parent(k, c)) {
      assert !Inside(k, c, d);
      assert Inside(k + 1, Parent(k, c), d);
      assert Covered(fam, d);
      var b :| b in fam && Holds(b, d);
      assert LoneOrAbove(used, k, c, b);
      CoverMeetsHand(used, k, c, d, b);
      assert false;
    }
  }

  /** A listed block that meets the free buddy of the block in hand can only be that buddy. */
  lemma CoverMeetsHand(used: seq<bool>, k: nat, c: nat, d: nat, b: Block)
    requires Aligned(k, c) && Aligned(k, d) && Disjoint(Block(k, c), Block(k, d))
    requires Parent(k, d) == Parent(k, c) && FreeBlock(used, k + 1, Parent(k, c))
    requires Aligned(b.order, b.offset) && k < MAX_ORDER && Holds(b, d)
    requires Disjoint(b, Block(k, c)) && LoneOrAbove(used, k, c, b)
    ensures b == Block(k, d)
  {
    if b.order > k {
      CoverTooBig(k, c, d, b);
    } else if b.order == k {
      Laminar(k, d, b.order, b.offset, d);
    } else {
      CoverTooSmall(used, k, c, d, b);
    }
  }

  lemma CoverTooBig(k: nat, c: nat, d: nat, b: Block)
    requires Aligned(k, c) && Aligned(k, d) && Parent(k, d) == Parent(k, c)
    requires Aligned(b.order, b.offset) && k < b.order && Holds(b, d)
    ensures !Disjoint(b, Block(k, c))
  {
    ParentCases(k, c);
    ParentCases(k, d);
    Laminar(k + 1, Parent(k, d), b.order, b.offset, d);
  }

  lemma CoverTooSmall(used: seq<bool>, k: nat, c: nat, d: nat, b: Block)
    requires Aligned(k, c) && Aligned(k, d) && Parent(k, d) == Parent(k, c)
    requires FreeBlock(used, k + 1, Parent(k, c)) && k < MAX_ORDER
    requires Aligned(b.order, b.offset) && b.order < k && Holds(b, d)
    ensures !LoneOrAbove(used, k, c, b)
  {
    ParentCases(k, d);
    ParentCases(b.order, b.offset);
    SubBlockFree(used, b.order + 1, Parent(b.order, b.offset), k + 1, Parent(k, c), d);
  }

  /** Absorbing a listed buddy keeps the loop invariant at the next order. */
  lemma CoalesceMerge(fam: set<Block>, used: seq<bool>, k: nat, c: nat)
    requires Coalescing(fam, used, k, c) && k < MAX_ORDER
    requires Block(k, Xor(c, Pow2(k))) in fam
    requires PairwiseDisjoint(fam)
    ensures Coalescing(fam - {Block(k, Xor(c, Pow2(k)))}, used, k + 1, Parent(k, c))
  {
    BuddyShape(k, c);
    ParentCases(k, c);
    var d := Xor(c, Pow2(k));
    var q := Parent(k, c);
    var fam' := fam - {Block(k, d)};
    assert FreeBlock(used, k + 1, q);
    forall b | b in fam' ensures Disjoint(b, Block(k + 1, q)) {
      assert Disjoint(b, Block(k, c)) && Disjoint(b, Block(k, d));
    }
    forall f: nat | f < |used| && !used[f] ensures Inside(k + 1, q, f) || Covered(fam', f) {
      if !Inside(k + 1, q, f) {
        var b :| b in fam && Holds(b, f);
        assert b in fam' && Holds(b, f);
      }
    }
    forall b | b in fam' ensures LoneOrAbove(used, k + 1, q, b) {
      assert LoneOrAbove(used, k, c, b);
      MergeLone(used, k, c, b);
    }
  }

  lemma MergeLone(used: seq<bool>, k: nat, c: nat, b: Block)
    requires Aligned(k, c) && LoneOrAbove(used, k, c, b) && Aligned(b.order, b.offset)
    requires Disjoint(b, Block(k + 1, Parent(k, c)))
    ensures LoneOrAbove(used, k + 1, Parent(k, c), b)
  {
    var q := Parent(b.order, b.offset);
    if b.order < MAX_ORDER && FreeBlock(used, b.order + 1, q) {
      ParentCases(k, c);
      ParentCases(b.order, b.offset);
      if b.order == k {
        Laminar(k + 1, Parent(k, c), k + 1, q, c);
        assert false;
      } else {
        Laminar(k + 1, Parent(k, c), b.order + 1, q, c);
      }
    }
  }

  // ---------------------------------------------------------------
  // Runs
  // ---------------------------------------------------------------

  /**
   Freeing a block right after it was handed out restores the bitmap, and therefore,
   because the lists are a function of the bitmap, every free list as a set.
   */
  lemma AllocateDeallocateRestores(fam: set<Block>, used: seq<bool>, mid: seq<bool>,
                                   fam': set<Block>, used': seq<bool>, k: nat, o: nat)
    requires Canonical(fam, used) && Canonical(fam', used') && FreeBlock(used, k, o)
    requires Marked(used, mid, o, Pow2(k), true) && Marked(mid, used', o, Pow2(k), false)
    ensures used' == used && fam' == fam
  {
    forall i | 0 <= i < |used| ensures used'[i] == used[i] {
      if o <= i < o + Pow2(k) { assert !used[i]; }
    }
    assert used' == used;
  }
}

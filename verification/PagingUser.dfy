/** Marking pages USER: addresses stay, and a marked page that is mapped becomes user-reachable. */
module PagingUser {
  import opened Options
  import opened PageTables
  import opened PagingSteps
  import opened PagingHooks
  import opened PagingMap
  import opened PagingRange

  ghost predicate GrowsAll(s: State, s': State, p: nat) {
    forall page | IsPage(page) :: Grows(Trans(s, p, page), Trans(s', p, page))
  }

  /** What a marking step of process p may do. */
  ghost predicate Widened(s: State, s': State, p: nat) {
    Inv(s') && Confined(s, s', p) && GrowsAll(s, s', p) && Spent(s, s', {}) == true
  }

  lemma WidenedTrans(s: State, s': State, s'': State, p: nat)
    requires Inv(s) && Widened(s, s', p) && Widened(s', s'', p)
    ensures Widened(s, s'', p)
  {
    SpentTrans(s, s', s'', p, {}, {});
    ConfinedTrans(s, s', s'', p);
    GrowsAllTrans(s, s', s'', p);
  }

  lemma GrowsAllTrans(s: State, s': State, s'': State, p: nat)
    requires GrowsAll(s, s', p) && GrowsAll(s', s'', p)
    ensures GrowsAll(s, s'', p)
  {
    forall page | IsPage(page) ensures Grows(Trans(s, p, page), Trans(s'', p, page)) {
      assert Grows(Trans(s, p, page), Trans(s', p, page)) && Grows(Trans(s', p, page), Trans(s'', p, page));
    }
  }

  lemma QuietWidens(s: State, s': State, p: nat)
    requires Quiet(s, s', p)
    ensures Widened(s, s', p)
  {
    forall page | IsPage(page) ensures Grows(Trans(s, p, page), Trans(s', p, page)) {
      assert Same(Trans(s, p, page), Trans(s', p, page));
    }
  }

  /** Marking one entry: everything else stays, addresses stay. */
  lemma MarkStep(s: State, n: Node, i: nat, e: Entry)
    requires Inv(s) && n in s.owned && i < 512 && EntryOf(s, n, i) != UNUSED
    requires e == Entry(EntryOf(s, n, i).addr, EntryOf(s, n, i).flags + {User})
    ensures CanRewrite(s, n, i, e) && Widened(s, Rewrite(s, n, i, e), n.proc) && Local(s, Rewrite(s, n, i, e), n, i)
  {
    assert EntryOk(EntryOf(s, n, i)) && Present in e.flags;
    RewriteOk(s, n, i, e);
    RewriteConfined(s, n, i, e);
    var s' := Rewrite(s, n, i, e);
    RootOwned(s, n);
    forall page | IsPage(page) ensures Grows(Trans(s, n.proc, page), Trans(s', n.proc, page)) {
      if Through(n, i, n.proc, page) { MarkThrough(s, n, i, e, page); }
      WalkGrows(s, s'.mem, n, i, Node(n.proc, []), n.proc, page);
    }
  }

  lemma MarkThrough(s: State, n: Node, i: nat, e: Entry, page: seq<nat>)
    requires CanRewrite(s, n, i, e) && EntryOf(s, n, i) != UNUSED
    requires e == Entry(EntryOf(s, n, i).addr, EntryOf(s, n, i).flags + {User})
    requires OnlyEntry(s, Rewrite(s, n, i, e).mem, n, i) && IsPage(page) && Through(n, i, n.proc, page)
    ensures Grows(Walk(s.mem, s.owned[n], |n.path|, page), Walk(Rewrite(s, n, i, e).mem, s.owned[n], |n.path|, page))
  {
    var h := EntryOf(s, n, i);
    if |n.path| < 3 && Link(h) {
      ChildPath(s, n, i);
      assert TableAt(s, Child(n, i), h.addr);
      assert page[..|n.path| + 1] == Child(n, i).path;
      WalkGrows(s, Rewrite(s, n, i, e).mem, n, i, Child(n, i), h.addr, page);
    }
  }

  // ---------------------------------------------------------------
  // Reaching a page through marked entries
  // ---------------------------------------------------------------

  /** The entry is empty, or a leaf marked USER. */
  predicate MarkedLeaf(d: nat, e: Entry) {
    e == UNUSED || (IsLeaf(d, e) && User in e.flags)
  }

  /** Mapped means user-reachable. */
  predicate Reached(w: Option<Leaf>) {
    w.None? || (User in w.value.flags && w.value.path)
  }

  lemma ReachedLeaf(s: State, n: Node, page: seq<nat>)
    requires Inv(s) && n in s.owned && IsPage(page) && MarkedLeaf(|n.path|, EntryOf(s, n, page[|n.path|]))
    ensures Reached(Walk(s.mem, s.owned[n], |n.path|, page))
  {
  }

  lemma ReachedAbove(s: State, n: Node, page: seq<nat>)
    requires Inv(s) && n in s.owned && IsPage(page) && |n.path| < 3
    requires User in EntryOf(s, n, page[|n.path|]).flags && Child(n, page[|n.path|]) in s.owned
    requires Reached(Walk(s.mem, s.owned[Child(n, page[|n.path|])], |n.path| + 1, page))
    ensures Reached(Walk(s.mem, s.owned[n], |n.path|, page))
  {
  }

  lemma ReachedKept(s: State, s': State, p: nat, page: seq<nat>)
    requires Widened(s, s', p) && IsPage(page) && Reached(Trans(s, p, page))
    ensures Reached(Trans(s', p, page))
  {
    assert Grows(Trans(s, p, page), Trans(s', p, page));
  }

  // ---------------------------------------------------------------
  // The path of owned tables walked so far
  // ---------------------------------------------------------------

  function At(p: nat, page: seq<nat>, d: nat): Node
    requires d <= |page|
  {
    Node(p, page[..d])
  }

  /** The first d + 1 tables of the walk are owned and the first d entries carry the flags. */
  ghost predicate PathFlags(s: State, p: nat, page: seq<nat>, d: nat, need: set<Flag>)
    requires IsPage(page) && d <= 3
  {
    && (forall k: nat | k <= d :: At(p, page, k) in s.owned)
    && (forall k: nat | k < d :: need <= EntryOf(s, At(p, page, k), page[k]).flags)
  }

  lemma AtChild(p: nat, page: seq<nat>, d: nat)
    requires IsPage(page) && d < 4
    ensures Child(At(p, page, d), page[d]) == At(p, page, d + 1)
  {
    assert page[..d] + [page[d]] == page[..d + 1];
  }

  /** A local change at the end of the path keeps the path. */
  /** The path goes one table further when the entry has the flags and its table is owned. */
  lemma PathFlagsNext(s: State, p: nat, page: seq<nat>, d: nat, need: set<Flag>)
    requires IsPage(page) && d < 3 && PathFlags(s, p, page, d, need)
    requires Child(At(p, page, d), page[d]) in s.owned && need <= EntryOf(s, At(p, page, d), page[d]).flags
    ensures PathFlags(s, p, page, d + 1, need) && Child(At(p, page, d), page[d]) == At(p, page, d + 1)
  {
    AtChild(p, page, d);
  }

  lemma PathFlagsKept(s: State, s': State, p: nat, page: seq<nat>, d: nat, need: set<Flag>)
    requires Inv(s) && IsPage(page) && d <= 3 && PathFlags(s, p, page, d, need)
    requires Local(s, s', At(p, page, d), page[d])
    ensures PathFlags(s', p, page, d, need)
  {
    AtChild(p, page, d);
    assert |At(p, page, d + 1).path| == d + 1;
    forall k: nat | k <= d ensures At(p, page, k) in s'.owned {
      assert |At(p, page, k).path| == k;
    }
    forall k: nat | k < d ensures need <= EntryOf(s', At(p, page, k), page[k]).flags {
      assert |At(p, page, k).path| == k && |At(p, page, d).path| == d;
      LocalKeepsEntry(s, s', At(p, page, d), page[d], At(p, page, k), page[k]);
    }
  }

  /** What the walk finds at the end of the path decides what the process reaches. */
  lemma {:induction false} PathReached(s: State, p: nat, page: seq<nat>, d: nat)
    requires Inv(s) && IsPage(page) && d <= 3 && PathFlags(s, p, page, d, {User})
    requires Reached(Walk(s.mem, s.owned[At(p, page, d)], d, page))
    ensures Reached(Trans(s, p, page))
    decreases d
  {
    if d == 0 {
      assert page[..0] == [];
    } else {
      AtChild(p, page, d - 1);
      assert At(p, page, d - 1) in s.owned && At(p, page, d) in s.owned;
      assert |At(p, page, d - 1).path| == d - 1;
      ReachedAbove(s, At(p, page, d - 1), page);
      PathReached(s, p, page, d - 1);
    }
  }

  /** Every mapped page among the first k of the range is user-reachable. */
  ghost predicate RangeReached(s: State, p: nat, first: nat, k: nat) {
    forall j: nat | j < k :: Reached(Trans(s, p, PageAt(first, j)))
  }

  lemma RangeReachedGrow(s: State, s': State, p: nat, first: nat, k: nat)
    requires Widened(s, s', p) && RangeReached(s, p, first, k) && Reached(Trans(s', p, PageAt(first, k)))
    ensures RangeReached(s', p, first, k + 1)
  {
    forall j: nat | j < k + 1 ensures Reached(Trans(s', p, PageAt(first, j))) {
      if j < k { ReachedKept(s, s', p, PageAt(first, j)); }
    }
  }

  // ---------------------------------------------------------------
  // Which leaves a marking pass touches
  // ---------------------------------------------------------------

  /** q is served by the same leaf entry as page: the page itself, or a page of the same huge page. */
  predicate Shares(s: State, p: nat, page: seq<nat>, q: seq<nat>)
    requires IsPage(page) && IsPage(q)
  {
    var w := Trans(s, p, page);
    w.Some? && w.value.depth <= 3 && q[..w.value.depth + 1] == page[..w.value.depth + 1]
  }

  predicate FlagsSame(a: Option<Leaf>, b: Option<Leaf>) {
    a.Some? && b.Some? ==> a.value.flags == b.value.flags
  }

  /** Only leaves that serve the page changed their flags. */
  ghost predicate MarksOnly(s: State, s': State, p: nat, page: seq<nat>)
    requires IsPage(page)
  {
    forall q | IsPage(q) && !Shares(s, p, page, q) :: FlagsSame(Trans(s, p, q), Trans(s', p, q))
  }

  /** Sharing does not grow: a huge page may be split, never joined. */
  lemma SharesLess(s: State, s': State, p: nat, page: seq<nat>, q: seq<nat>)
    requires IsPage(page) && IsPage(q) && Grows(Trans(s, p, page), Trans(s', p, page)) && Shares(s', p, page, q)
    ensures Shares(s, p, page, q)
  {
    var d, d' := Trans(s, p, page).value.depth, Trans(s', p, page).value.depth;
    assert q[..d + 1] == q[..d' + 1][..d + 1] && page[..d + 1] == page[..d' + 1][..d + 1];
  }

  lemma MarksOnlyTrans(s: State, s1: State, s2: State, p: nat, page: seq<nat>)
    requires IsPage(page) && GrowsAll(s, s1, p) && MarksOnly(s, s1, p, page) && MarksOnly(s1, s2, p, page)
    ensures MarksOnly(s, s2, p, page)
  {
    forall q | IsPage(q) && !Shares(s, p, page, q) ensures FlagsSame(Trans(s, p, q), Trans(s2, p, q)) {
      assert Grows(Trans(s, p, q), Trans(s1, p, q)) && Grows(Trans(s, p, page), Trans(s1, p, page));
      if Shares(s1, p, page, q) { SharesLess(s, s1, p, page, q); }
    }
  }

  lemma SameMarksOnly(s: State, s': State, p: nat, page: seq<nat>)
    requires IsPage(page) && SameTranslations(s, s', p)
    ensures MarksOnly(s, s', p, page)
  {
    forall q | IsPage(q) ensures FlagsSame(Trans(s, p, q), Trans(s', p, q)) {
      assert Same(Trans(s, p, q), Trans(s', p, q));
    }
  }

  /** What marking one page does. */
  ghost predicate Marked(s: State, s': State, p: nat, page: seq<nat>)
    requires IsPage(page)
  {
    Widened(s, s', p) && MarksOnly(s, s', p, page)
  }

  lemma MarkedTrans(s: State, s1: State, s2: State, p: nat, page: seq<nat>)
    requires Inv(s) && IsPage(page) && Marked(s, s1, p, page) && Marked(s1, s2, p, page)
    ensures Marked(s, s2, p, page)
  {
    WidenedTrans(s, s1, s2, p);
    MarksOnlyTrans(s, s1, s2, p, page);
  }

  lemma QuietMarks(s: State, s': State, p: nat, page: seq<nat>)
    requires IsPage(page) && Quiet(s, s', p)
    ensures Marked(s, s', p, page)
  {
    QuietWidens(s, s', p);
    SameMarksOnly(s, s', p, page);
  }

  lemma MarkedRefl(s: State, p: nat, page: seq<nat>)
    requires IsPage(page) && Inv(s)
    ensures Marked(s, s, p, page)
  {
  }

  /** A walk through owned tables that ends at a leaf of the table at depth m. */
  lemma {:induction false} LeafDepth(s: State, p: nat, page: seq<nat>, d: nat, m: nat)
    requires Inv(s) && IsPage(page) && d <= m <= 3 && Node(p, page[..m]) in s.owned
    requires EntryOf(s, Node(p, page[..m]), page[m]) != UNUSED && IsLeaf(m, EntryOf(s, Node(p, page[..m]), page[m]))
    ensures Node(p, page[..d]) in s.owned
    ensures var w := Walk(s.mem, s.owned[Node(p, page[..d])], d, page); w.Some? && w.value.depth == m
    decreases m - d
  {
    PrefixOwned(s, p, page, d, m);
    if d < m { LeafDepth(s, p, page, d + 1, m); }
  }

  /** Marking an entry on the page's path changes the flags of leaves that serve the page, and of no other. */
  lemma MarkStepOnly(s: State, n: Node, i: nat, e: Entry, page: seq<nat>)
    requires Inv(s) && n in s.owned && i < 512 && EntryOf(s, n, i) != UNUSED
    requires e == Entry(EntryOf(s, n, i).addr, EntryOf(s, n, i).flags + {User})
    requires IsPage(page) && Through(n, i, n.proc, page) && CanRewrite(s, n, i, e)
    ensures MarksOnly(s, Rewrite(s, n, i, e), n.proc, page)
  {
    var s' := Rewrite(s, n, i, e);
    if |n.path| < 3 && Link(EntryOf(s, n, i)) {
      FlagsDescent(s, n, i, e);
      SameMarksOnly(s, s', n.proc, page);
    } else {
      forall q | IsPage(q) && !Shares(s, n.proc, page, q) ensures FlagsSame(Trans(s, n.proc, q), Trans(s', n.proc, q)) {
        MarkLeafOnly(s, n, i, e, page, q);
      }
    }
  }

  /** Two pages that go through the same leaf entry share it. */
  lemma SameLeaf(s: State, n: Node, i: nat, page: seq<nat>, q: seq<nat>)
    requires Inv(s) && n in s.owned && i < 512 && EntryOf(s, n, i) != UNUSED
    requires !(|n.path| < 3 && Link(EntryOf(s, n, i)))
    requires IsPage(page) && Through(n, i, n.proc, page) && IsPage(q) && Through(n, i, n.proc, q)
    ensures Shares(s, n.proc, page, q)
  {
    var m := |n.path|;
    assert n == Node(n.proc, page[..m]);
    LeafDepth(s, n.proc, page, 0, m);
    assert page[..0] == [] && page[..m + 1] == n.path + [i] == q[..m + 1];
  }

  lemma MarkLeafOnly(s: State, n: Node, i: nat, e: Entry, page: seq<nat>, q: seq<nat>)
    requires Inv(s) && n in s.owned && i < 512 && EntryOf(s, n, i) != UNUSED
    requires !(|n.path| < 3 && Link(EntryOf(s, n, i))) && CanRewrite(s, n, i, e)
    requires IsPage(page) && Through(n, i, n.proc, page) && IsPage(q) && !Shares(s, n.proc, page, q)
    ensures FlagsSame(Trans(s, n.proc, q), Trans(Rewrite(s, n, i, e), n.proc, q))
  {
    if Through(n, i, n.proc, q) { SameLeaf(s, n, i, page, q); }
    RewriteConfined(s, n, i, e);
    RootOwned(s, n);
    WalkThrough(s, Rewrite(s, n, i, e).mem, n, i, Node(n.proc, []), n.proc, q);
  }

  /** Only leaves that serve one of the first k pages of the range changed their flags. */
  ghost predicate RangeMarks(s: State, s': State, p: nat, first: nat, k: nat) {
    forall q | IsPage(q) && (forall j: nat | j < k :: !Shares(s, p, PageAt(first, j), q)) ::
      FlagsSame(Trans(s, p, q), Trans(s', p, q))
  }

  lemma RangeMarksGrow(s: State, s1: State, s2: State, p: nat, first: nat, k: nat)
    requires GrowsAll(s, s1, p) && RangeMarks(s, s1, p, first, k) && MarksOnly(s1, s2, p, PageAt(first, k))
    ensures RangeMarks(s, s2, p, first, k + 1)
  {
    var page := PageAt(first, k);
    forall q | IsPage(q) && (forall j: nat | j < k + 1 :: !Shares(s, p, PageAt(first, j), q))
      ensures FlagsSame(Trans(s, p, q), Trans(s2, p, q))
    {
      assert Grows(Trans(s, p, q), Trans(s1, p, q)) && Grows(Trans(s, p, page), Trans(s1, p, page));
      assert !Shares(s, p, page, q);
      if Shares(s1, p, page, q) { SharesLess(s, s1, p, page, q); }
    }
  }

  /** A page that user code reaches only after the marking is served by a leaf of a page of the range. */
  lemma MarkReach(s: State, s': State, p: nat, first: nat, k: nat, q: seq<nat>)
    requires IsPage(q) && GrowsAll(s, s', p) && RangeMarks(s, s', p, first, k) && UserLeavesReached(s, p)
    requires Reach(s', p, q)
    ensures Reach(s, p, q) || exists j: nat | j < k :: Shares(s, p, PageAt(first, j), q)
  {
    assert Grows(Trans(s, p, q), Trans(s', p, q));
    if forall j: nat | j < k :: !Shares(s, p, PageAt(first, j), q) {
      assert FlagsSame(Trans(s, p, q), Trans(s', p, q));
    }
  }
}

/** Taking a free frame, filling it and hooking it into a process's table: new, fork and split. */
module PagingHooks {
  import opened Options
  import opened PageTables
  import opened PagingSteps

  // ---------------------------------------------------------------
  // Steps of one process
  // ---------------------------------------------------------------

  ghost predicate OwnedBy(s: State, p: nat, f: nat) {
    exists n :: n in s.owned && n.proc == p && s.owned[n] == f
  }

  /** What process p sees at a page. */
  function Trans(s: State, p: nat, page: seq<nat>): Option<Leaf>
    requires IsPage(page)
  {
    Walk(s.mem, p, 0, page)
  }

  /** Only tables of p and frames that were free are written; p only gains tables from free frames. */
  ghost predicate Confined(s: State, s': State, p: nat) {
    && s'.root == s.root && s'.kernel == s.kernel && s'.free <= s.free
    && (forall f | f in s.mem && f !in s.free && !OwnedBy(s, p, f) :: f in s'.mem && s'.mem[f] == s.mem[f])
    && (forall n: Node | n.proc != p ::
         (n in s'.owned <==> n in s.owned) && (n in s.owned ==> s'.owned[n] == s.owned[n]))
    && (forall n | n in s.owned :: n in s'.owned)
    && (forall f | OwnedBy(s', p, f) :: OwnedBy(s, p, f) || f in s.free)
  }

  ghost predicate SameTranslations(s: State, s': State, p: nat) {
    forall page | IsPage(page) :: Same(Trans(s, p, page), Trans(s', p, page))
  }

  lemma ConfinedTrans(s: State, s': State, s'': State, p: nat)
    requires Confined(s, s', p) && Confined(s', s'', p)
    ensures Confined(s, s'', p)
  {
  }

  lemma SameTranslationsTrans(s: State, s': State, s'': State, p: nat)
    requires SameTranslations(s, s', p) && SameTranslations(s', s'', p)
    ensures SameTranslations(s, s'', p)
  {
    forall page | IsPage(page) ensures Same(Trans(s, p, page), Trans(s'', p, page)) {
      assert Same(Trans(s, p, page), Trans(s', p, page)) && Same(Trans(s', p, page), Trans(s'', p, page));
    }
  }

  // ---------------------------------------------------------------
  // Where frames are
  // ---------------------------------------------------------------

  function Elements(frames: seq<nat>): set<nat> {
    set f | f in frames
  }

  /** The frames that are free or hold a table of a process. */
  function Held(s: State): set<nat> {
    s.free + s.owned.Values
  }

  /** The kernel's 1 GiB pages, as the L4 and L3 index of each. */
  ghost function Giants(s: State): iset<(nat, nat)> {
    iset i: nat, j: nat | i < 512 && Huge in KernelEntry(s.mem, s.root, [i], j).flags :: (i, j)
  }

  /** The kernel maps no 1 GiB page. */
  ghost predicate NoGiant(s: State) {
    Giants(s) == iset{}
  }

  /**
   No frame but those of out leaves the free frames and tables. With 1 GiB pages of the kernel a table of the
   process can be taken for the kernel's and be lost; without them nothing else is lost. Predicates that
   hold it beside other facts state it as an equation, so that the verifier passes it on without unfolding it.
   */
  ghost predicate Spent(s: State, s': State, out: set<nat>) {
    Held(s') <= Held(s) - out && (NoGiant(s) ==> Held(s') == Held(s) - out)
  }

  lemma NoGiantKept(s: State, s': State, p: nat)
    requires Inv(s) && Confined(s, s', p)
    ensures NoGiant(s') <==> NoGiant(s)
  {
    ConfinedIsolates(s, s', p);
    forall i: nat, j: nat | i < 512 ensures KernelEntry(s'.mem, s'.root, [i], j) == KernelEntry(s.mem, s.root, [i], j) {
      KernelEntrySame(s, s'.mem, [i], j);
    }
  }

  lemma NotGiant(s: State, i: nat, j: nat)
    requires NoGiant(s) && i < 512
    ensures Huge !in KernelEntry(s.mem, s.root, [i], j).flags
  {
    assert (i, j) !in Giants(s);
  }

  lemma SpentTrans(s: State, s1: State, s2: State, p: nat, a: set<nat>, b: set<nat>)
    requires Inv(s) && Confined(s, s1, p) && Spent(s, s1, a) && Spent(s1, s2, b)
    ensures Spent(s, s2, a + b)
  {
    NoGiantKept(s, s1, p);
    assert Held(s) - a - b == Held(s) - (a + b);
  }

  lemma SpentAfter(s: State, s1: State, s2: State, p: nat, out: set<nat>)
    requires Inv(s) && Confined(s, s1, p) && Spent(s, s1, {}) && Spent(s1, s2, out)
    ensures Spent(s, s2, out)
  {
    SpentTrans(s, s1, s2, p, {}, out);
    assert {} + out == out;
  }

  /** Kernel isolation: a confined step writes no kernel table. */
  lemma ConfinedIsolates(s: State, s': State, p: nat)
    requires Inv(s) && Confined(s, s', p)
    ensures forall t | t in s.kernel :: t in s'.mem && s'.mem[t] == s.mem[t]
  {
    forall t | t in s.kernel ensures t in s'.mem && s'.mem[t] == s.mem[t] {
      assert IsTable(s.mem, t) && t !in s.free && !OwnedBy(s, p, t);
    }
  }

  /** A confined step of p changes nothing for any other process. */
  lemma ConfinedOthers(s: State, s': State, p: nat, other: nat, page: seq<nat>)
    requires Inv(s) && Confined(s, s', p) && other != p && Node(other, []) in s.owned && IsPage(page)
    ensures Trans(s', other, page) == Trans(s, other, page)
  {
    ConfinedIsolates(s, s', p);
    WalkOther(s, s', p, Node(other, []), other, page);
  }

  lemma {:induction false} WalkOther(s: State, s': State, p: nat, c: Node, t: nat, page: seq<nat>)
    requires Inv(s) && Confined(s, s', p) && c.proc != p
    requires forall k | k in s.kernel :: k in s'.mem && s'.mem[k] == s.mem[k]
    requires IsPath(c.path) && IsPage(page) && TableAt(s, c, t)
    ensures Walk(s'.mem, t, |c.path|, page) == Walk(s.mem, t, |c.path|, page)
    decreases 3 - |c.path|
  {
    var d := |c.path|;
    TableReal(s, c, t);
    assert t in s'.mem && s'.mem[t] == s.mem[t] by {
      if c in s.owned { assert !OwnedBy(s, p, t); }
    }
    var e := s.mem[t][page[d]];
    if e != UNUSED && !IsLeaf(d, e) {
      TableStep(s, c, t, page[d]);
      WalkOther(s, s', p, Child(c, page[d]), e.addr, page);
    }
  }

  // ---------------------------------------------------------------
  // Hook
  // ---------------------------------------------------------------

  function Hook(s: State, n: Node, i: nat, e: Entry, t: Table): State
    requires n in s.owned && i < 512 && s.owned[n] != e.addr && IsTable(s.mem, s.owned[n])
  {
    Attach(Fill(Take(s, e.addr), e.addr, t), n, i, e)
  }

  ghost predicate CanHook(s: State, n: Node, i: nat, e: Entry, t: Table) {
    && Inv(s) && n in s.owned && |n.path| < 3 && i < 512
    && Link(e) && EntryOk(e) && e.addr in s.free && ContentFits(s, Child(n, i), t)
  }

  lemma HookInv(s: State, n: Node, i: nat, e: Entry, t: Table)
    requires CanHook(s, n, i, e, t)
    ensures s.owned[n] != e.addr
    ensures Inv(Hook(s, n, i, e, t))
  {
    var s1 := Take(s, e.addr);
    TakeOk(s, e.addr);
    FillOk(s1, e.addr, t);
    var s2 := Fill(s1, e.addr, t);
    ChildPath(s, n, i);
    FillKeepsFits(s1, e.addr, t, Child(n, i), t);
    AttachOk(s2, n, i, e);
  }

  lemma HookOk(s: State, n: Node, i: nat, e: Entry, t: Table)
    requires CanHook(s, n, i, e, t)
    ensures s.owned[n] != e.addr
    ensures Inv(Hook(s, n, i, e, t)) && OnlyEntry(s, Hook(s, n, i, e, t).mem, n, i)
    ensures e.addr in Hook(s, n, i, e, t).mem && Hook(s, n, i, e, t).mem[e.addr] == t
    ensures Hook(s, n, i, e, t).mem[s.owned[n]][i] == e
  {
    HookInv(s, n, i, e, t);
  }

  lemma FillKeepsFits(s: State, f: nat, u: Table, c: Node, t: Table)
    requires Inv(s) && Fresh(s, f) && |u| == 512 && ContentFits(s, c, t) && IsPath(c.path)
    ensures ContentFits(Fill(s, f, u), c, t)
  {
    if |c.path| < 3 {
      forall j: nat | j < 512 && Link(t[j]) ensures TableAt(Fill(s, f, u), Child(c, j), t[j].addr) {
        KernelSame(s, Fill(s, f, u).mem, Child(c, j).path);
      }
    }
    forall j: nat ensures KernelEntry(Fill(s, f, u).mem, s.root, c.path, j) == KernelEntry(s.mem, s.root, c.path, j) {
      KernelEntrySame(s, Fill(s, f, u).mem, c.path, j);
    }
  }

  lemma HookConfined(s: State, n: Node, i: nat, e: Entry, t: Table)
    requires CanHook(s, n, i, e, t) && s.owned[n] != e.addr
    ensures Confined(s, Hook(s, n, i, e, t), n.proc)
  {
    var s' := Hook(s, n, i, e, t);
    assert OwnedBy(s, n.proc, s.owned[n]);
    forall f | OwnedBy(s', n.proc, f) ensures OwnedBy(s, n.proc, f) || f in s.free {
      var m :| m in s'.owned && m.proc == n.proc && s'.owned[m] == f;
      if m != Child(n, i) { assert m in s.owned && s.owned[m] == f; }
    }
  }

  /** The hooked table serves every page through it as the old entry did. */
  ghost predicate ServesAsBefore(s: State, s': State, n: Node, i: nat) {
    n in s.owned && IsPath(n.path) &&
    forall page | IsPage(page) && Through(n, i, n.proc, page) ::
      Same(Walk(s.mem, s.owned[n], |n.path|, page), Walk(s'.mem, s.owned[n], |n.path|, page))
  }

  lemma OnlyEntryTranslations(s: State, s': State, n: Node, i: nat)
    requires Inv(s) && OnlyEntry(s, s'.mem, n, i) && ServesAsBefore(s, s', n, i)
    requires Node(n.proc, []) in s.owned
    ensures SameTranslations(s, s', n.proc)
  {
    forall page | IsPage(page) ensures Same(Trans(s, n.proc, page), Trans(s', n.proc, page)) {
      WalkThrough(s, s'.mem, n, i, Node(n.proc, []), n.proc, page);
    }
  }

  /** The root of a position's process is owned. */
  lemma {:induction false} RootOwned(s: State, n: Node)
    requires Inv(s) && n in s.owned
    ensures Node(n.proc, []) in s.owned
    decreases |n.path|
  {
    if n.path != [] {
      var m := Node(n.proc, n.path[..|n.path| - 1]);
      assert Child(m, n.path[|n.path| - 1]).path == n.path;
      RootOwned(s, m);
    }
  }

  // ---------------------------------------------------------------
  // A new empty table
  // ---------------------------------------------------------------

  lemma NoOwnedChild(s: State, n: Node, i: nat)
    requires Inv(s) && n in s.owned && !Link(EntryOf(s, n, i))
    ensures Child(n, i) !in s.owned
    ensures forall j: nat :: Child(Child(n, i), j) !in s.owned
  {
  }

  lemma ZeroFits(s: State, n: Node, i: nat, e: Entry)
    requires Inv(s) && n in s.owned && |n.path| < 3 && i < 512 && EntryOf(s, n, i) == UNUSED
    requires Link(e) && EntryOk(e) && e.addr in s.free
    ensures CanHook(s, n, i, e, ZERO_TABLE)
  {
    NoOwnedChild(s, n, i);
  }

  lemma ZeroServes(s: State, s': State, n: Node, i: nat, e: Entry)
    requires Inv(s) && n in s.owned && |n.path| < 3 && i < 512 && EntryOf(s, n, i) == UNUSED
    requires Link(e) && IsTable(s'.mem, s.owned[n]) && s'.mem[s.owned[n]][i] == e
    requires e.addr in s'.mem && s'.mem[e.addr] == ZERO_TABLE
    ensures ServesAsBefore(s, s', n, i)
  {
    forall page | IsPage(page) && Through(n, i, n.proc, page)
      ensures Same(Walk(s.mem, s.owned[n], |n.path|, page), Walk(s'.mem, s.owned[n], |n.path|, page))
    {
      assert Walk(s'.mem, e.addr, |n.path| + 1, page) == None;
    }
  }

  // ---------------------------------------------------------------
  // A fork of the table the entry leads to
  // ---------------------------------------------------------------

  lemma ForkFits(s: State, n: Node, i: nat, e: Entry)
    requires Inv(s) && n in s.owned && |n.path| < 3 && i < 512 && Link(EntryOf(s, n, i))
    requires Link(e) && EntryOk(e) && e.addr in s.free
    ensures IsTable(s.mem, EntryOf(s, n, i).addr)
    ensures CanHook(s, n, i, e, s.mem[EntryOf(s, n, i).addr])
  {
    var c, t := Child(n, i), EntryOf(s, n, i).addr;
    ChildPath(s, n, i);
    assert TableAt(s, c, t);
    TableReal(s, c, t);
    forall j: nat | j < 512 && Link(s.mem[t][j]) && |c.path| < 3 ensures TableAt(s, Child(c, j), s.mem[t][j].addr) {
      TableStep(s, c, t, j);
    }
    forall j: nat | Child(c, j) in s.owned
      ensures j < 512 && Link(s.mem[t][j]) && s.mem[t][j].addr == s.owned[Child(c, j)]
    {
      assert c in s.owned && Link(EntryOf(s, c, j));
    }
  }

  lemma ForkServes(s: State, s': State, n: Node, i: nat, e: Entry)
    requires Inv(s) && n in s.owned && |n.path| < 3 && i < 512 && Link(EntryOf(s, n, i)) && Link(e)
    requires EntryOf(s, n, i).flags <= e.flags && OnlyEntry(s, s'.mem, n, i) && s'.mem[s.owned[n]][i] == e
    requires IsTable(s.mem, EntryOf(s, n, i).addr)
    requires e.addr in s'.mem && s'.mem[e.addr] == s.mem[EntryOf(s, n, i).addr]
    ensures ServesAsBefore(s, s', n, i)
  {
    forall page | IsPage(page) && Through(n, i, n.proc, page)
      ensures Same(Walk(s.mem, s.owned[n], |n.path|, page), Walk(s'.mem, s.owned[n], |n.path|, page))
    {
      ForkServesPage(s, s', n, i, e, page);
    }
  }

  lemma ForkServesPage(s: State, s': State, n: Node, i: nat, e: Entry, page: seq<nat>)
    requires Inv(s) && n in s.owned && |n.path| < 3 && i < 512 && Link(EntryOf(s, n, i)) && Link(e)
    requires EntryOf(s, n, i).flags <= e.flags && OnlyEntry(s, s'.mem, n, i) && s'.mem[s.owned[n]][i] == e
    requires IsTable(s.mem, EntryOf(s, n, i).addr)
    requires e.addr in s'.mem && s'.mem[e.addr] == s.mem[EntryOf(s, n, i).addr]
    requires IsPage(page) && Through(n, i, n.proc, page)
    ensures Same(Walk(s.mem, s.owned[n], |n.path|, page), Walk(s'.mem, s.owned[n], |n.path|, page))
  {
    CopyServes(s, s', n, i, e.addr, page);
  }

  /** A copy of the table below serves the page as the table did. */
  lemma CopyServes(s: State, s': State, n: Node, i: nat, g: nat, page: seq<nat>)
    requires Inv(s) && n in s.owned && |n.path| < 3 && i < 512 && Link(EntryOf(s, n, i))
    requires OnlyEntry(s, s'.mem, n, i) && IsTable(s.mem, EntryOf(s, n, i).addr)
    requires g in s'.mem && s'.mem[g] == s.mem[EntryOf(s, n, i).addr]
    requires IsPage(page) && Through(n, i, n.proc, page)
    ensures Same(Walk(s.mem, EntryOf(s, n, i).addr, |n.path| + 1, page), Walk(s'.mem, g, |n.path| + 1, page))
  {
    var c, t, d := Child(n, i), EntryOf(s, n, i).addr, |n.path| + 1;
    ChildPath(s, n, i);
    assert TableAt(s, c, t);
    var x := s.mem[t][page[d]];
    if x != UNUSED && !IsLeaf(d, x) {
      TableStep(s, c, t, page[d]);
      assert page[..d + 1] == c.path + [page[d]];
      WalkThrough(s, s'.mem, n, i, Child(c, page[d]), x.addr, page);
      SameBelow(x, Walk(s.mem, x.addr, d + 1, page), Walk(s'.mem, x.addr, d + 1, page));
    }
  }

  // ---------------------------------------------------------------
  // Splitting a huge page
  // ---------------------------------------------------------------

  /** Bytes mapped by one entry of the table that replaces a huge page found at depth d. */
  function PieceSize(d: nat): nat {
    if d == 1 then 0x20_0000 else 4096
  }

  /** Flags of the pieces: 2 MiB pieces stay huge, 4 KiB pieces do not. */
  function PieceFlags(d: nat, flags: set<Flag>): set<Flag> {
    if d == 1 then flags - {Huge} + {Huge} else flags - {Huge}
  }

  /** The table of pieces that replaces the huge entry e at depth d. */
  predicate IsSplit(d: nat, e: Entry, t: Table) {
    |t| == 512 && forall j | 0 <= j < 512 :: t[j] == Entry(e.addr + j * PieceSize(d), PieceFlags(d, e.flags))
  }

  lemma SplitFits(s: State, n: Node, i: nat, e: Entry, t: Table)
    requires Inv(s) && n in s.owned && 1 <= |n.path| < 3 && i < 512
    requires EntryOf(s, n, i) != UNUSED && Huge in EntryOf(s, n, i).flags && IsSplit(|n.path|, EntryOf(s, n, i), t)
    requires Link(e) && EntryOk(e) && e.addr in s.free
    ensures CanHook(s, n, i, e, t)
  {
    NoOwnedChild(s, n, i);
    assert Present in EntryOf(s, n, i).flags;
  }

  lemma SplitServes(s: State, s': State, n: Node, i: nat, e: Entry, t: Table)
    requires Inv(s) && n in s.owned && 1 <= |n.path| < 3 && i < 512
    requires EntryOf(s, n, i) != UNUSED && Huge in EntryOf(s, n, i).flags && IsSplit(|n.path|, EntryOf(s, n, i), t)
    requires Link(e) && IsTable(s'.mem, s.owned[n]) && s'.mem[s.owned[n]][i] == e
    requires EntryOf(s, n, i).flags - {Huge} <= e.flags
    requires e.addr in s'.mem && s'.mem[e.addr] == t
    ensures ServesAsBefore(s, s', n, i)
  {
    forall page | IsPage(page) && Through(n, i, n.proc, page)
      ensures Same(Walk(s.mem, s.owned[n], |n.path|, page), Walk(s'.mem, s.owned[n], |n.path|, page))
    {
      SplitServesPage(s, s', n, i, e, t, page);
    }
  }

  lemma SplitServesPage(s: State, s': State, n: Node, i: nat, e: Entry, t: Table, page: seq<nat>)
    requires Inv(s) && n in s.owned && 1 <= |n.path| < 3 && i < 512
    requires EntryOf(s, n, i) != UNUSED && Huge in EntryOf(s, n, i).flags && IsSplit(|n.path|, EntryOf(s, n, i), t)
    requires Link(e) && IsTable(s'.mem, s.owned[n]) && s'.mem[s.owned[n]][i] == e
    requires EntryOf(s, n, i).flags - {Huge} <= e.flags
    requires e.addr in s'.mem && s'.mem[e.addr] == t
    requires IsPage(page) && Through(n, i, n.proc, page)
    ensures Same(Walk(s.mem, s.owned[n], |n.path|, page), Walk(s'.mem, s.owned[n], |n.path|, page))
  {
    var d, h := |n.path|, EntryOf(s, n, i);
    var x := t[page[d + 1]];
    assert Present in h.flags;
    assert x == Entry(h.addr + page[d + 1] * PieceSize(d), PieceFlags(d, h.flags));
    assert x != UNUSED by { assert Present in x.flags; }
    assert IsLeaf(d + 1, x);
    assert Walk(s'.mem, e.addr, d + 1, page) == Some(LeafOf(d + 1, x, page));
  }

  // ---------------------------------------------------------------
  // One level of descent
  // ---------------------------------------------------------------

  /** Only entry i of the table at n changed, and only its child position was (re)assigned. */
  ghost predicate Local(s: State, s': State, n: Node, i: nat) {
    && OnlyEntry(s, s'.mem, n, i)
    && (forall m | m in s.owned && m != Child(n, i) :: m in s'.owned && s'.owned[m] == s.owned[m])
    && (forall m | m in s'.owned :: m in s.owned || m == Child(n, i))
  }

  /** All that making entry i of the table at n lead to an owned table may change. */
  ghost predicate Descent(s: State, s': State, n: Node, i: nat) {
    && Inv(s') && Confined(s, s', n.proc) && SameTranslations(s, s', n.proc) && Local(s, s', n, i)
    && Spent(s, s', {}) == true
  }

  lemma DescentTrans(s: State, s': State, s'': State, n: Node, i: nat)
    requires Inv(s) && Descent(s, s', n, i) && Descent(s', s'', n, i)
    ensures Descent(s, s'', n, i)
  {
    ConfinedTrans(s, s', s'', n.proc);
    SameTranslationsTrans(s, s', s'', n.proc);
    LocalTrans(s, s', s'', n, i);
    SpentTrans(s, s', s'', n.proc, {}, {});
  }

  lemma LocalTrans(s: State, s': State, s'': State, n: Node, i: nat)
    requires Inv(s) && Inv(s') && Confined(s, s', n.proc) && Confined(s', s'', n.proc)
    requires Local(s, s', n, i) && Local(s', s'', n, i)
    ensures Local(s, s'', n, i)
  {
    assert Child(n, i) != n by { assert |Child(n, i).path| == |n.path| + 1; }
    forall m | m in s.owned && m != n
      ensures s.owned[m] in s''.mem && s.owned[m] in s.mem && s''.mem[s.owned[m]] == s.mem[s.owned[m]]
    {
      OtherTableKept(s, s', s'', n, i, m);
    }
  }

  lemma OtherTableKept(s: State, s': State, s'': State, n: Node, i: nat, m: Node)
    requires Inv(s) && Confined(s, s', n.proc) && Confined(s', s'', n.proc)
    requires Local(s, s', n, i) && Local(s', s'', n, i) && m in s.owned && m != n && Child(n, i) != n
    ensures s.owned[m] in s''.mem && s.owned[m] in s.mem && s''.mem[s.owned[m]] == s.mem[s.owned[m]]
  {
    if m == Child(n, i) && s'.owned[m] != s.owned[m] { OldChildKept(s, s', s'', n, i); }
  }

  /** The child's old frame has left the process, so the second step does not write it. */
  lemma OldChildKept(s: State, s': State, s'': State, n: Node, i: nat)
    requires Inv(s) && Confined(s, s', n.proc) && Confined(s', s'', n.proc) && Local(s, s', n, i)
    requires Child(n, i) in s.owned && s'.owned[Child(n, i)] != s.owned[Child(n, i)] && Child(n, i) != n
    ensures s.owned[Child(n, i)] in s''.mem && s.owned[Child(n, i)] in s.mem
    ensures s''.mem[s.owned[Child(n, i)]] == s.mem[s.owned[Child(n, i)]]
  {
    var f := s.owned[Child(n, i)];
    assert !OwnedBy(s', n.proc, f) by {
      forall m | m in s'.owned ensures s'.owned[m] != f {
        if m != Child(n, i) { assert m in s.owned && s.owned[m] != f; }
      }
    }
    assert f !in s'.free;
  }

  lemma HookDescent(s: State, n: Node, i: nat, e: Entry, t: Table)
    requires CanHook(s, n, i, e, t) && s.owned[n] != e.addr && ServesAsBefore(s, Hook(s, n, i, e, t), n, i)
    requires NoGiant(s) ==> Child(n, i) !in s.owned
    ensures Descent(s, Hook(s, n, i, e, t), n, i)
  {
    HookSpent(s, n, i, e, t);
    HookQuiet(s, Hook(s, n, i, e, t), n, i, e, t);
  }

  lemma HookQuiet(s: State, s': State, n: Node, i: nat, e: Entry, t: Table)
    requires CanHook(s, n, i, e, t) && s.owned[n] != e.addr && s' == Hook(s, n, i, e, t) && ServesAsBefore(s, s', n, i)
    ensures Inv(s') && Confined(s, s', n.proc) && SameTranslations(s, s', n.proc) && Local(s, s', n, i)
  {
    HookOk(s, n, i, e, t);
    HookConfined(s, n, i, e, t);
    RootOwned(s, n);
    OnlyEntryTranslations(s, s', n, i);
  }

  /** The frame that is hooked in leaves the free frames and joins the tables. */
  lemma HookSpent(s: State, n: Node, i: nat, e: Entry, t: Table)
    requires CanHook(s, n, i, e, t) && s.owned[n] != e.addr && (NoGiant(s) ==> Child(n, i) !in s.owned)
    ensures Spent(s, Hook(s, n, i, e, t), {})
  {
    var s' := Hook(s, n, i, e, t);
    forall f | f in s'.owned.Values ensures f in Held(s) {
      var m :| m in s'.owned && s'.owned[m] == f;
      assert m != Child(n, i) ==> m in s.owned && s.owned[m] == f;
    }
    if Child(n, i) !in s.owned {
      forall f | f in s.owned.Values ensures f in s'.owned.Values {
        var m :| m in s.owned && s.owned[m] == f;
        assert m in s'.owned && s'.owned[m] == f;
      }
      assert Child(n, i) in s'.owned && s'.owned[Child(n, i)] == e.addr;
    }
  }

  /** Adding flags to a link. */
  lemma FlagsDescent(s: State, n: Node, i: nat, e: Entry)
    requires Inv(s) && n in s.owned && |n.path| < 3 && i < 512 && Link(EntryOf(s, n, i)) && Link(e)
    requires e.addr == EntryOf(s, n, i).addr && EntryOf(s, n, i).flags <= e.flags
    ensures CanRewrite(s, n, i, e) && Descent(s, Rewrite(s, n, i, e), n, i)
  {
    var s' := Rewrite(s, n, i, e);
    assert EntryOk(EntryOf(s, n, i));
    RewriteOk(s, n, i, e);
    RewriteConfined(s, n, i, e);
    FlagsServe(s, n, i, e);
    RootOwned(s, n);
    OnlyEntryTranslations(s, s', n, i);
  }

  lemma RewriteConfined(s: State, n: Node, i: nat, e: Entry)
    requires CanRewrite(s, n, i, e)
    ensures Confined(s, Rewrite(s, n, i, e), n.proc) && OnlyEntry(s, Rewrite(s, n, i, e).mem, n, i)
  {
    var s' := Rewrite(s, n, i, e);
    assert OwnedBy(s, n.proc, s.owned[n]);
    forall f | OwnedBy(s', n.proc, f) ensures OwnedBy(s, n.proc, f) {
      var m :| m in s'.owned && m.proc == n.proc && s'.owned[m] == f;
      assert m in s.owned && s.owned[m] == f;
    }
  }

  lemma FlagsServe(s: State, n: Node, i: nat, e: Entry)
    requires CanRewrite(s, n, i, e) && |n.path| < 3 && Link(EntryOf(s, n, i)) && Link(e)
    requires e.addr == EntryOf(s, n, i).addr && EntryOf(s, n, i).flags <= e.flags
    ensures ServesAsBefore(s, Rewrite(s, n, i, e), n, i)
  {
    var s' := Rewrite(s, n, i, e);
    RewriteConfined(s, n, i, e);
    ChildPath(s, n, i);
    forall page | IsPage(page) && Through(n, i, n.proc, page)
      ensures Same(Walk(s.mem, s.owned[n], |n.path|, page), Walk(s'.mem, s.owned[n], |n.path|, page))
    {
      assert TableAt(s, Child(n, i), EntryOf(s, n, i).addr);
      assert page[..|n.path| + 1] == Child(n, i).path;
      WalkThrough(s, s'.mem, n, i, Child(n, i), e.addr, page);
    }
  }
}

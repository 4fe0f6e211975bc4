/** What the elementary writes of the paging code do to the invariant and to translations. */
module PagingSteps {
  import opened Options
  import opened PageTables

  // ---------------------------------------------------------------
  // Tables met by walks
  // ---------------------------------------------------------------

  /** A walk stays on tables that are the process's own or the kernel's at the same path. */
  lemma TableStep(s: State, c: Node, t: nat, i: nat)
    requires Inv(s) && IsPath(c.path) && |c.path| < 3 && i < 512 && TableAt(s, c, t)
    ensures IsTable(s.mem, t)
    ensures Link(s.mem[t][i]) ==> TableAt(s, Child(c, i), s.mem[t][i].addr)
    ensures c.path == [] ==> Huge !in s.mem[t][i].flags
  {
    if c in s.owned {
      assert EntryOf(s, c, i) == s.mem[t][i];
    } else {
      assert t in s.kernel;
      if Link(s.mem[t][i]) {
        assert IsPath(c.path + [i]);
        KernelChild(s, c.path, i);
      }
    }
  }

  lemma TableReal(s: State, c: Node, t: nat)
    requires Inv(s) && IsPath(c.path) && TableAt(s, c, t)
    ensures IsTable(s.mem, t) && t !in s.free && (t in s.kernel <==> c !in s.owned)
  {
    if c !in s.owned { assert t in s.kernel; }
  }

  /** Memory that agrees on all kernel and owned tables. */
  ghost predicate AgreesOnTables(s: State, mem: Memory) {
    && (forall t | t in s.kernel :: t in mem && t in s.mem && mem[t] == s.mem[t])
    && (forall n | n in s.owned :: s.owned[n] in mem && s.owned[n] in s.mem && mem[s.owned[n]] == s.mem[s.owned[n]])
  }

  lemma {:induction false} WalkAgrees(s: State, mem: Memory, c: Node, t: nat, page: seq<nat>)
    requires Inv(s) && AgreesOnTables(s, mem)
    requires IsPath(c.path) && IsPage(page) && TableAt(s, c, t)
    ensures Walk(mem, t, |c.path|, page) == Walk(s.mem, t, |c.path|, page)
    decreases 3 - |c.path|
  {
    var d := |c.path|;
    TableAgrees(s, mem, c, t);
    if d < 3 {
      var e := s.mem[t][page[d]];
      if e != UNUSED && !IsLeaf(d, e) {
        TableStep(s, c, t, page[d]);
        WalkAgrees(s, mem, Child(c, page[d]), e.addr, page);
      }
      WalkSame(s.mem, mem, t, t, d, page);
    }
  }

  lemma TableAgrees(s: State, mem: Memory, c: Node, t: nat)
    requires Inv(s) && AgreesOnTables(s, mem) && IsPath(c.path) && TableAt(s, c, t)
    ensures IsTable(s.mem, t) && t in mem && mem[t] == s.mem[t]
  {
    TableReal(s, c, t);
  }

  /** Tables that agree on one entry, and on what lies below it, serve the page alike. */
  lemma WalkSame(mem: Memory, mem': Memory, t: nat, t': nat, d: nat, page: seq<nat>)
    requires IsPage(page) && d < 3 && IsTable(mem, t) && IsTable(mem', t') && mem[t][page[d]] == mem'[t'][page[d]]
    requires mem[t][page[d]] != UNUSED && !IsLeaf(d, mem[t][page[d]]) ==>
               Walk(mem, mem[t][page[d]].addr, d + 1, page) == Walk(mem', mem[t][page[d]].addr, d + 1, page)
    ensures Walk(mem, t, d, page) == Walk(mem', t', d, page)
  {
  }

  // ---------------------------------------------------------------
  // Taking and filling a fresh frame
  // ---------------------------------------------------------------

  /** A frame that is neither free nor part of any page table. */
  ghost predicate Fresh(s: State, f: nat) {
    IsTable(s.mem, f) && f !in s.free && f !in s.kernel && forall n | n in s.owned :: s.owned[n] != f
  }

  function Take(s: State, f: nat): State {
    s.(free := s.free - {f})
  }

  lemma TakeOk(s: State, f: nat)
    requires Inv(s) && f in s.free
    ensures Inv(Take(s, f)) && Fresh(Take(s, f), f)
  {
    var s' := Take(s, f);
    assert forall n, i: nat :: EntryOf(s', n, i) == EntryOf(s, n, i);
    forall n, i: nat | n in s'.owned && |n.path| < 3 && Link(EntryOf(s', n, i))
      ensures TableAt(s', Child(n, i), EntryOf(s', n, i).addr)
    {
      assert TableAt(s, Child(n, i), EntryOf(s, n, i).addr);
    }
  }

  function Fill(s: State, f: nat, t: Table): State {
    s.(mem := s.mem[f := t])
  }

  /** Writing a frame that is in no page table keeps the invariant and every translation. */
  lemma FillOk(s: State, f: nat, t: Table)
    requires Inv(s) && Fresh(s, f) && |t| == 512
    ensures Inv(Fill(s, f, t)) && Fresh(Fill(s, f, t), f)
    ensures AgreesOnTables(s, Fill(s, f, t).mem)
  {
    var s' := Fill(s, f, t);
    FillKernel(s, f, t);
    assert forall n, i: nat :: EntryOf(s', n, i) == EntryOf(s, n, i);
    forall n, i: nat | n in s'.owned && |n.path| < 3 && Link(EntryOf(s', n, i))
      ensures TableAt(s', Child(n, i), EntryOf(s', n, i).addr)
    {
      ChildPath(s, n, i);
      assert TableAt(s, Child(n, i), EntryOf(s, n, i).addr);
      KernelSame(s, s'.mem, Child(n, i).path);
    }
    HugeKept(s, s');
  }

  /** Huge entries stay the kernel's while the kernel's tables and the addresses of huge entries do. */
  lemma HugeKept(s: State, s': State)
    requires KernelOk(s) && OwnedOk(s) && HugeOk(s) && s'.root == s.root
    requires forall t | t in s.kernel :: t in s'.mem && s'.mem[t] == s.mem[t]
    requires forall n, i: nat | n in s'.owned && |n.path| == 1 && Huge in EntryOf(s', n, i).flags ::
               n in s.owned && Huge in EntryOf(s, n, i).flags && EntryOf(s', n, i).addr == EntryOf(s, n, i).addr
    ensures HugeOk(s')
  {
    forall n, i: nat | n in s'.owned && |n.path| == 1 && Huge in EntryOf(s', n, i).flags
      ensures KernelPage(s'.mem, s'.root, n.path, i, EntryOf(s', n, i))
    {
      assert KernelPage(s.mem, s.root, n.path, i, EntryOf(s, n, i));
      KernelEntrySame(s, s'.mem, n.path, i);
    }
  }

  lemma FillKernel(s: State, f: nat, t: Table)
    requires KernelOk(s) && f !in s.kernel && |t| == 512
    ensures KernelOk(Fill(s, f, t))
  {
    var s' := Fill(s, f, t);
    forall q | IsPath(q) ensures KernelTable(s'.mem, s'.root, q) == KernelTable(s.mem, s.root, q) {
      KernelSame(s, s'.mem, q);
    }
  }

  lemma ChildPath(s: State, n: Node, i: nat)
    requires OwnedOk(s) && n in s.owned && |n.path| < 3 && i < 512
    ensures IsPath(Child(n, i).path)
  {
  }

  // ---------------------------------------------------------------
  // Hooking a filled frame into an owned table
  // ---------------------------------------------------------------

  /** Entry i of the owned table at n now leads to the fresh frame e.addr, owned at Child(n, i). */
  function Attach(s: State, n: Node, i: nat, e: Entry): State
    requires n in s.owned && IsTable(s.mem, s.owned[n]) && i < 512
  {
    var g := s.owned[n];
    s.(mem := s.mem[g := s.mem[g][i := e]], owned := s.owned[Child(n, i) := e.addr])
  }

  /** A table whose links fit position c, and that carries on every owned child of c. */
  ghost predicate ContentFits(s: State, c: Node, t: Table) {
    && EntriesOk(t)
    && (|c.path| < 3 ==> forall j: nat | j < 512 && Link(t[j]) :: TableAt(s, Child(c, j), t[j].addr))
    && (forall j: nat | Child(c, j) in s.owned :: j < 512 && Link(t[j]) && t[j].addr == s.owned[Child(c, j)])
    && (|c.path| == 1 ==> forall j: nat | j < 512 && Huge in t[j].flags :: KernelPage(s.mem, s.root, c.path, j, t[j]))
  }

  ghost predicate CanAttach(s: State, n: Node, i: nat, e: Entry) {
    && Inv(s) && n in s.owned && |n.path| < 3 && i < 512 && Link(e) && EntryOk(e) && Fresh(s, e.addr)
    && ContentFits(s, Child(n, i), s.mem[e.addr])
  }

  lemma ChildInjective(n: Node, i: nat, m: Node, k: nat)
    ensures Child(n, i) == Child(m, k) <==> n == m && i == k
  {
    if Child(n, i) == Child(m, k) {
      assert n.path == (n.path + [i])[..|n.path|];
      assert m.path == (m.path + [k])[..|m.path|];
      assert (n.path + [i])[|n.path|] == i && (m.path + [k])[|m.path|] == k;
    }
  }

  lemma AttachEntry(s: State, n: Node, i: nat, e: Entry, m: Node, k: nat)
    requires CanAttach(s, n, i, e)
    ensures EntryOf(Attach(s, n, i, e), m, k) ==
            if m == Child(n, i) then (if k < 512 then s.mem[e.addr][k] else UNUSED)
            else if m == n && k == i then e
            else EntryOf(s, m, k)
  {
    assert Child(n, i) != n by { assert |Child(n, i).path| == |n.path| + 1; }
  }

  lemma AttachKernel(s: State, n: Node, i: nat, e: Entry)
    requires CanAttach(s, n, i, e)
    ensures KernelOk(Attach(s, n, i, e))
    ensures forall q | IsPath(q) ::
              KernelTable(Attach(s, n, i, e).mem, s.root, q) == KernelTable(s.mem, s.root, q)
  {
    var s' := Attach(s, n, i, e);
    forall q | IsPath(q) ensures KernelTable(s'.mem, s'.root, q) == KernelTable(s.mem, s.root, q) {
      KernelSame(s, s'.mem, q);
    }
  }

  lemma AttachOwned(s: State, n: Node, i: nat, e: Entry)
    requires CanAttach(s, n, i, e)
    ensures MemoryOk(Attach(s, n, i, e)) && OwnedOk(Attach(s, n, i, e))
  {
    ChildPath(s, n, i);
  }

  lemma AttachSharing(s: State, n: Node, i: nat, e: Entry)
    requires CanAttach(s, n, i, e)
    ensures SharingOk(Attach(s, n, i, e)) && RootsOk(Attach(s, n, i, e))
  {
    var s' := Attach(s, n, i, e);
    AttachKernel(s, n, i, e);
    AttachOwned(s, n, i, e);
    forall m, k: nat | m in s'.owned && |m.path| < 3 && Link(EntryOf(s', m, k))
      ensures TableAt(s', Child(m, k), EntryOf(s', m, k).addr)
    {
      ChildPath(s', m, k);
      AttachEntry(s, n, i, e, m, k);
      ChildInjective(n, i, m, k);
      if m == Child(n, i) {
        assert TableAt(s, Child(m, k), s.mem[e.addr][k].addr);
      } else if !(m == n && k == i) {
        assert TableAt(s, Child(m, k), EntryOf(s, m, k).addr);
      }
    }
    forall m, k: nat | m in s'.owned && m.path == [] ensures Huge !in EntryOf(s', m, k).flags {
      AttachEntry(s, n, i, e, m, k);
      assert m != Child(n, i);
    }
  }

  lemma AttachAttached(s: State, n: Node, i: nat, e: Entry)
    requires CanAttach(s, n, i, e)
    ensures AttachedOk(Attach(s, n, i, e))
  {
    var s' := Attach(s, n, i, e);
    forall m, k: nat | Child(m, k) in s'.owned
      ensures m in s'.owned && Link(EntryOf(s', m, k)) && EntryOf(s', m, k).addr == s'.owned[Child(m, k)]
    {
      ChildInjective(n, i, m, k);
      AttachEntry(s, n, i, e, m, k);
      if Child(m, k) != Child(n, i) {
        assert Child(m, k) in s.owned;
        assert m in s.owned && Link(EntryOf(s, m, k));
      }
    }
  }

  lemma AttachHuge(s: State, n: Node, i: nat, e: Entry)
    requires CanAttach(s, n, i, e)
    ensures HugeOk(Attach(s, n, i, e))
  {
    var s' := Attach(s, n, i, e);
    forall m, k: nat | m in s'.owned && |m.path| == 1 && Huge in EntryOf(s', m, k).flags
      ensures KernelPage(s'.mem, s'.root, m.path, k, EntryOf(s', m, k))
    {
      AttachPage(s, s', n, i, e, m, k);
    }
  }

  lemma AttachPage(s: State, s': State, n: Node, i: nat, e: Entry, m: Node, k: nat)
    requires CanAttach(s, n, i, e) && s' == Attach(s, n, i, e)
    requires m in s'.owned && |m.path| == 1 && Huge in EntryOf(s', m, k).flags
    ensures KernelPage(s'.mem, s'.root, m.path, k, EntryOf(s', m, k))
  {
    ChildPath(s, n, i);
    AttachEntry(s, n, i, e, m, k);
    if m != Child(n, i) { assert KernelPage(s.mem, s.root, m.path, k, EntryOf(s, m, k)); }
    assert IsPath(m.path);
    KernelEntrySame(s, s'.mem, m.path, k);
  }

  /** Attaching keeps the whole invariant. */
  lemma AttachOk(s: State, n: Node, i: nat, e: Entry)
    requires CanAttach(s, n, i, e)
    ensures Inv(Attach(s, n, i, e))
  {
    AttachKernel(s, n, i, e);
    AttachOwned(s, n, i, e);
    AttachSharing(s, n, i, e);
    AttachAttached(s, n, i, e);
    AttachHuge(s, n, i, e);
  }

  // ---------------------------------------------------------------
  // Rewriting one entry of an owned table in place
  // ---------------------------------------------------------------

  function Rewrite(s: State, n: Node, i: nat, e: Entry): State
    requires n in s.owned && IsTable(s.mem, s.owned[n]) && i < 512
  {
    var g := s.owned[n];
    s.(mem := s.mem[g := s.mem[g][i := e]])
  }

  /** A rewrite that moves no link: same target if the entry is a link, else no link before or after. */
  ghost predicate CanRewrite(s: State, n: Node, i: nat, e: Entry) {
    && Inv(s) && n in s.owned && i < 512 && EntryOk(e)
    && (|n.path| < 3 ==> (Link(e) <==> Link(EntryOf(s, n, i))) && (Link(e) ==> e.addr == EntryOf(s, n, i).addr))
    && (n.path == [] ==> Huge !in e.flags)
    && (|n.path| == 1 && Huge in e.flags ==> Huge in EntryOf(s, n, i).flags && e.addr == EntryOf(s, n, i).addr)
  }

  lemma RewriteEntry(s: State, n: Node, i: nat, e: Entry, m: Node, k: nat)
    requires CanRewrite(s, n, i, e)
    ensures EntryOf(Rewrite(s, n, i, e), m, k) == if m == n && k == i then e else EntryOf(s, m, k)
  {
  }

  lemma RewriteKernel(s: State, n: Node, i: nat, e: Entry)
    requires CanRewrite(s, n, i, e)
    ensures KernelOk(Rewrite(s, n, i, e))
    ensures forall q | IsPath(q) ::
              KernelTable(Rewrite(s, n, i, e).mem, s.root, q) == KernelTable(s.mem, s.root, q)
  {
    var s' := Rewrite(s, n, i, e);
    forall q | IsPath(q) ensures KernelTable(s'.mem, s'.root, q) == KernelTable(s.mem, s.root, q) {
      KernelSame(s, s'.mem, q);
    }
  }

  lemma RewriteOwned(s: State, n: Node, i: nat, e: Entry)
    requires CanRewrite(s, n, i, e)
    ensures MemoryOk(Rewrite(s, n, i, e)) && OwnedOk(Rewrite(s, n, i, e))
  {
  }

  lemma RewriteLinks(s: State, n: Node, i: nat, e: Entry)
    requires CanRewrite(s, n, i, e)
    ensures SharingOk(Rewrite(s, n, i, e)) && AttachedOk(Rewrite(s, n, i, e)) && RootsOk(Rewrite(s, n, i, e))
  {
    var s' := Rewrite(s, n, i, e);
    RewriteKernel(s, n, i, e);
    RewriteOwned(s, n, i, e);
    forall m, k: nat ensures EntryOf(s', m, k) == if m == n && k == i then e else EntryOf(s, m, k) {
      RewriteEntry(s, n, i, e, m, k);
    }
    forall m, k: nat | m in s'.owned && |m.path| < 3 && Link(EntryOf(s', m, k))
      ensures TableAt(s', Child(m, k), EntryOf(s', m, k).addr)
    {
      ChildPath(s', m, k);
      assert TableAt(s, Child(m, k), EntryOf(s, m, k).addr);
    }
    forall m, k: nat | Child(m, k) in s'.owned
      ensures m in s'.owned && Link(EntryOf(s', m, k)) && EntryOf(s', m, k).addr == s'.owned[Child(m, k)]
    {
      assert IsPath(Child(m, k).path);
    }
  }

  lemma RewriteHuge(s: State, n: Node, i: nat, e: Entry)
    requires CanRewrite(s, n, i, e)
    ensures HugeOk(Rewrite(s, n, i, e))
  {
    var s' := Rewrite(s, n, i, e);
    forall m, k: nat ensures EntryOf(s', m, k) == if m == n && k == i then e else EntryOf(s, m, k) {
      RewriteEntry(s, n, i, e, m, k);
    }
    HugeKept(s, s');
  }

  lemma RewriteOk(s: State, n: Node, i: nat, e: Entry)
    requires CanRewrite(s, n, i, e)
    ensures Inv(Rewrite(s, n, i, e))
  {
    RewriteKernel(s, n, i, e);
    RewriteOwned(s, n, i, e);
    RewriteLinks(s, n, i, e);
    RewriteHuge(s, n, i, e);
  }

  // ---------------------------------------------------------------
  // Translations across a one-entry change
  // ---------------------------------------------------------------

  /** mem differs from s.mem, on kernel and owned tables, at most in entry i of the table at n. */
  ghost predicate OnlyEntry(s: State, mem: Memory, n: Node, i: nat) {
    && n in s.owned && IsTable(s.mem, s.owned[n]) && IsTable(mem, s.owned[n])
    && (forall k | 0 <= k < 512 && k != i :: mem[s.owned[n]][k] == s.mem[s.owned[n]][k])
    && (forall t | t in s.kernel :: t in mem && t in s.mem && mem[t] == s.mem[t])
    && (forall m | m in s.owned && m != n ::
          s.owned[m] in mem && s.owned[m] in s.mem && mem[s.owned[m]] == s.mem[s.owned[m]])
  }

  /** A page whose walk goes through entry i of the table at n. */
  predicate Through(n: Node, i: nat, p: nat, page: seq<nat>) {
    p == n.proc && |n.path| < |page| && page[..|n.path|] == n.path && page[|n.path|] == i
  }

  lemma SameBelow(e: Entry, a: Option<Leaf>, b: Option<Leaf>)
    requires Same(a, b)
    ensures Same(Below(e, a), Below(e, b))
  {
  }

  /** If the changed entry serves the pages through it as before, every page is served as before. */
  lemma {:induction false} WalkThrough(s: State, mem: Memory, n: Node, i: nat, c: Node, t: nat, page: seq<nat>)
    requires Inv(s) && OnlyEntry(s, mem, n, i)
    requires IsPath(c.path) && IsPage(page) && TableAt(s, c, t) && page[..|c.path|] == c.path
    requires |c.path| <= |n.path| && Through(n, i, c.proc, page) ==>
               Same(Walk(s.mem, s.owned[n], |n.path|, page), Walk(mem, s.owned[n], |n.path|, page))
    ensures Same(Walk(s.mem, t, |c.path|, page), Walk(mem, t, |c.path|, page))
    decreases 3 - |c.path|
  {
    var d := |c.path|;
    TableReal(s, c, t);
    if c == n && page[d] == i {
    } else {
      assert IsTable(mem, t) && mem[t][page[d]] == s.mem[t][page[d]];
      var e := s.mem[t][page[d]];
      if e != UNUSED && !IsLeaf(d, e) {
        TableStep(s, c, t, page[d]);
        assert page[..d + 1] == c.path + [page[d]];
        WalkThrough(s, mem, n, i, Child(c, page[d]), e.addr, page);
        SameBelow(e, Walk(s.mem, e.addr, d + 1, page), Walk(mem, e.addr, d + 1, page));
      }
    }
  }

  /** The same for translations that only gain leaf flags. */
  lemma WalkBelow(mem: Memory, t: nat, d: nat, page: seq<nat>)
    requires IsPage(page) && d < 3 && IsTable(mem, t) && mem[t][page[d]] != UNUSED && !IsLeaf(d, mem[t][page[d]])
    ensures Walk(mem, t, d, page) == Below(mem[t][page[d]], Walk(mem, mem[t][page[d]].addr, d + 1, page))
  {
  }

  lemma GrowsBelow(e: Entry, a: Option<Leaf>, b: Option<Leaf>)
    requires Grows(a, b)
    ensures Grows(Below(e, a), Below(e, b))
  {
  }

  lemma {:induction false} WalkGrows(s: State, mem: Memory, n: Node, i: nat, c: Node, t: nat, page: seq<nat>)
    requires Inv(s) && OnlyEntry(s, mem, n, i)
    requires IsPath(c.path) && IsPage(page) && TableAt(s, c, t) && page[..|c.path|] == c.path
    requires |c.path| <= |n.path| && Through(n, i, c.proc, page) ==>
               Grows(Walk(s.mem, s.owned[n], |n.path|, page), Walk(mem, s.owned[n], |n.path|, page))
    ensures Grows(Walk(s.mem, t, |c.path|, page), Walk(mem, t, |c.path|, page))
    decreases 3 - |c.path|
  {
    var d := |c.path|;
    TableReal(s, c, t);
    if c == n && page[d] == i {
    } else {
      assert IsTable(mem, t) && mem[t][page[d]] == s.mem[t][page[d]];
      var e := s.mem[t][page[d]];
      if e != UNUSED && !IsLeaf(d, e) {
        TableStep(s, c, t, page[d]);
        assert page[..d + 1] == c.path + [page[d]];
        WalkGrows(s, mem, n, i, Child(c, page[d]), e.addr, page);
        WalkBelow(s.mem, t, d, page);
        WalkBelow(mem, t, d, page);
        GrowsBelow(e, Walk(s.mem, e.addr, d + 1, page), Walk(mem, e.addr, d + 1, page));
      }
    }
  }
}

/** One level of the mapping code's descent: new table, split, fork or flags, as the code does them. */
module PagingDescent {
  import opened Options
  import opened PageTables
  import opened PagingSteps
  import opened PagingHooks

  const INTERMEDIATE: set<Flag> := {Present, Writable, User}

  // ---------------------------------------------------------------
  // Each branch, on values
  // ---------------------------------------------------------------

  lemma DescentRefl(s: State, n: Node, i: nat)
    requires Inv(s) && n in s.owned
    ensures Descent(s, s, n, i)
  {
  }

  /** Entry i of the table at n leads to the owned table r and carries the flags. */
  ghost predicate Leads(s: State, n: Node, i: nat, r: nat, flags: set<Flag>) {
    Child(n, i) in s.owned && s.owned[Child(n, i)] == r && flags <= EntryOf(s, n, i).flags
  }

  lemma NewStep(s: State, s': State, n: Node, i: nat, e: Entry)
    requires Inv(s) && n in s.owned && |n.path| < 3 && i < 512 && EntryOf(s, n, i) == UNUSED
    requires e.addr in s.free && e.flags == INTERMEDIATE && s.owned[n] != e.addr && s' == Hook(s, n, i, e, ZERO_TABLE)
    ensures Descent(s, s', n, i) && Leads(s', n, i, e.addr, e.flags)
  {
    ZeroFits(s, n, i, e);
    HookOk(s, n, i, e, ZERO_TABLE);
    ZeroServes(s, Hook(s, n, i, e, ZERO_TABLE), n, i, e);
    HookDescent(s, n, i, e, ZERO_TABLE);
    assert Child(n, i) != n by { assert |Child(n, i).path| == |n.path| + 1; }
  }

  lemma ForkStep(s: State, s': State, n: Node, i: nat, e: Entry)
    requires Inv(s) && n in s.owned && |n.path| < 3 && i < 512 && Link(EntryOf(s, n, i))
    requires e.addr in s.free && EntryOf(s, n, i).flags <= e.flags && User in e.flags && Link(e)
    requires NoGiant(s) ==> Child(n, i) !in s.owned
    requires IsTable(s.mem, EntryOf(s, n, i).addr) && s.owned[n] != e.addr
    requires s' == Hook(s, n, i, e, s.mem[EntryOf(s, n, i).addr])
    ensures Descent(s, s', n, i) && Leads(s', n, i, e.addr, e.flags)
  {
    assert EntryOk(EntryOf(s, n, i));
    ForkFits(s, n, i, e);
    var t := s.mem[EntryOf(s, n, i).addr];
    HookOk(s, n, i, e, t);
    ForkServes(s, Hook(s, n, i, e, t), n, i, e);
    HookDescent(s, n, i, e, t);
    assert Child(n, i) != n by { assert |Child(n, i).path| == |n.path| + 1; }
  }

  /** The flags a split leaves on the entry of a huge page found at depth d. */
  function SplitFlags(d: nat, flags: set<Flag>): set<Flag> {
    if d == 1 then flags - {Huge} + INTERMEDIATE else flags - {Huge}
  }

  lemma SplitStep(s: State, s': State, n: Node, i: nat, e: Entry, t: Table)
    requires Inv(s) && n in s.owned && 1 <= |n.path| < 3 && i < 512
    requires EntryOf(s, n, i) != UNUSED && Huge in EntryOf(s, n, i).flags && IsSplit(|n.path|, EntryOf(s, n, i), t)
    requires e.addr in s.free && e.flags == SplitFlags(|n.path|, EntryOf(s, n, i).flags)
    requires s.owned[n] != e.addr && s' == Hook(s, n, i, e, t)
    ensures Descent(s, s', n, i) && EntryOf(s', n, i) == e && Link(e)
  {
    assert Present in EntryOf(s, n, i).flags;
    assert Present in e.flags;
    SplitFits(s, n, i, e, t);
    HookOk(s, n, i, e, t);
    SplitServes(s, Hook(s, n, i, e, t), n, i, e, t);
    HookDescent(s, n, i, e, t);
    assert Child(n, i) != n by { assert |Child(n, i).path| == |n.path| + 1; }
  }

  // ---------------------------------------------------------------
  // The kernel's subtable at a path
  // ---------------------------------------------------------------

  /** The address the code compares a process entry with, for the entry that ends the path. */
  function KernelSubtable(mem: Memory, root: nat, path: Path): Option<nat>
    requires 1 <= |path| <= 3 && IsPath(path)
  {
    if !IsTable(mem, root) || mem[root][path[0]] == UNUSED then None
    else if |path| == 1 then Some(mem[root][path[0]].addr)
    else if Huge in mem[root][path[0]].flags then None
    else
      var l3 := mem[root][path[0]].addr;
      if !IsTable(mem, l3) || mem[l3][path[1]] == UNUSED then None
      else if |path| == 2 then Some(mem[l3][path[1]].addr)
      else if Huge in mem[l3][path[1]].flags then None
      else
        var l2 := mem[l3][path[1]].addr;
        if !IsTable(mem, l2) || mem[l2][path[2]] == UNUSED || Huge in mem[l2][path[2]].flags then None
        else Some(mem[l2][path[2]].addr)
  }

  /** Where the kernel has a table, the comparison address is that table. */
  lemma SubtableIsTable(mem: Memory, root: nat, path: Path)
    requires 1 <= |path| <= 3 && IsPath(path) && KernelTable(mem, root, path).Some?
    ensures KernelSubtable(mem, root, path) == KernelTable(mem, root, path)
  {
    assert path[..1][..0] == [];
    assert KernelTable(mem, root, path[..1][..0]) == Some(root);
    if |path| > 1 { assert path[..2][..1] == path[..1]; }
    if |path| == 3 {
      assert KernelTable(mem, root, path[..2]).Some?;
      assert KernelTable(mem, root, path[..2][..1]).Some?;
    }
    assert path[..|path|] == path;
  }

  /** cmp is the kernel's table at the path, wherever the kernel has one; without 1 GiB pages it is nothing else. */
  ghost predicate Guards(s: State, path: Path, cmp: Option<nat>) {
    && (KernelTable(s.mem, s.root, path).Some? ==> cmp == KernelTable(s.mem, s.root, path))
    && (NoGiant(s) && cmp.Some? ==> cmp.value in s.kernel)
  }

  /** An entry at the compared address leads to no table of the process, unless a 1 GiB page is compared. */
  lemma NotOwned(s: State, n: Node, i: nat, cmp: Option<nat>)
    requires Inv(s) && n in s.owned && |n.path| < 3 && i < 512 && Link(EntryOf(s, n, i))
    requires Guards(s, n.path + [i], cmp) && cmp == Some(EntryOf(s, n, i).addr)
    ensures NoGiant(s) ==> Child(n, i) !in s.owned
  {
    assert TableAt(s, Child(n, i), EntryOf(s, n, i).addr);
  }

  /** An entry that differs from the kernel's subtable leads to a table of the process. */
  lemma NotKernel(s: State, n: Node, i: nat, cmp: Option<nat>)
    requires Inv(s) && n in s.owned && |n.path| < 3 && i < 512 && Link(EntryOf(s, n, i))
    requires Guards(s, n.path + [i], cmp) && cmp != Some(EntryOf(s, n, i).addr)
    ensures Child(n, i) in s.owned && s.owned[Child(n, i)] == EntryOf(s, n, i).addr
  {
    assert TableAt(s, Child(n, i), EntryOf(s, n, i).addr);
  }

  lemma FlagsStep(s: State, n: Node, i: nat, e: Entry, cmp: Option<nat>)
    requires Inv(s) && n in s.owned && |n.path| < 3 && i < 512 && Link(EntryOf(s, n, i))
    requires Guards(s, n.path + [i], cmp) && cmp != Some(EntryOf(s, n, i).addr)
    requires e.addr == EntryOf(s, n, i).addr && e.flags == EntryOf(s, n, i).flags + INTERMEDIATE
    ensures CanRewrite(s, n, i, e) && Descent(s, Rewrite(s, n, i, e), n, i)
    ensures Leads(Rewrite(s, n, i, e), n, i, e.addr, e.flags)
  {
    NotKernel(s, n, i, cmp);
    FlagsDescent(s, n, i, e);
  }

  lemma SubtableGuards(s: State, path: Path)
    requires KernelOk(s) && 1 <= |path| <= 3 && IsPath(path)
    ensures Guards(s, path, KernelSubtable(s.mem, s.root, path))
  {
    if KernelTable(s.mem, s.root, path).Some? { SubtableIsTable(s.mem, s.root, path); }
    if NoGiant(s) && KernelSubtable(s.mem, s.root, path).Some? { SubtableInKernel(s, path); }
  }

  lemma SubtableInKernel(s: State, path: Path)
    requires KernelOk(s) && 1 <= |path| <= 3 && IsPath(path) && NoGiant(s)
    requires KernelSubtable(s.mem, s.root, path).Some?
    ensures KernelTable(s.mem, s.root, path) == KernelSubtable(s.mem, s.root, path)
  {
    assert path[..1][..0] == [];
    assert KernelTable(s.mem, s.root, path[..1][..0]) == Some(s.root);
    if |path| > 1 {
      assert path[..2][..1] == path[..1];
      assert path[..1] == [path[0]];
      NotGiant(s, path[0], path[1]);
    }
    assert path[..|path|] == path;
  }

  /** A 1 GiB entry of an owned L3 table is at the compared address. */
  lemma HugeIsKernel(s: State, n: Node, i: nat)
    requires Inv(s) && n in s.owned && |n.path| == 1 && i < 512 && Huge in EntryOf(s, n, i).flags
    ensures IsPath(n.path + [i]) && KernelSubtable(s.mem, s.root, n.path + [i]) == Some(EntryOf(s, n, i).addr)
  {
    ChildPath(s, n, i);
    assert KernelPage(s.mem, s.root, n.path, i, EntryOf(s, n, i));
    assert n.path[..0] == [];
    assert KernelTable(s.mem, s.root, n.path[..0]) == Some(s.root);
    var q := n.path + [i];
    assert q[0] == n.path[0] && q[1] == i;
  }

  // ---------------------------------------------------------------
  // The comparison addresses of the USER pass
  // ---------------------------------------------------------------

  /** As KernelSubtable, but following the kernel's L3 entry even when it maps a huge page. */
  function LooseSubtable(mem: Memory, root: nat, path: Path): Option<nat>
    requires path != []
    decreases |path|
  {
    var n := |path| - 1;
    var up := if n == 0 then Some(root) else LooseSubtable(mem, root, path[..n]);
    if up.None? || !IsTable(mem, up.value) || path[n] >= 512 || mem[up.value][path[n]] == UNUSED
       || (n == 2 && Huge in mem[up.value][path[n]].flags) then None
    else Some(mem[up.value][path[n]].addr)
  }

  lemma {:induction false} LooseGuards(s: State, path: Path)
    requires KernelOk(s) && path != [] && IsPath(path)
    ensures Guards(s, path, LooseSubtable(s.mem, s.root, path))
    ensures NoGiant(s) && LooseSubtable(s.mem, s.root, path).Some? ==> KernelTable(s.mem, s.root, path).Some?
    decreases |path|
  {
    var n := |path| - 1;
    if n == 0 {
      assert path[..n] == [];
    } else {
      LooseGuards(s, path[..n]);
      if n == 1 && NoGiant(s) {
        assert path[..1] == [path[0]];
        NotGiant(s, path[0], path[1]);
      }
    }
  }

  /** A step of a process does not move the kernel's tables. */
  lemma GuardsKept(s: State, s': State, p: nat, path: Path, cmp: Option<nat>)
    requires Inv(s) && Confined(s, s', p) && IsPath(path) && Guards(s, path, cmp)
    ensures Guards(s', path, cmp)
  {
    ConfinedIsolates(s, s', p);
    KernelSame(s, s'.mem, path);
    NoGiantKept(s, s', p);
  }
}

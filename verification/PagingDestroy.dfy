/** Which frames the destruction of an address space gives back. */
module PagingDestroy {
  import opened Options
  import opened PageTables
  import opened PagingSteps
  import opened PagingHooks
  import opened PagingDescent

  /** The address differs from the kernel's entry at the path, or from 0 where the kernel has none. */
  predicate Differs(a: nat, k: Option<nat>) {
    if k.Some? then a != k.value else a != 0
  }

  /** The owned table at n is given back: the kernel has a table above it and the addresses differ. */
  ghost predicate Freed(s: State, n: Node)
    requires n in s.owned && IsPath(n.path)
  {
    n.path == [] ||
    (KernelTable(s.mem, s.root, n.path[..|n.path| - 1]).Some?
     && Differs(s.owned[n], KernelSubtable(s.mem, s.root, n.path)))
  }

  predicate Under(n: Node, m: Node) {
    m.proc == n.proc && |n.path| < |m.path| && m.path[..|n.path|] == n.path
  }

  ghost function FreedUnder(s: State, n: Node): set<Node> {
    set m | m in s.owned && Under(n, m) && IsPath(m.path) && Freed(s, m)
  }

  /** Those reached through the first i entries of the table at n. */
  ghost function FreedUpto(s: State, n: Node, i: nat): set<Node> {
    set m | m in s.owned && Under(n, m) && m.path[|n.path|] < i && IsPath(m.path) && Freed(s, m)
  }

  ghost function FreedBy(s: State, p: nat): set<Node> {
    set m | m in s.owned && m.proc == p && IsPath(m.path) && Freed(s, m)
  }

  ghost function Frames(s: State, ns: set<Node>): set<nat> {
    set m | m in ns && m in s.owned :: s.owned[m]
  }

  // ---------------------------------------------------------------
  // Positions
  // ---------------------------------------------------------------

  lemma {:induction false} OwnedAbove(s: State, m: Node, d: nat)
    requires Inv(s) && m in s.owned && d <= |m.path|
    ensures Node(m.proc, m.path[..d]) in s.owned
    decreases |m.path|
  {
    if d == |m.path| {
      assert m.path[..d] == m.path;
    } else {
      var n := Node(m.proc, m.path[..|m.path| - 1]);
      assert Child(n, m.path[|m.path| - 1]).path == m.path;
      assert n.path[..d] == m.path[..d];
      OwnedAbove(s, n, d);
    }
  }

  lemma {:induction false} KernelAbove(mem: Memory, root: nat, q: Path, d: nat)
    requires KernelTable(mem, root, q).Some? && d <= |q|
    ensures KernelTable(mem, root, q[..d]).Some?
    decreases |q|
  {
    if d == |q| {
      assert q[..d] == q;
    } else {
      assert q[..|q| - 1][..d] == q[..d];
      KernelAbove(mem, root, q[..|q| - 1], d);
    }
  }

  lemma UnderChild(n: Node, i: nat, m: Node)
    ensures Under(n, m) && m.path[|n.path|] == i <==> m == Child(n, i) || Under(Child(n, i), m)
  {
    if Under(n, m) && m.path[|n.path|] == i {
      assert m.path[..|n.path| + 1] == n.path + [i];
      if |m.path| == |n.path| + 1 { assert m.path == m.path[..|n.path| + 1]; }
    }
    if m == Child(n, i) { assert m.path[..|n.path|] == n.path; }
    if Under(Child(n, i), m) { assert m.path[..|n.path|] == (n.path + [i])[..|n.path|]; }
  }

  /** Below a position that is not owned, or whose table the kernel lacks or shares, nothing is freed. */
  lemma NothingUnder(s: State, c: Node, m: Node)
    requires Inv(s) && m in s.owned && Under(c, m) && IsPath(c.path) && IsPath(m.path) && Freed(s, m)
    ensures c in s.owned && KernelTable(s.mem, s.root, c.path).Some?
    ensures KernelTable(s.mem, s.root, c.path) != Some(s.owned[c])
  {
    OwnedAbove(s, m, |c.path|);
    assert Node(m.proc, m.path[..|c.path|]) == c;
    var q := m.path[..|m.path| - 1];
    KernelAbove(s.mem, s.root, q, |c.path|);
    assert q[..|c.path|] == c.path;
  }

  // ---------------------------------------------------------------
  // One entry of the scan
  // ---------------------------------------------------------------

  /** The entry is skipped: it holds no table, or one at the compared address. */
  lemma ScanSkip(s: State, n: Node, i: nat)
    requires Inv(s) && n in s.owned && |n.path| < 3 && i < 512
    requires Child(n, i) in s.owned ==> !Differs(s.owned[Child(n, i)], KernelSubtable(s.mem, s.root, n.path + [i]))
    ensures FreedUpto(s, n, i + 1) == FreedUpto(s, n, i)
  {
    var c := Child(n, i);
    ChildPath(s, n, i);
    forall m | m in FreedUpto(s, n, i + 1) ensures m in FreedUpto(s, n, i) {
      if m.path[|n.path|] == i {
        UnderChild(n, i, m);
        if m != c {
          NothingUnder(s, c, m);
          SubtableIsTable(s.mem, s.root, c.path);
        }
        assert false;
      }
    }
  }

  /** The entry's table is given back, with everything freed under it. */
  lemma ScanTake(s: State, n: Node, i: nat)
    requires Inv(s) && n in s.owned && |n.path| < 3 && i < 512 && Child(n, i) in s.owned
    requires KernelTable(s.mem, s.root, n.path).Some?
    requires Differs(s.owned[Child(n, i)], KernelSubtable(s.mem, s.root, n.path + [i]))
    ensures FreedUpto(s, n, i + 1) == FreedUpto(s, n, i) + {Child(n, i)} + FreedUnder(s, Child(n, i))
    ensures Child(n, i) !in FreedUpto(s, n, i) + FreedUnder(s, Child(n, i))
    ensures FreedUpto(s, n, i) !! FreedUnder(s, Child(n, i))
  {
    var c := Child(n, i);
    ChildPath(s, n, i);
    assert c.path[..|c.path| - 1] == n.path;
    forall m: Node ensures Under(n, m) && m.path[|n.path|] == i <==> m == c || Under(c, m) {
      UnderChild(n, i, m);
    }
  }

  /** Nothing is freed under an L1 table, or where the kernel has no table. */
  lemma ScanBare(s: State, c: Node)
    requires Inv(s) && c in s.owned && (|c.path| == 3 || KernelTable(s.mem, s.root, c.path).None?)
    ensures FreedUnder(s, c) == {}
  {
    forall m | m in s.owned && Under(c, m) && IsPath(m.path) ensures !Freed(s, m) {
      if Freed(s, m) { NothingUnder(s, c, m); }
    }
  }

  lemma ScanDone(s: State, n: Node)
    requires Inv(s)
    ensures FreedUpto(s, n, 512) == FreedUnder(s, n)
    ensures FreedUpto(s, n, 0) == {}
  {
  }

  lemma FramesJoin(s: State, a: set<Node>, b: set<Node>)
    ensures Frames(s, a + b) == Frames(s, a) + Frames(s, b)
  {
  }

  lemma FramesApart(s: State, a: set<Node>, b: set<Node>)
    requires OwnedOk(s) && a !! b
    ensures Frames(s, a) !! Frames(s, b)
  {
  }

  lemma FramesOne(s: State, c: Node)
    requires c in s.owned
    ensures Frames(s, {c}) == {s.owned[c]}
  {
  }

  /** The kernel's entry decides the comparison address at the child position. */
  lemma SubtableEntry(mem: Memory, root: nat, path: Path, kt: nat, i: nat)
    requires |path| <= 2 && IsPath(path + [i]) && i < 512
    requires KernelTable(mem, root, path) == Some(kt) && IsTable(mem, kt)
    ensures KernelSubtable(mem, root, path + [i]) ==
            if mem[kt][i] == UNUSED || (|path| == 2 && Huge in mem[kt][i].flags) then None else Some(mem[kt][i].addr)
    ensures KernelTable(mem, root, path + [i]) == if Link(mem[kt][i]) then Some(mem[kt][i].addr) else None
  {
    var q := path + [i];
    assert q[..|path|] == path;
    if |path| > 0 {
      assert path[..1][..0] == [] && path[..|path|] == path;
      assert KernelTable(mem, root, path[..1][..0]) == Some(root);
      assert KernelTable(mem, root, path[..1]).Some?;
    }
  }

  // ---------------------------------------------------------------
  // The state afterwards
  // ---------------------------------------------------------------

  function Without(owned: map<Node, nat>, p: nat): map<Node, nat> {
    map n | n in owned && n.proc != p :: owned[n]
  }

  ghost function Destroyed(s: State, p: nat): State {
    s.(free := s.free + Frames(s, FreedBy(s, p)), owned := Without(s.owned, p))
  }

  lemma FreedByRoot(s: State, p: nat)
    requires Inv(s) && Node(p, []) in s.owned
    ensures FreedBy(s, p) == FreedUnder(s, Node(p, [])) + {Node(p, [])}
  {
    var r := Node(p, []);
    forall m | m in FreedBy(s, p) ensures m in FreedUnder(s, r) + {r} {
      assert m.path[..0] == [];
    }
  }

  /** No kernel frame and no frame of another process is given back, and the invariant holds afterwards. */
  lemma DestroyedOk(s: State, p: nat)
    requires Inv(s)
    ensures Inv(Destroyed(s, p))
    ensures Frames(s, FreedBy(s, p)) !! s.kernel + s.free
  {
    var s' := Destroyed(s, p);
    assert forall n: Node, i: nat | n.proc != p :: EntryOf(s', n, i) == EntryOf(s, n, i);
    forall n, i: nat | n in s'.owned && |n.path| < 3 && Link(EntryOf(s', n, i))
      ensures TableAt(s', Child(n, i), EntryOf(s', n, i).addr)
    {
      assert TableAt(s, Child(n, i), EntryOf(s, n, i).addr);
    }
  }

  // ---------------------------------------------------------------
  // When nothing leaks
  // ---------------------------------------------------------------

  ghost function Positions(s: State, p: nat): set<Node> {
    set n | n in s.owned && n.proc == p
  }

  ghost predicate HasOwnedChild(s: State, n: Node) {
    exists i: nat :: Child(n, i) in s.owned
  }

  /** The kernel's entry for the table at a path below the root. */
  function KernelAt(s: State, path: Path): Entry
    requires path != []
  {
    KernelEntry(s.mem, s.root, path[..|path| - 1], path[|path| - 1])
  }

  /**
   The comparison takes the owned table for the kernel's: it lies at address 0 where the kernel has no entry to
   compare with, or at the address of the kernel's 1 GiB page.
   */
  ghost predicate Mistaken(s: State, n: Node)
    requires n in s.owned && n.path != []
  {
    var e := KernelAt(s, n.path);
    if e == UNUSED || (|n.path| == 3 && Huge in e.flags) then s.owned[n] == 0
    else |n.path| == 2 && Huge in e.flags && s.owned[n] == e.addr
  }

  ghost predicate KernelAboveAll(s: State, p: nat) {
    forall n | n in s.owned && n.proc == p && HasOwnedChild(s, n) :: KernelTable(s.mem, s.root, n.path).Some?
  }

  ghost predicate NoneMistaken(s: State, p: nat) {
    forall n | n in s.owned && n.proc == p && n.path != [] :: !Mistaken(s, n)
  }

  /** Below a kernel table, an owned table is given back exactly when it is not mistaken. */
  lemma FreedIffNotMistaken(s: State, n: Node)
    requires Inv(s) && n in s.owned && n.path != [] && KernelTable(s.mem, s.root, n.path[..|n.path| - 1]).Some?
    ensures Freed(s, n) <==> !Mistaken(s, n)
  {
    var d := |n.path| - 1;
    var q, i := n.path[..d], n.path[d];
    assert n.path == q + [i];
    var kt := KernelTable(s.mem, s.root, q).value;
    assert kt in s.kernel;
    SubtableEntry(s.mem, s.root, q, kt, i);
    var e := s.mem[kt][i];
    if Link(e) { KernelChild(s, q, i); }
    if d == 0 { assert q == []; }
  }

  /**
   Destroying an address space gives back all of its tables exactly when the kernel has a table at every position
   where the process has a table below, and no table is mistaken for the kernel's.
   */
  lemma DestroyFreesAllIff(s: State, p: nat)
    requires Inv(s)
    ensures FreedBy(s, p) == Positions(s, p) <==> KernelAboveAll(s, p) && NoneMistaken(s, p)
  {
    if KernelAboveAll(s, p) && NoneMistaken(s, p) {
      forall n | n in s.owned && n.proc == p ensures Freed(s, n) {
        if n.path != [] {
          var d := |n.path| - 1;
          var m := Node(p, n.path[..d]);
          OwnedAbove(s, n, d);
          assert n.path == m.path + [n.path[d]];
          assert Child(m, n.path[d]) == n;
          FreedIffNotMistaken(s, n);
        }
      }
    }
    if FreedBy(s, p) == Positions(s, p) {
      forall n | n in s.owned && n.proc == p && HasOwnedChild(s, n) ensures KernelTable(s.mem, s.root, n.path).Some? {
        var i: nat :| Child(n, i) in s.owned;
        assert Child(n, i) in FreedBy(s, p) by { assert Child(n, i) in Positions(s, p); }
        assert Child(n, i).path[..|n.path|] == n.path;
      }
      forall n | n in s.owned && n.proc == p && n.path != [] ensures !Mistaken(s, n) {
        assert n in Positions(s, p);
        FreedIffNotMistaken(s, n);
      }
    }
  }

  /** A page mapped under an unused L4 entry of the kernel leaks its L2 and L1 tables. */
  lemma LeaksBelowUnused(s: State, p: nat, page: seq<nat>)
    requires Inv(s) && IsPage(page) && Node(p, page[..3]) in s.owned && s.mem[s.root][page[0]] == UNUSED
    ensures Node(p, page[..2]) in s.owned && s.owned[Node(p, page[..2])] != s.owned[Node(p, page[..3])]
    ensures s.owned[Node(p, page[..2])] !in s.free + Destroyed(s, p).free + s.kernel
    ensures s.owned[Node(p, page[..3])] !in s.free + Destroyed(s, p).free + s.kernel
  {
    var l1 := Node(p, page[..3]);
    OwnedAbove(s, l1, 2);
    assert page[..3][..2] == page[..2] && page[..2][..1] == page[..1] && page[..1][..0] == [];
    assert KernelTable(s.mem, s.root, page[..1]).None?;
    assert KernelTable(s.mem, s.root, page[..2]).None?;
    NotGivenBack(s, p, Node(p, page[..2]));
    NotGivenBack(s, p, l1);
    assert |page[..2]| != |page[..3]|;
  }

  lemma NotGivenBack(s: State, p: nat, n: Node)
    requires Inv(s) && n in s.owned && n.proc == p && !Freed(s, n)
    ensures s.owned[n] !in s.free + Destroyed(s, p).free + s.kernel
  {
    assert n !in FreedBy(s, p);
    forall m | m in FreedBy(s, p) && m in s.owned ensures s.owned[m] != s.owned[n] {}
  }
}

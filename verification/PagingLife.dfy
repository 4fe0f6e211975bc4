/** Creating and destroying address spaces, and what whole runs keep. */
module PagingLife {
  import opened PageTables
  import opened PagingSteps
  import opened PagingHooks

  // ---------------------------------------------------------------
  // Create
  // ---------------------------------------------------------------

  function Rooted(s: State, f: nat): State {
    s.(owned := s.owned[Node(f, []) := f])
  }

  /** A free frame becomes the root of a new process, with the kernel's L4 entries. */
  function Created(s: State, f: nat): State
    requires s.root in s.mem
  {
    Rooted(Fill(Take(s, f), f, s.mem[s.root]), f)
  }

  lemma NoPositions(s: State, f: nat, path: Path)
    requires Inv(s) && (forall n | n in s.owned :: s.owned[n] != f)
    ensures Node(f, path) !in s.owned
  {
    if Node(f, path) in s.owned { RootOwned(s, Node(f, path)); }
  }

  lemma RootedSharing(s: State, f: nat)
    requires Inv(s) && Fresh(s, f) && s.mem[f] == s.mem[s.root]
    ensures SharingOk(Rooted(s, f))
  {
    var s', root := Rooted(s, f), Node(f, []);
    forall n, i: nat | n in s'.owned && |n.path| < 3 && Link(EntryOf(s', n, i))
      ensures TableAt(s', Child(n, i), EntryOf(s', n, i).addr)
    {
      assert Child(n, i) != root;
      if n == root {
        NoPositions(s, f, [i]);
        assert [] + [i] == [i];
        KernelChild(s, [], i);
      } else {
        assert EntryOf(s', n, i) == EntryOf(s, n, i);
        assert TableAt(s, Child(n, i), EntryOf(s, n, i).addr);
      }
    }
  }

  lemma RootedAttached(s: State, f: nat)
    requires Inv(s) && Fresh(s, f)
    ensures AttachedOk(Rooted(s, f))
  {
    var s', root := Rooted(s, f), Node(f, []);
    forall n, i: nat | Child(n, i) in s'.owned
      ensures n in s'.owned && Link(EntryOf(s', n, i)) && EntryOf(s', n, i).addr == s'.owned[Child(n, i)]
    {
      assert Child(n, i) != root;
      assert n != root by { NoPositions(s, f, [i]); assert [] + [i] == [i]; }
    }
  }

  lemma AddRoot(s: State, f: nat)
    requires Inv(s) && Fresh(s, f) && s.mem[f] == s.mem[s.root]
    ensures Inv(Rooted(s, f))
  {
    RootedSharing(s, f);
    RootedAttached(s, f);
    RootedRest(s, f);
  }

  lemma RootedRest(s: State, f: nat)
    requires Inv(s) && Fresh(s, f) && s.mem[f] == s.mem[s.root]
    ensures OwnedOk(Rooted(s, f)) && RootsOk(Rooted(s, f)) && HugeOk(Rooted(s, f))
  {
    var s', root := Rooted(s, f), Node(f, []);
    assert forall n, i: nat | n != root :: EntryOf(s', n, i) == EntryOf(s, n, i);
    NoPositions(s, f, []);
    HugeKept(s, s');
  }

  lemma CreatedOk(s: State, f: nat)
    requires Inv(s) && f in s.free
    ensures Inv(Created(s, f))
    ensures forall t | t in s.kernel :: t in Created(s, f).mem && Created(s, f).mem[t] == s.mem[t]
  {
    TakeOk(s, f);
    FillOk(Take(s, f), f, s.mem[s.root]);
    AddRoot(Fill(Take(s, f), f, s.mem[s.root]), f);
  }

  /** Below the L4, the tables of a new process are the kernel's. */
  lemma CreatedBelow(s: State, f: nat, page: seq<nat>)
    requires Inv(s) && f in s.free && IsPage(page) && Link(s.mem[s.root][page[0]])
    ensures Walk(Created(s, f).mem, s.mem[s.root][page[0]].addr, 1, page)
              == Walk(s.mem, s.mem[s.root][page[0]].addr, 1, page)
  {
    var s1 := Take(s, f);
    TakeOk(s, f);
    FillOk(s1, f, s.mem[s.root]);
    var c := Node(f, [page[0]]);
    NoPositions(s, f, [page[0]]);
    assert [] + [page[0]] == [page[0]];
    KernelChild(s, [], page[0]);
    WalkAgrees(s1, Created(s, f).mem, c, s.mem[s.root][page[0]].addr, page);
  }

  /** A new process sees exactly what the kernel's tables map. */
  lemma CreatedSeesKernel(s: State, f: nat, page: seq<nat>)
    requires Inv(s) && f in s.free && IsPage(page)
    ensures Trans(Created(s, f), f, page) == Walk(s.mem, s.root, 0, page)
  {
    if Link(s.mem[s.root][page[0]]) { CreatedBelow(s, f, page); }
    WalkSame(s.mem, Created(s, f).mem, s.root, f, 0, page);
  }

  /** Creating a process changes nothing for any other. */
  lemma CreatedOthers(s: State, f: nat, other: nat, page: seq<nat>)
    requires Inv(s) && f in s.free && Node(other, []) in s.owned && IsPage(page)
    ensures Trans(Created(s, f), other, page) == Trans(s, other, page)
  {
    TakeOk(s, f);
    FillOk(Take(s, f), f, s.mem[s.root]);
    WalkAgrees(Take(s, f), Created(s, f).mem, Node(other, []), other, page);
  }
}

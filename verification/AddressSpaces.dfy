/** The paging code itself: physical memory, the frame allocator's free set, and the operations. */
module AddressSpaces {
  import opened Options
  import opened PageTables
  import opened PagingSteps
  import opened PagingHooks
  import opened PagingMap
  import opened PagingDescent
  import opened PagingRange
  import opened PagingLife
  import opened PagingDestroy
  import opened PagingUser
  import opened PagingElf
  import opened PagingUnmap

  /** base + j * size with the same flags, for the first k entries. */
  ghost predicate Pieces(t: Table, k: nat, base: nat, size: nat, flags: set<Flag>) {
    |t| == 512 && k <= 512 && forall j | 0 <= j < k :: t[j] == Entry(base + j * size, flags)
  }

  /** Anonymous pages are never executable, and writable on request. */
  function LeafFlags(writable: bool): set<Flag> {
    if writable then {Present, User, NoExecute, Writable} else {Present, User, NoExecute}
  }

  /** User code reaches the page, can write it exactly if asked for, and can never run it. */
  ghost predicate AnonymousPage(s: State, p: nat, page: seq<nat>, writable: bool)
    requires IsPage(page)
  {
    var w := Trans(s, p, page);
    && w.Some? && Present in w.value.flags && User in w.value.flags && NoExecute in w.value.flags && w.value.path
    && (Writable in w.value.flags <==> writable) && w.value.write
  }

  lemma AnonymousLeaf(s: State, p: nat, start: nat, frames: seq<nat>, writable: bool, j: nat)
    requires InsideMapped(s, p, start, frames, LeafFlags(writable)) && j < |frames|
    ensures AnonymousPage(s, p, PageAt(start, j), writable)
  {
    assert RangePage(start, |frames|, PageAt(start, j));
    var i := LastIndex(start, |frames|, PageAt(start, j));
    assert Trans(s, p, PageAt(start, i)) == Some(Leaf(frames[i], LeafFlags(writable), true, true, 3));
  }

  lemma AnonymousRange(s: State, p: nat, start: nat, frames: seq<nat>, writable: bool)
    requires InsideMapped(s, p, start, frames, LeafFlags(writable)) == true
    ensures forall j: nat | j < |frames| :: AnonymousPage(s, p, PageAt(start, j), writable)
  {
    forall j: nat | j < |frames| ensures AnonymousPage(s, p, PageAt(start, j), writable) == true {
      AnonymousLeaf(s, p, start, frames, writable, j);
    }
  }

  /** The outcome of one level: go on with a table, leave the page alone, or panic. */
  datatype Visit = Table(addr: nat) | Skip | Panic

  /** After one level of the walk: a leaf is reached, or the path goes on in the table found. */
  lemma UserStepped(s: State, p: nat, page: seq<nat>, d: nat, r: Visit)
    requires Inv(s) && IsPage(page) && d < 3 && PathFlags(s, p, page, d, {User})
    requires r.Skip? ==> MarkedLeaf(d, EntryOf(s, At(p, page, d), page[d]))
    requires r.Table? ==> Child(At(p, page, d), page[d]) in s.owned
    requires r.Table? ==> s.owned[Child(At(p, page, d), page[d])] == r.addr
    requires r.Table? ==> User in EntryOf(s, At(p, page, d), page[d]).flags
    ensures r.Skip? ==> Reached(Trans(s, p, page))
    ensures r.Table? ==> PathFlags(s, p, page, d + 1, {User}) && s.owned[At(p, page, d + 1)] == r.addr
  {
    assert |At(p, page, d).path| == d;
    if r.Skip? {
      ReachedLeaf(s, At(p, page, d), page);
      PathReached(s, p, page, d);
    } else if r.Table? {
      PathFlagsNext(s, p, page, d, {User});
    }
  }

  class PagingState {
    var mem: Memory
    var free: set<nat>
    const root: nat
    ghost const kernel: set<nat>
    ghost var owned: map<Node, nat>

    ghost function View(): State
      reads this
    {
      State(mem, free, root, kernel, owned)
    }

    ghost predicate Valid()
      reads this
    {
      Inv(View())
    }

    /** Boot: the kernel's tables are set up and no process exists. */
    constructor (mem: Memory, free: set<nat>, root: nat, ghost kernel: set<nat>)
      requires MemoryOk(State(mem, free, root, kernel, map[])) && KernelOk(State(mem, free, root, kernel, map[]))
      ensures Valid() && this.mem == mem && this.free == free && this.root == root && this.kernel == kernel
      ensures owned == map[]
    {
      this.mem, this.free, this.root, this.kernel, this.owned := mem, free, root, kernel, map[];
    }

    // -------------------------------------------------------------
    // Frames
    // -------------------------------------------------------------

    method AllocateFrame() returns (r: Option<nat>)
      modifies `free
      ensures r.Some? ==> |old(free)| == |free| + 1
      ensures r.None? <==> old(free) == {}
      ensures r.None? ==> free == old(free)
      ensures r.Some? ==> r.value in old(free) && free == old(free) - {r.value}
    {
      if free == {} { return None; }
      var f :| f in free;
      free := free - {f};
      r := Some(f);
    }

    method ClearFrame(f: nat)
      requires IsTable(mem, f)
      modifies `mem
      ensures mem == old(mem)[f := ZERO_TABLE]
    {
      for i := 0 to 512
        invariant mem.Keys == old(mem.Keys) && |mem[f]| == 512
        invariant forall g | g in mem && g != f :: mem[g] == old(mem)[g]
        invariant forall j | 0 <= j < i :: mem[f][j] == UNUSED
      {
        mem := mem[f := mem[f][i := UNUSED]];
      }
      assert mem[f] == ZERO_TABLE;
    }

    method CopyTable(src: nat, dst: nat)
      requires IsTable(mem, src) && IsTable(mem, dst) && src != dst
      modifies `mem
      ensures mem == old(mem)[dst := old(mem)[src]]
    {
      for i := 0 to 512
        invariant mem.Keys == old(mem.Keys) && |mem[dst]| == 512
        invariant forall g | g in mem && g != dst :: mem[g] == old(mem)[g]
        invariant forall j | 0 <= j < i :: mem[dst][j] == old(mem)[src][j]
      {
        if mem[src][i] != UNUSED {
          mem := mem[dst := mem[dst][i := Entry(mem[src][i].addr, mem[src][i].flags)]];
        } else {
          mem := mem[dst := mem[dst][i := UNUSED]];
        }
      }
      assert mem[dst] == old(mem)[src];
    }

    method FillPieces(f: nat, base: nat, size: nat, flags: set<Flag>)
      requires IsTable(mem, f)
      modifies `mem
      ensures f in mem && Pieces(mem[f], 512, base, size, flags) && mem == old(mem)[f := mem[f]]
    {
      for i := 0 to 512
        invariant mem.Keys == old(mem.Keys)
        invariant forall g | g in mem && g != f :: mem[g] == old(mem)[g]
        invariant Pieces(mem[f], i, base, size, flags)
      {
        mem := mem[f := mem[f][i := Entry(base + i * size, flags)]];
      }
    }

    method AllocZeroedFrame() returns (r: Option<nat>)
      requires MemoryOk(View())
      modifies `mem, `free
      ensures r.Some? ==> |old(free)| == |free| + 1
      ensures r.None? <==> old(free) == {}
      ensures r.None? ==> mem == old(mem) && free == old(free)
      ensures r.Some? ==> r.value in old(free) && free == old(free) - {r.value}
                          && mem == old(mem)[r.value := ZERO_TABLE]
    {
      r := AllocateFrame();
      if r.Some? { ClearFrame(r.value); }
    }

    method ForkPageTable(src: nat) returns (r: Option<nat>)
      requires MemoryOk(View()) && IsTable(mem, src) && src !in free
      modifies `mem, `free
      ensures r.Some? ==> |old(free)| == |free| + 1
      ensures r.None? <==> old(free) == {}
      ensures r.None? ==> mem == old(mem) && free == old(free)
      ensures r.Some? ==> r.value in old(free) && free == old(free) - {r.value}
                          && mem == old(mem)[r.value := old(mem)[src]]
    {
      r := AllocateFrame();
      if r.Some? { CopyTable(src, r.value); }
    }

    /** A new table of the pieces of the huge page h found at the given depth. */
    method AllocPieces(h: Entry, depth: nat) returns (r: Option<nat>, ghost t: Table)
      requires MemoryOk(View())
      modifies `mem, `free
      ensures r.Some? ==> |old(free)| == |free| + 1
      ensures r.None? <==> old(free) == {}
      ensures r.None? ==> mem == old(mem) && free == old(free)
      ensures r.Some? ==> r.value in old(free) && free == old(free) - {r.value}
                          && IsSplit(depth, h, t) && mem == old(mem)[r.value := t]
    {
      t := [];
      r := AllocZeroedFrame();
      if r.Some? {
        FillPieces(r.value, h.addr, PieceSize(depth), PieceFlags(depth, h.flags));
        t := mem[r.value];
      }
    }

    // -------------------------------------------------------------
    // One level of descent
    // -------------------------------------------------------------

    method NewTable(ghost n: Node, g: nat, i: nat) returns (r: Option<nat>)
      requires Valid() && n in owned && owned[n] == g && |n.path| < 3 && i < 512 && mem[g][i] == UNUSED
      modifies this
      ensures |old(free)| <= |free| + 1
      ensures r.None? ==> free == {}
      ensures Descent(old(View()), View(), n, i)
      ensures r.Some? ==> Leads(View(), n, i, r.value, INTERMEDIATE)
    {
      ghost var s := View();
      r := AllocZeroedFrame();
      if r.None? { DescentRefl(s, n, i); return; }
      HookIn(s, n, g, i, Entry(r.value, INTERMEDIATE), ZERO_TABLE);
      NewStep(s, View(), n, i, Entry(r.value, INTERMEDIATE));
    }

    /** Writes the entry that leads to the new table; its frame has been taken from s and filled with t. */
    method HookIn(ghost s: State, ghost n: Node, g: nat, i: nat, e: Entry, ghost t: Table)
      requires n in s.owned && s.owned[n] == g && IsTable(s.mem, g) && g != e.addr && i < 512
      requires View() == Fill(Take(s, e.addr), e.addr, t)
      modifies `mem, `owned
      ensures View() == Hook(s, n, i, e, t)
    {
      mem := mem[g := mem[g][i := e]];
      owned := owned[Child(n, i) := e.addr];
    }

    method ForkTable(ghost n: Node, g: nat, i: nat, extra: set<Flag>) returns (r: Option<nat>)
      requires Valid() && n in owned && owned[n] == g && |n.path| < 3 && i < 512 && Link(mem[g][i])
      requires Huge !in extra && User in mem[g][i].flags + extra
      requires NoGiant(View()) ==> Child(n, i) !in owned
      modifies this
      ensures |old(free)| <= |free| + 1
      ensures r.None? ==> free == {}
      ensures Descent(old(View()), View(), n, i)
      ensures r.Some? ==> Leads(View(), n, i, r.value, extra)
    {
      ghost var s := View();
      LinkReal(s, n, i);
      r := ForkPageTable(mem[g][i].addr);
      if r.None? { DescentRefl(s, n, i); return; }
      ghost var e := Entry(r.value, s.mem[g][i].flags + extra);
      assert Link(e) by { assert Present in e.flags by { assert EntryOk(EntryOf(s, n, i)); } }
      HookIn(s, n, g, i, Entry(r.value, mem[g][i].flags + extra), s.mem[EntryOf(s, n, i).addr]);
      ForkStep(s, View(), n, i, e);
    }

    method SplitHugePage(ghost n: Node, g: nat, i: nat, depth: nat) returns (r: Option<nat>)
      requires Valid() && n in owned && owned[n] == g && depth == |n.path| && 1 <= depth < 3 && i < 512
      requires mem[g][i] != UNUSED && Huge in mem[g][i].flags
      modifies this
      ensures |old(free)| <= |free| + 1
      ensures r.None? ==> free == {}
      ensures Descent(old(View()), View(), n, i)
      ensures r.Some? ==> Link(EntryOf(View(), n, i))
      ensures r.Some? ==> EntryOf(View(), n, i).flags == SplitFlags(depth, old(mem[g][i].flags))
    {
      ghost var s, t := View(), ZERO_TABLE;
      var h := mem[g][i];
      r, t := AllocPieces(h, depth);
      if r.None? { DescentRefl(s, n, i); return; }
      ghost var e := Entry(r.value, SplitFlags(depth, h.flags));
      HookIn(s, n, g, i, Entry(r.value, SplitFlags(depth, h.flags)), t);
      SplitStep(s, View(), n, i, e, t);
    }

    method AddFlags(ghost n: Node, g: nat, i: nat, cmp: Option<nat>) returns (r: nat)
      requires Valid() && n in owned && owned[n] == g && |n.path| < 3 && i < 512 && Link(mem[g][i])
      requires Guards(View(), n.path + [i], cmp) && cmp != Some(mem[g][i].addr)
      modifies `mem
      ensures Descent(old(View()), View(), n, i)
      ensures Leads(View(), n, i, r, INTERMEDIATE)
    {
      ghost var s := View();
      r := mem[g][i].addr;
      var e := Entry(r, mem[g][i].flags + INTERMEDIATE);
      FlagsStep(s, n, i, e, cmp);
      mem := mem[g := mem[g][i := e]];
      assert View() == Rewrite(s, n, i, e);
    }

    /** Makes entry i of the process's table g lead to a table of its own. */
    method Descend(ghost n: Node, g: nat, path: Path, i: nat) returns (r: Option<nat>)
      requires Valid() && n in owned && owned[n] == g && n.path == path && |path| < 3 && i < 512
      modifies this
      ensures |old(free)| <= |free| + 2
      ensures r.None? ==> free == {}
      ensures Descent(old(View()), View(), n, i)
      ensures r.Some? ==> Leads(View(), n, i, r.value, INTERMEDIATE)
    {
      ghost var s := View();
      if mem[g][i] == UNUSED {
        r := NewTable(n, g, i);
        return;
      }
      if |path| > 0 && Huge in mem[g][i].flags {
        r := SplitHugePage(n, g, i, |path|);
        if r.None? { return; }
      } else {
        assert EntryOf(s, n, i) == mem[g][i];
        DescentRefl(s, n, i);
      }
      ghost var s1 := View();
      r := ForkOrMark(n, g, path, i);
      DescentTrans(s, s1, View(), n, i);
    }

    /** Forks the table the entry leads to if it is the kernel's, else adds the flags. */
    method ForkOrMark(ghost n: Node, g: nat, path: Path, i: nat) returns (r: Option<nat>)
      requires Valid() && n in owned && owned[n] == g && n.path == path && |path| < 3 && i < 512 && Link(mem[g][i])
      modifies this
      ensures |old(free)| <= |free| + 1
      ensures r.None? ==> free == {}
      ensures Descent(old(View()), View(), n, i)
      ensures r.Some? ==> Leads(View(), n, i, r.value, INTERMEDIATE)
    {
      ghost var s := View();
      ChildPath(s, n, i);
      var cmp := KernelSubtable(mem, root, path + [i]);
      SubtableGuards(s, path + [i]);
      if cmp == Some(mem[g][i].addr) {
        NotOwned(s, n, i, cmp);
        r := ForkTable(n, g, i, INTERMEDIATE);
      } else {
        var a := AddFlags(n, g, i, cmp);
        r := Some(a);
      }
    }

    /** The L2 table of the page, owned by the process, with USER on the path. */
    method DescendToL2(p: nat, page: seq<nat>) returns (r: Option<nat>)
      requires Valid() && Node(p, []) in owned && IsPage(page)
      modifies this
      ensures |old(free)| <= |free| + 4
      ensures r.None? ==> free == {}
      ensures Quiet(old(View()), View(), p)
      ensures r.Some? ==> Node(p, page[..2]) in owned && owned[Node(p, page[..2])] == r.value
      ensures r.Some? ==> Node(p, page[..0]) in owned
                          && {User, Writable} <= EntryOf(View(), Node(p, page[..0]), page[0]).flags
      ensures r.Some? ==> Node(p, page[..1]) in owned
                          && {User, Writable} <= EntryOf(View(), Node(p, page[..1]), page[1]).flags
    {
      assert page[..0] == [] && page[..1] == page[..0] + [page[0]] && page[..2] == page[..1] + [page[1]];
      ghost var s0, n0, n1 := View(), Node(p, page[..0]), Node(p, page[..1]);
      r := Descend(n0, p, [], page[0]);
      ghost var s1 := View();
      if r.None? { return; }
      assert Child(n0, page[0]) == n1;
      r := Descend(n1, r.value, [page[0]], page[1]);
      QuietTrans(s0, s1, View(), p);
      if r.None? { return; }
      LocalKeepsEntry(s1, View(), n1, page[1], n0, page[0]);
      assert Child(n1, page[1]) == Node(p, page[..2]);
    }

    /** The L1 table of the page, owned by the process, with USER on the whole path. */
    method DescendToL1(p: nat, page: seq<nat>) returns (r: Option<nat>)
      requires Valid() && Node(p, []) in owned && IsPage(page)
      modifies this
      ensures |old(free)| <= |free| + 6
      ensures r.None? ==> free == {}
      ensures Quiet(old(View()), View(), p)
      ensures r.Some? ==> Node(p, page[..3]) in owned && owned[Node(p, page[..3])] == r.value
      ensures r.Some? ==> OpenAbove(View(), p, page)
    {
      assert page[..2] == [page[0], page[1]] && page[..3] == page[..2] + [page[2]];
      ghost var s0, n2 := View(), Node(p, page[..2]);
      r := DescendToL2(p, page);
      ghost var s2 := View();
      if r.None? { return; }
      r := Descend(n2, r.value, [page[0], page[1]], page[2]);
      QuietTrans(s0, s2, View(), p);
      if r.None? { return; }
      LocalKeepsEntry(s2, View(), n2, page[2], Node(p, page[..0]), page[0]);
      LocalKeepsEntry(s2, View(), n2, page[2], Node(p, page[..1]), page[1]);
      assert Child(n2, page[2]) == Node(p, page[..3]);
    }

    /** Writes a fresh zeroed frame into the page's entry of its L1 table. */
    method MapLeaf(p: nat, page: seq<nat>, l1: nat, leaf: set<Flag>) returns (r: Option<nat>)
      requires Valid() && IsPage(page) && Node(p, page[..3]) in owned && owned[Node(p, page[..3])] == l1
      requires OpenAbove(View(), p, page) && Present in leaf
      modifies `mem, `free
      ensures |old(free)| <= |free| + 1
      ensures r.None? ==> free == {}
      ensures r.None? ==> View() == old(View())
      ensures r.Some? ==> PageMapped(old(View()), View(), p, page, r.value, leaf)
    {
      ghost var s := View();
      r := AllocZeroedFrame();
      if r.None? { return; }
      WriteLeaf(s, p, page, l1, Entry(r.value, leaf));
    }

    /** The second half: the frame of e has been taken from s and zeroed. */
    method WriteLeaf(ghost s: State, p: nat, page: seq<nat>, l1: nat, e: Entry)
      requires Inv(s) && IsPage(page) && Node(p, page[..3]) in s.owned && s.owned[Node(p, page[..3])] == l1
      requires OpenAbove(s, p, page) && Present in e.flags && e.addr in s.free
      requires View() == WithFrame(s, e.addr, ZERO_TABLE)
      modifies `mem
      ensures PageMapped(s, View(), p, page, e.addr, e.flags)
    {
      WriteEntry(Node(p, page[..3]), l1, page[3], e);
      MapStep(s, View(), p, page, e, ZERO_TABLE);
    }

    /** Writes one entry of an owned table. */
    method WriteEntry(ghost n: Node, g: nat, i: nat, e: Entry)
      requires n in owned && owned[n] == g && IsTable(mem, g) && i < 512
      modifies `mem
      ensures View() == Rewrite(old(View()), n, i, e)
    {
      mem := mem[g := mem[g][i := e]];
    }

    /** Maps one page to a fresh zeroed frame. */
    method MapPage(p: nat, page: seq<nat>, leaf: set<Flag>) returns (r: Option<nat>)
      requires Valid() && Node(p, []) in owned && IsPage(page) && Present in leaf
      modifies this
      ensures |old(free)| <= |free| + 7
      ensures r.None? ==> free == {}
      ensures r.None? ==> Quiet(old(View()), View(), p)
      ensures r.Some? ==> PageMapped(old(View()), View(), p, page, r.value, leaf)
    {
      ghost var s := View();
      var l1 := DescendToL1(p, page);
      if l1.None? { return None; }
      ghost var s1 := View();
      r := MapLeaf(p, page, l1.value, leaf);
      if r.Some? { QuietMapped(s, s1, View(), p, page, r.value, leaf); }
    }

    /** Maps count pages from start to fresh zeroed frames; None is the panic when frames run out. */
    method MapAnonymousPages(p: nat, start: nat, count: nat, writable: bool) returns (r: Option<seq<nat>>)
      requires Valid() && Node(p, []) in owned
      modifies this
      ensures |old(free)| <= |free| + 7 * count
      ensures r.Some? ==> |r.value| == count && RangeMapped(old(View()), View(), p, start, r.value, LeafFlags(writable))
      ensures r.Some? ==> forall j: nat | j < count :: AnonymousPage(View(), p, PageAt(start, j), writable)
      ensures r.None? ==> free == {} && Inv(View()) && Confined(old(View()), View(), p)
      ensures r.None? ==> OutsideSame(old(View()), View(), p, start, count)
    {
      var leaf := {Present, User, NoExecute};
      if writable { leaf := leaf + {Writable}; }
      assert leaf == LeafFlags(writable);
      ghost var s := View();
      var frames := [];
      RangeEmpty(s, p, start, leaf);
      for i := 0 to count
        invariant |frames| == i && |s.free| <= |free| + 7 * i
        invariant RangeMapped(s, View(), p, start, frames, leaf) == true
      {
        ghost var s1 := View();
        var f := MapPage(p, PageAt(start, i), leaf);
        if f.None? {
          QuietOutside(s, s1, View(), p, start, i, count);
          return None;
        }
        RangeGrow(s, s1, View(), p, start, frames, leaf, f.value);
        frames := frames + [f.value];
      }
      AnonymousRange(View(), p, start, frames, writable);
      r := Some(frames);
    }

    // -------------------------------------------------------------
    // Create and destroy
    // -------------------------------------------------------------

    /** A new address space that shares all of the kernel's tables below its own L4. */
    method CreateProcessPageTable() returns (r: Option<nat>)
      requires Valid()
      modifies this
      ensures r.None? ==> free == {} && View() == old(View())
      ensures r.Some? ==> r.value in old(free) && View() == Created(old(View()), r.value) && Valid()
    {
      ghost var s := View();
      r := AllocZeroedFrame();
      if r.None? { return; }
      var f := r.value;
      for i := 0 to 512
        invariant free == s.free - {f} && owned == s.owned && mem.Keys == s.mem.Keys && |mem[f]| == 512
        invariant forall g | g in mem && g != f :: mem[g] == s.mem[g]
        invariant forall j | 0 <= j < 512 :: mem[f][j] == if j < i then s.mem[root][j] else UNUSED
      {
        if mem[root][i] != UNUSED {
          mem := mem[f := mem[f][i := Entry(mem[root][i].addr, mem[root][i].flags)]];
        }
      }
      assert mem[f] == s.mem[root];
      assert mem == s.mem[f := s.mem[root]];
      owned := owned[Node(f, []) := f];
      assert View() == Created(s, f);
      CreatedOk(s, f);
    }

    /** Giving a frame back: it must be a frame in use that is not part of a kernel table. */
    method DeallocateFrame(f: nat)
      requires f in mem && f !in free && f !in kernel
      modifies `free
      ensures free == old(free) + {f}
    {
      free := free + {f};
    }

    /** Scans the process's table g beside the kernel's table kt at the same path. */
    method Reclaim(ghost s: State, ghost n: Node, g: nat, kt: nat, path: Path)
      requires Inv(s) && mem == s.mem && root == s.root && kernel == s.kernel
      requires n in s.owned && s.owned[n] == g && n.path == path && |path| <= 2
      requires KernelTable(mem, root, path) == Some(kt)
      requires free !! Frames(s, FreedUnder(s, n))
      modifies `free
      ensures free == old(free) + Frames(s, FreedUnder(s, n))
      decreases 3 - |path|
    {
      ScanDone(s, n);
      for i := 0 to 512
        invariant free == old(free) + Frames(s, FreedUpto(s, n, i))
      {
        ReclaimEntry(s, n, g, kt, path, i);
      }
    }

    method ReclaimEntry(ghost s: State, ghost n: Node, g: nat, kt: nat, path: Path, i: nat)
      requires Inv(s) && mem == s.mem && root == s.root && kernel == s.kernel
      requires n in s.owned && s.owned[n] == g && n.path == path && |path| <= 2 && i < 512
      requires KernelTable(mem, root, path) == Some(kt)
      requires free !! Frames(s, FreedUnder(s, n) - FreedUpto(s, n, i))
      modifies `free
      ensures free == old(free) + Frames(s, FreedUpto(s, n, i + 1) - FreedUpto(s, n, i))
      decreases 3 - |path|, 0
    {
      ghost var c := Child(n, i);
      ChildPath(s, n, i);
      assert kt in s.kernel;
      SubtableEntry(mem, root, path, kt, i);
      var e, ke := mem[g][i], mem[kt][i];
      assert EntryOf(s, n, i) == e;
      if e == UNUSED || Huge in e.flags {
        ScanSkip(s, n, i);
        return;
      }
      var other := if ke == UNUSED || (|path| == 2 && Huge in ke.flags) then 0 else ke.addr;
      if e.addr == other {
        ScanSkip(s, n, i);
        return;
      }
      SubtableGuards(s, path + [i]);
      NotKernel(s, n, i, KernelSubtable(mem, root, path + [i]));
      ScanTake(s, n, i);
      if |path| < 2 && ke != UNUSED && Huge !in ke.flags {
        Reclaim(s, c, e.addr, ke.addr, path + [i]);
      } else {
        ScanBare(s, c);
      }
      DeallocateFrame(e.addr);
    }

    /** Destroys an address space: gives back its own tables that lie under kernel tables. */
    method DestroyProcessPageTable(p: nat)
      requires Valid() && Node(p, []) in owned
      modifies this
      ensures View() == Destroyed(old(View()), p) && Valid()
    {
      ghost var s, r := View(), Node(p, []);
      DestroyedOk(s, p);
      FreedByRoot(s, p);
      assert r !in FreedUnder(s, r);
      FramesJoin(s, FreedUnder(s, r), {r});
      FramesOne(s, r);
      FramesApart(s, FreedUnder(s, r), {r});
      Reclaim(s, r, p, root, []);
      DeallocateFrame(p);
      owned := Without(owned, p);
    }

    // -------------------------------------------------------------
    // Translate
    // -------------------------------------------------------------

    /** The code's own walk agrees with the hardware's walk. */
    method TranslateInProcess(p: nat, va: nat) returns (r: Option<nat>)
      requires Valid() && Node(p, []) in owned
      ensures r.Some? <==> Trans(View(), p, PageOf(va)).Some?
      ensures r.Some? ==> r.value == Trans(View(), p, PageOf(va)).value.addr + va % 4096
    {
      ghost var s := View();
      var page := PageOf(va);
      var l4 := mem[p][page[0]];
      if l4 == UNUSED { return None; }
      ghost var c := WalkDown(s, Node(p, []), p, page, va);
      var l3 := mem[l4.addr][page[1]];
      if l3 == UNUSED { return None; }
      if Huge in l3.flags {
        HugeOffset(va);
        return Some(l3.addr + va % 0x4000_0000);
      }
      c := WalkDown(s, c, l4.addr, page, va);
      r := TranslateBelow(c, l3.addr, va);
    }

    /** The rest of the translation, from the L2 table t on. */
    method TranslateBelow(ghost c: Node, t: nat, va: nat) returns (r: Option<nat>)
      requires Valid() && IsPath(c.path) && |c.path| == 2 && TableAt(View(), c, t) && IsTable(mem, t)
      ensures r == Physical(Walk(mem, t, 2, PageOf(va)), va)
    {
      var page := PageOf(va);
      var l2 := mem[t][page[2]];
      if l2 == UNUSED { return None; }
      if Huge in l2.flags {
        HugeOffset(va);
        return Some(l2.addr + va % 0x20_0000);
      }
      ghost var c' := WalkDown(View(), c, t, page, va);
      var l1 := mem[l2.addr][page[3]];
      if l1 == UNUSED { return None; }
      r := Some(l1.addr + va % 4096);
    }

    // -------------------------------------------------------------
    // USER on a range
    // -------------------------------------------------------------

    /** Adds USER to an entry in use. */
    method MarkUser(ghost page: seq<nat>, ghost n: Node, g: nat, i: nat)
      requires Valid() && n in owned && owned[n] == g && i < 512 && mem[g][i] != UNUSED
      requires IsPage(page) && Through(n, i, n.proc, page)
      modifies `mem
      ensures Marked(old(View()), View(), n.proc, page) && Local(old(View()), View(), n, i)
      ensures EntryOf(View(), n, i) == Entry(old(mem[g][i].addr), old(mem[g][i].flags) + {User})
    {
      ghost var s := View();
      var e := Entry(mem[g][i].addr, mem[g][i].flags + {User});
      MarkStep(s, n, i, e);
      MarkStepOnly(s, n, i, e, page);
      mem := mem[g := mem[g][i := e]];
      assert View() == Rewrite(s, n, i, e);
    }

    /** Forks the table the entry leads to if it is the kernel's. */
    method ForkIfShared(ghost n: Node, g: nat, i: nat, cmp: Option<nat>) returns (r: Visit)
      requires Valid() && n in owned && owned[n] == g && |n.path| < 3 && i < 512 && Link(mem[g][i])
      requires User in mem[g][i].flags && Guards(View(), n.path + [i], cmp)
      modifies this
      ensures !r.Skip? && Descent(old(View()), View(), n, i)
      ensures r.Table? ==> Child(n, i) in owned && owned[Child(n, i)] == r.addr
      ensures r.Table? ==> User in EntryOf(View(), n, i).flags
    {
      ghost var s := View();
      if cmp == Some(mem[g][i].addr) {
        NotOwned(s, n, i, cmp);
        var f := ForkTable(n, g, i, {User});
        return if f.None? then Panic else Table(f.value);
      }
      NotKernel(s, n, i, cmp);
      DescentRefl(s, n, i);
      r := Table(mem[g][i].addr);
    }

    /** One level: mark the entry, split a 2 MiB page, fork the table if it is the kernel's. */
    method UserLevel(ghost page: seq<nat>, ghost n: Node, g: nat, path: Path, i: nat) returns (r: Visit)
      requires Valid() && n in owned && owned[n] == g && n.path == path && |path| < 3 && i < 512
      requires IsPage(page) && Through(n, i, n.proc, page)
      modifies this
      ensures Marked(old(View()), View(), n.proc, page) && Local(old(View()), View(), n, i)
      ensures r.Skip? ==> MarkedLeaf(|path|, EntryOf(View(), n, i))
      ensures r.Table? ==> Child(n, i) in owned && owned[Child(n, i)] == r.addr
      ensures r.Table? ==> User in EntryOf(View(), n, i).flags
    {
      ghost var s := View();
      MarkedRefl(s, n.proc, page);
      if mem[g][i] == UNUSED { return Skip; }
      ChildPath(s, n, i);
      var cmp := LooseSubtable(mem, root, path + [i]);
      LooseGuards(s, path + [i]);
      MarkUser(page, n, g, i);
      ghost var s1 := View();
      GuardsKept(s, s1, n.proc, path + [i], cmp);
      assert path == [] ==> Huge !in EntryOf(s1, n, i).flags;
      if Huge in mem[g][i].flags && |path| < 2 { return Skip; }
      r := SplitAndFork(n, g, path, i, cmp);
      QuietMarks(s1, View(), n.proc, page);
      MarkedTrans(s, s1, View(), n.proc, page);
      LocalTrans(s, s1, View(), n, i);
    }

    method SplitAndFork(ghost n: Node, g: nat, path: Path, i: nat, cmp: Option<nat>) returns (r: Visit)
      requires Valid() && n in owned && owned[n] == g && n.path == path && |path| < 3 && i < 512
      requires mem[g][i] != UNUSED && User in mem[g][i].flags && (|path| < 2 ==> Huge !in mem[g][i].flags)
      requires IsPath(path + [i]) && Guards(View(), path + [i], cmp)
      modifies this
      ensures !r.Skip? && Descent(old(View()), View(), n, i)
      ensures r.Table? ==> Child(n, i) in owned && owned[Child(n, i)] == r.addr
      ensures r.Table? ==> User in EntryOf(View(), n, i).flags
    {
      ghost var s := View();
      var ok := SplitEntry(n, g, i);
      if !ok { return Panic; }
      ghost var s1 := View();
      GuardsKept(s, s1, n.proc, path + [i], cmp);
      r := ForkIfShared(n, g, i, cmp);
      DescentTrans(s, s1, View(), n, i);
    }

    /** Splits the 2 MiB page of the entry, if it is one. */
    method SplitEntry(ghost n: Node, g: nat, i: nat) returns (ok: bool)
      requires Valid() && n in owned && owned[n] == g && |n.path| < 3 && i < 512
      requires mem[g][i] != UNUSED && User in mem[g][i].flags && (|n.path| < 2 ==> Huge !in mem[g][i].flags)
      modifies this
      ensures Descent(old(View()), View(), n, i)
      ensures ok ==> Link(EntryOf(View(), n, i)) && User in EntryOf(View(), n, i).flags
    {
      if Huge !in mem[g][i].flags {
        DescentRefl(View(), n, i);
        return true;
      }
      var l1 := SplitHugePage(n, g, i, 2);
      ok := l1.Some?;
    }

    /** One level of the page's walk, as a part of a longer step that began at s. */
    method UserStep(ghost s: State, p: nat, page: seq<nat>, d: nat, table: nat) returns (r: Visit)
      requires Inv(s) && Valid() && IsPage(page) && d < 3 && Marked(s, View(), p, page)
      requires PathFlags(View(), p, page, d, {User})
      requires owned[At(p, page, d)] == table
      modifies this
      ensures Marked(s, View(), p, page)
      ensures r.Skip? ==> Reached(Trans(View(), p, page))
      ensures r.Table? ==> PathFlags(View(), p, page, d + 1, {User}) && owned[At(p, page, d + 1)] == r.addr
    {
      ghost var s1 := View();
      assert |At(p, page, d).path| == d;
      r := UserLevel(page, At(p, page, d), table, page[..d], page[d]);
      MarkedTrans(s, s1, View(), p, page);
      PathFlagsKept(s1, View(), p, page, d, {User});
      UserStepped(View(), p, page, d, r);
    }

    /** The table levels of the page's walk from depth d on. */
    method UserTables(ghost s: State, p: nat, page: seq<nat>, d: nat, table: nat) returns (r: Visit)
      requires Inv(s) && Valid() && IsPage(page) && d <= 3 && Marked(s, View(), p, page)
      requires PathFlags(View(), p, page, d, {User})
      requires owned[At(p, page, d)] == table
      modifies this
      ensures Marked(s, View(), p, page)
      ensures r.Skip? ==> Reached(Trans(View(), p, page))
      ensures r.Table? ==> PathFlags(View(), p, page, 3, {User}) && owned[At(p, page, 3)] == r.addr
      decreases 3 - d
    {
      if d == 3 { return Table(table); }
      r := UserStep(s, p, page, d, table);
      if r.Table? { r := UserTables(s, p, page, d + 1, r.addr); }
    }

    /** Marks one page on all its levels, as far as it is mapped. */
    method UserPage(p: nat, page: seq<nat>) returns (panicked: bool)
      requires Valid() && Node(p, []) in owned && IsPage(page)
      modifies this
      ensures Marked(old(View()), View(), p, page)
      ensures !panicked ==> Reached(Trans(View(), p, page))
    {
      ghost var s := View();
      assert page[..0] == [];
      MarkedRefl(s, p, page);
      var l1 := UserTables(s, p, page, 0, p);
      if !l1.Table? { return l1.Panic?; }
      ghost var s3 := View();
      UserLeaf(p, page, l1.addr);
      MarkedTrans(s, s3, View(), p, page);
      return false;
    }

    method UserLeaf(p: nat, page: seq<nat>, table: nat)
      requires Valid() && IsPage(page) && PathFlags(View(), p, page, 3, {User})
      requires At(p, page, 3) in owned && owned[At(p, page, 3)] == table
      modifies `mem
      ensures Marked(old(View()), View(), p, page) && Reached(Trans(View(), p, page))
    {
      ghost var s := View();
      assert |At(p, page, 3).path| == 3;
      MarkedRefl(s, p, page);
      if mem[table][page[3]] != UNUSED {
        MarkUser(page, At(p, page, 3), table, page[3]);
        PathFlagsKept(s, View(), p, page, 3, {User});
      }
      ReachedLeaf(View(), At(p, page, 3), page);
      PathReached(View(), p, page, 3);
    }

    /** Marks the pages from addr up to end. */
    method UserRange(p: nat, first: nat, end: nat) returns (panicked: bool, ghost count: nat)
      requires Valid() && Node(p, []) in owned
      modifies this
      ensures Widened(old(View()), View(), p) && RangeMarks(old(View()), View(), p, first, count)
      ensures count * 4096 < end - first + 4096 || count == 0
      ensures !panicked ==> end <= first + count * 4096 && RangeReached(View(), p, first, count)
    {
      ghost var s := View();
      var addr, i := first, 0;
      while addr < end
        invariant addr == first + i * 4096 && Widened(s, View(), p) && RangeReached(View(), p, first, i)
        invariant RangeMarks(s, View(), p, first, i) && (i == 0 || addr < end + 4096)
      {
        ghost var s1 := View();
        var stop := UserPage(p, PageAt(first, i));
        RangeMarksGrow(s, s1, View(), p, first, i);
        WidenedTrans(s, s1, View(), p);
        if stop { return true, i + 1; }
        RangeReachedGrow(s1, View(), p, first, i);
        addr, i := addr + 4096, i + 1;
      }
      return false, i;
    }

    /** Marks every mapped page of the byte range USER; true is the panic when frames run out. */
    method SetUserAccessible(p: nat, start: nat, size: nat) returns (panicked: bool, ghost count: nat)
      requires Valid() && Node(p, []) in owned
      modifies this
      ensures Widened(old(View()), View(), p) && RangeMarks(old(View()), View(), p, PageStart(start), count)
      ensures count <= (start + size + 0xFFF) / 4096 - start / 4096
      ensures !panicked && size > 0 ==> start + size <= PageStart(start) + count * 4096
      ensures !panicked && size > 0 ==> RangeReached(View(), p, PageStart(start), count)
    {
      if size == 0 { return false, 0; }
      panicked, count := UserRange(p, PageStart(start), (start + size + 0xFFF) / 4096 * 4096);
    }

    // -------------------------------------------------------------
    // ELF segments
    // -------------------------------------------------------------

    /**
     The L3 level of segment mapping: a 1 GiB page panics. The code goes on to the next page when the 1 GiB
     page is not the kernel's, but an owned L3 table never holds such a page.
     */
    method LoadL3(ghost n: Node, g: nat, path: Path, i: nat) returns (r: Option<nat>)
      requires Valid() && n in owned && owned[n] == g && n.path == path && |path| == 1 && i < 512
      modifies this
      ensures Descent(old(View()), View(), n, i)
      ensures r.Some? ==> Leads(View(), n, i, r.value, INTERMEDIATE)
    {
      ghost var s := View();
      DescentRefl(s, n, i);
      ChildPath(s, n, i);
      var e := mem[g][i];
      assert EntryOf(s, n, i) == e;
      if e == UNUSED {
        r := NewTable(n, g, i);
        return;
      }
      var cmp := KernelSubtable(mem, root, path + [i]);
      SubtableGuards(s, path + [i]);
      if Huge in e.flags { HugeIsKernel(s, n, i); }
      if cmp == Some(e.addr) {
        if Huge in e.flags { return None; }
        NotOwned(s, n, i, cmp);
        r := ForkTable(n, g, i, INTERMEDIATE);
        return;
      }
      var a := AddFlags(n, g, i, cmp);
      r := Some(a);
    }

    method LoadLevel(ghost n: Node, g: nat, path: Path, i: nat) returns (r: Option<nat>)
      requires Valid() && n in owned && owned[n] == g && n.path == path && |path| < 3 && i < 512
      modifies this
      ensures Descent(old(View()), View(), n, i)
      ensures r.Some? ==> Leads(View(), n, i, r.value, INTERMEDIATE)
    {
      if |path| == 1 {
        r := LoadL3(n, g, path, i);
      } else {
        r := Descend(n, g, path, i);
      }
    }

    /** One level of the page's walk, as a part of a longer step that began at s. */
    method LoadStep(ghost s: State, p: nat, page: seq<nat>, d: nat, table: nat) returns (r: Option<nat>)
      requires Inv(s) && Valid() && IsPage(page) && d < 3 && Quiet(s, View(), p)
      requires PathFlags(View(), p, page, d, {User, Writable})
      requires owned[At(p, page, d)] == table
      modifies this
      ensures Quiet(s, View(), p)
      ensures r.Some? ==> PathFlags(View(), p, page, d + 1, {User, Writable}) && owned[At(p, page, d + 1)] == r.value
    {
      ghost var s1, n := View(), At(p, page, d);
      assert |n.path| == d;
      r := LoadLevel(n, table, page[..d], page[d]);
      QuietTrans(s, s1, View(), p);
      if r.Some? {
        PathFlagsKept(s1, View(), p, page, d, {User, Writable});
        PathFlagsNext(View(), p, page, d, {User, Writable});
      }
    }

    method LoadTables(ghost s: State, p: nat, page: seq<nat>, d: nat, table: nat) returns (r: Option<nat>)
      requires Inv(s) && Valid() && IsPage(page) && d <= 3 && Quiet(s, View(), p)
      requires PathFlags(View(), p, page, d, {User, Writable})
      requires owned[At(p, page, d)] == table
      modifies this
      ensures Quiet(s, View(), p)
      ensures r.Some? ==> PathFlags(View(), p, page, 3, {User, Writable}) && owned[At(p, page, 3)] == r.value
      decreases 3 - d
    {
      if d == 3 { return Some(table); }
      r := LoadStep(s, p, page, d, table);
      if r.Some? { r := LoadTables(s, p, page, d + 1, r.value); }
    }

    method ReuseLeaf(p: nat, page: seq<nat>, l1: nat, leaf: set<Flag>, ghost known: seq<nat>)
      requires Valid() && IsPage(page) && Node(p, page[..3]) in owned && owned[Node(p, page[..3])] == l1
      requires OpenAbove(View(), p, page)
      requires mem[l1][page[3]] != UNUSED && User in mem[l1][page[3]].flags && mem[l1][page[3]].addr in known
      modifies `mem
      ensures PageReused(old(View()), View(), p, page, old(mem[l1][page[3]].addr), leaf, known)
    {
      ghost var s := View();
      var e := mem[l1][page[3]];
      WriteEntry(Node(p, page[..3]), l1, page[3], Entry(e.addr, Merge(e.flags, leaf)));
      ReuseStep(s, View(), p, page, leaf, known, e);
    }

    /** Keeps a known USER frame with merged flags, or maps a fresh zeroed frame. */
    method LoadLeaf(p: nat, page: seq<nat>, l1: nat, leaf: set<Flag>, known: seq<nat>) returns (r: Option<nat>)
      requires Valid() && IsPage(page) && Node(p, page[..3]) in owned && owned[Node(p, page[..3])] == l1
      requires OpenAbove(View(), p, page) && Present in leaf
      modifies `mem, `free
      ensures r.None? ==> free == {} && View() == old(View())
      ensures r.Some? ==> PageLoaded(old(View()), View(), p, page, r.value, leaf, known)
    {
      var e := mem[l1][page[3]];
      OwnedWalk(View(), p, page);
      if e != UNUSED && User in e.flags && e.addr in known {
        ReuseLeaf(p, page, l1, leaf, known);
        return Some(e.addr);
      }
      r := MapLeaf(p, page, l1, leaf);
    }

    method LoadPage(p: nat, page: seq<nat>, leaf: set<Flag>, known: seq<nat>) returns (r: Option<nat>)
      requires Valid() && Node(p, []) in owned && IsPage(page) && Present in leaf
      modifies this
      ensures r.None? ==> Quiet(old(View()), View(), p)
      ensures r.Some? ==> PageLoaded(old(View()), View(), p, page, r.value, leaf, known)
    {
      ghost var s := View();
      assert page[..0] == [];
      r := LoadTables(s, p, page, 0, p);
      if r.None? { return; }
      ghost var s1 := View();
      PathAbove(s1, p, page);
      r := LoadLeaf(p, page, r.value, leaf, known);
      if r.Some? { LoadedAfterQuiet(s, s1, View(), p, page, r.value, leaf, known); }
    }

    /** Maps the pages of an ELF segment; None is the panic. */
    method MapUserPages(p: nat, start: nat, size: nat, previous: seq<nat>, elfFlags: nat) returns (r: Option<seq<nat>>)
      requires Valid() && Node(p, []) in owned
      modifies this
      ensures Valid() && Confined(old(View()), View(), p)
      ensures OutsideSame(old(View()), View(), p, PageStart(start), SegmentPages(start, size))
      ensures r.Some? ==> |r.value| == SegmentPages(start, size)
      ensures r.Some? && size > 0 ==> PageStart(start) <= start < PageStart(start) + 4096
      ensures r.Some? && size > 0 ==> PageStart(start) % 4096 == 0
      ensures r.Some? && size > 0 ==> 0 <= PageStart(start) + |r.value| * 4096 - (start + size) < 4096
      ensures r.Some? ==> RangeLoaded(old(View()), View(), p, PageStart(start), r.value)
      ensures r.Some? ==> forall j: nat | j < |r.value| && FirstOf(PageStart(start), j) ::
                SegmentPage(old(View()), View(), p, PageAt(PageStart(start), j), r.value[j], elfFlags,
                            r.value[..j] + previous)
      ensures r.Some? ==> forall j: nat | j < |r.value| ::
                SegmentRights(View(), p, PageAt(PageStart(start), j), elfFlags)
    {
      if size == 0 { return Some([]); }
      SegmentCovers(start, size);
      r := LoadRange(p, PageStart(start), SegmentPages(start, size), previous, PageFlags(elfFlags));
      if r.Some? { SegmentRange(old(View()), View(), p, PageStart(start), r.value, elfFlags, previous); }
    }

    method LoadRange(p: nat, first: nat, count: nat, previous: seq<nat>, leaf: set<Flag>) returns (r: Option<seq<nat>>)
      requires Valid() && Node(p, []) in owned && Present in leaf && User in leaf
      modifies this
      ensures Valid() && Confined(old(View()), View(), p) && OutsideSame(old(View()), View(), p, first, count)
      ensures r.Some? ==> |r.value| == count && RangeLoaded(old(View()), View(), p, first, r.value)
      ensures r.Some? ==> LeavesLoaded(old(View()), View(), p, first, r.value, leaf, previous)
    {
      ghost var s := View();
      var frames: seq<nat> := [];
      for i := 0 to count
        invariant |frames| == i && Valid() && Confined(s, View(), p) && RangeLoaded(s, View(), p, first, frames)
        invariant LeavesLoaded(s, View(), p, first, frames, leaf, previous) == true
      {
        ghost var s1 := View();
        var f := LoadPage(p, PageAt(first, i), leaf, frames + previous);
        ConfinedTrans(s, s1, View(), p);
        if f.None? {
          QuietOutside(s, s1, View(), p, first, i, count);
          return None;
        }
        LoadedGrow(s, s1, View(), p, first, frames, f.value, leaf, frames + previous);
        LeavesGrow(s, s1, View(), p, first, frames, f.value, leaf, previous);
        frames := frames + [f.value];
      }
      r := Some(frames);
    }

    // -------------------------------------------------------------
    // Unmap
    // -------------------------------------------------------------

    /** Follows the page's entries down to its L1 table, whoever owns the tables. */
    method FindL1(p: nat, page: seq<nat>) returns (r: Option<nat>)
      requires IsPage(page) && WholeTables(mem)
      ensures r == L1Of(mem, p, 0, page)
    {
      var table := p;
      for d := 0 to 3
        invariant L1Of(mem, p, 0, page) == L1Of(mem, table, d, page)
      {
        if table !in mem { return None; }
        var e := mem[table][page[d]];
        if e == UNUSED || (d > 0 && Huge in e.flags) { return None; }
        table := e.addr;
      }
      r := Some(table);
    }

    /** Clears the L1 entry of one page; the result is the frame it named. */
    method ClearEntry(p: nat, page: seq<nat>) returns (f: Option<nat>)
      requires IsPage(page) && WholeTables(mem)
      modifies `mem
      ensures mem == ClearPage(old(mem), p, page) && f == ServedFrame(old(mem), p, page) && WholeTables(mem)
    {
      var l1 := FindL1(p, page);
      if l1.None? || l1.value !in mem || mem[l1.value][page[3]] == UNUSED { return None; }
      f := Some(mem[l1.value][page[3]].addr);
      mem := mem[l1.value := mem[l1.value][page[3] := UNUSED]];
    }

    /** Clears the entries of the range and notes the frames. */
    method ClearPages(p: nat, start: nat, count: nat) returns (frames: seq<nat>)
      requires Valid() && Node(p, []) in owned
      modifies `mem
      ensures mem == ClearAll(old(mem), p, start, count) && frames == FramesOf(old(mem), p, start, count)
      ensures Unmappable(old(View()), p, start, count) ==> Unmapping(old(View()), View(), p, start, count, frames)
    {
      ghost var s := View();
      frames := [];
      for i := 0 to count
        invariant mem == ClearAll(s.mem, p, start, i) && frames == FramesOf(s.mem, p, start, i) && WholeTables(mem)
        invariant Clearing(s, View(), p, start, count, i, frames) == true
      {
        frames := ClearNext(s, p, start, count, i, frames);
      }
    }

    method ClearNext(ghost s: State, p: nat, start: nat, ghost count: nat, i: nat, frames: seq<nat>)
      returns (frames': seq<nat>)
      requires Inv(s) && Node(p, []) in s.owned && i < count && WholeTables(mem)
      requires mem == ClearAll(s.mem, p, start, i) && frames == FramesOf(s.mem, p, start, i)
      requires Clearing(s, View(), p, start, count, i, frames)
      modifies `mem
      ensures mem == ClearAll(s.mem, p, start, i + 1) && frames' == FramesOf(s.mem, p, start, i + 1) && WholeTables(mem)
      ensures Clearing(s, View(), p, start, count, i + 1, frames')
    {
      ghost var s1 := View();
      var f := ClearEntry(p, PageAt(start, i));
      frames' := frames + if f.Some? then [f.value] else [];
      if Unmappable(s, p, start, count) { UnmapNext(s, s1, View(), p, start, i, count, frames, frames'); }
    }

    /** Gives frames back one by one; false is the allocator's panic. */
    method ReleaseFrames(frames: seq<nat>) returns (ok: bool)
      modifies `free
      ensures ok <==> Releasable(mem, old(free), frames)
      ensures ok ==> free == old(free) + Elements(frames)
    {
      for i := 0 to |frames|
        invariant free == old(free) + Elements(frames[..i]) && Releasable(mem, old(free), frames[..i])
      {
        if frames[i] !in mem || frames[i] in free {
          NotReleasable(mem, old(free), frames, i);
          return false;
        }
        free := free + {frames[i]};
        assert frames[..i + 1] == frames[..i] + [frames[i]];
      }
      assert frames[..|frames|] == frames;
      ok := true;
    }

    /**
     Unmaps count pages from start and gives their frames back; false is the panic on a frame that cannot be given
     back. A range that the process mapped in L1 tables of its own is unmapped and nothing else changes.
     */
    method UnmapPages(p: nat, start: nat, count: nat) returns (frames: seq<nat>, ok: bool)
      requires Valid() && Node(p, []) in owned
      modifies `mem, `free
      ensures mem == ClearAll(old(mem), p, start, count) && frames == FramesOf(old(mem), p, start, count)
      ensures ok <==> Releasable(mem, old(free), frames)
      ensures ok ==> free == old(free) + Elements(frames)
      ensures Unmappable(old(View()), p, start, count) ==>
              ok && Unmapped(old(View()), View(), p, start, count, frames)
    {
      ghost var s := View();
      frames := ClearPages(p, start, count);
      ghost var s1 := View();
      if Unmappable(s, p, start, count) { UnmapDone(s, s1, Released(s1, frames), p, start, count, frames); }
      ok := ReleaseFrames(frames);
    }
  }

  /** What holds on the way of a range that the process may unmap. */
  ghost predicate Clearing(s: State, s': State, p: nat, start: nat, count: nat, i: nat, frames: seq<nat>) {
    Unmappable(s, p, start, count) ==> Unmapping(s, s', p, start, i, frames)
  }

  ghost predicate WholeTables(mem: Memory) {
    forall f | f in mem :: |mem[f]| == 512
  }

  lemma NotReleasable(mem: Memory, free: set<nat>, frames: seq<nat>, i: nat)
    requires i < |frames| && (frames[i] !in mem || frames[i] in free + Elements(frames[..i]))
    ensures !Releasable(mem, free, frames)
  {
    if frames[i] in mem && frames[i] !in free {
      var j :| 0 <= j < i && frames[..i][j] == frames[i];
      assert frames[j] == frames[i];
    }
  }

  lemma UnmapNext(s: State, s1: State, s2: State, p: nat, start: nat, i: nat, count: nat, frames: seq<nat>,
                  frames': seq<nat>)
    requires Inv(s) && Node(p, []) in s.owned && i < count && Unmappable(s, p, start, count)
    requires Unmapping(s, s1, p, start, i, frames) && s2 == s1.(mem := ClearPage(s1.mem, p, PageAt(start, i)))
    requires var f := ServedFrame(s1.mem, p, PageAt(start, i)); frames' == frames + if f.Some? then [f.value] else []
    ensures Unmapping(s, s2, p, start, i + 1, frames')
  {
    assert L1(p, PageAt(start, i)) in s1.owned;
    ClearedOwned(s1, s2, p, PageAt(start, i));
    assert Unmappable(s, p, start, i + 1);
    UnmappingStep(s, s1, s2, p, start, i, frames, frames');
  }

  lemma ListedFresh(s: State, s1: State, p: nat, start: nat, count: nat, frames: seq<nat>)
    requires Inv(s) && Unmappable(s, p, start, count) && Unmapping(s, s1, p, start, count, frames)
    ensures forall f | f in frames :: Fresh(s1, f)
  {
    forall f | f in frames ensures Fresh(s1, f) {
      assert Backs(s, p, start, count, f);
      FreshKept(s, s1, p, f);
    }
  }

  lemma UnmapDone(s: State, s1: State, s2: State, p: nat, start: nat, count: nat, frames: seq<nat>)
    requires Inv(s) && Unmappable(s, p, start, count) && Unmapping(s, s1, p, start, count, frames)
    requires s2 == Released(s1, frames)
    ensures Releasable(s1.mem, s1.free, frames) && Unmapped(s, s2, p, start, count, frames)
  {
    ListedFresh(s, s1, p, start, count, frames);
    ReleasedOk(s1, frames);
  }

  /** The address of the page that holds an address. */
  function PageStart(a: nat): nat {
    a / 4096 * 4096
  }

  /** Pages touched by a byte range. */
  function SegmentPages(start: nat, size: nat): nat {
    if size == 0 then 0 else (start + size + 0xFFF) / 4096 - start / 4096
  }

  /** The pages from PageStart on cover the byte range and start and end within a page of it. */
  lemma SegmentCovers(start: nat, size: nat)
    requires size > 0
    ensures PageStart(start) % 4096 == 0 && PageStart(start) <= start < PageStart(start) + 4096
    ensures 0 <= PageStart(start) + SegmentPages(start, size) * 4096 - (start + size) < 4096
  {
  }

  lemma PathAbove(s: State, p: nat, page: seq<nat>)
    requires IsPage(page) && PathFlags(s, p, page, 3, {User, Writable})
    ensures Node(p, page[..3]) in s.owned && OpenAbove(s, p, page)
  {
    assert At(p, page, 3) == Node(p, page[..3]) && At(p, page, 3) in s.owned;
    assert At(p, page, 0) == Node(p, page[..0]) && At(p, page, 1) == Node(p, page[..1]);
    assert At(p, page, 2) == Node(p, page[..2]);
  }

  lemma LoadedAfterQuiet(s: State, s1: State, s2: State, p: nat, page: seq<nat>, f: nat, leaf: set<Flag>,
                         known: seq<nat>)
    requires Inv(s) && IsPage(page) && Quiet(s, s1, p) && PageLoaded(s1, s2, p, page, f, leaf, known)
    ensures PageLoaded(s, s2, p, page, f, leaf, known) && Inv(s2) && Confined(s, s2, p)
  {
    OursSame(s, s1, p, page, known);
    if Ours(Trans(s1, p, page), known) {
      QuietLoaded(s, s1, s2, p, page, f, leaf, known);
    } else {
      QuietMapped(s, s1, s2, p, page, f, leaf);
    }
  }

  /** The physical address a walk gives for a virtual address. */
  function Physical(w: Option<Leaf>, va: nat): Option<nat> {
    if w.None? then None else Some(w.value.addr + va % 4096)
  }

  lemma WalkDown(s: State, c: Node, t: nat, page: seq<nat>, va: nat) returns (c': Node)
    requires Inv(s) && IsPath(c.path) && |c.path| < 3 && IsPage(page) && TableAt(s, c, t) && IsTable(s.mem, t)
    requires s.mem[t][page[|c.path|]] != UNUSED && (c.path != [] ==> Huge !in s.mem[t][page[|c.path|]].flags)
    ensures IsPath(c'.path) && |c'.path| == |c.path| + 1 && TableAt(s, c', s.mem[t][page[|c.path|]].addr)
    ensures IsTable(s.mem, s.mem[t][page[|c.path|]].addr)
    ensures Physical(Walk(s.mem, t, |c.path|, page), va) ==
            Physical(Walk(s.mem, s.mem[t][page[|c.path|]].addr, |c.path| + 1, page), va)
  {
    TableStep(s, c, t, page[|c.path|]);
    c' := Child(c, page[|c.path|]);
    TableReal(s, c', s.mem[t][page[|c.path|]].addr);
  }

  lemma QuietOutside(s: State, s1: State, s2: State, p: nat, start: nat, i: nat, k: nat)
    requires Confined(s, s1, p) && OutsideSame(s, s1, p, start, i) && Quiet(s1, s2, p) && i <= k
    ensures Confined(s, s2, p) && OutsideSame(s, s2, p, start, k)
  {
    ConfinedTrans(s, s1, s2, p);
    forall page | IsPage(page) && !RangePage(start, k, page) ensures Same(Trans(s, p, page), Trans(s2, p, page)) {
      assert !RangePage(start, i, page);
      assert Same(Trans(s, p, page), Trans(s1, p, page)) && Same(Trans(s1, p, page), Trans(s2, p, page));
    }
  }

  lemma QuietMapped(s: State, s1: State, s2: State, p: nat, page: seq<nat>, f: nat, flags: set<Flag>)
    requires Inv(s) && IsPage(page) && Quiet(s, s1, p) && PageMapped(s1, s2, p, page, f, flags)
    ensures PageMapped(s, s2, p, page, f, flags)
  {
    SpentAfter(s, s1, s2, p, {f});
    ConfinedTrans(s, s1, s2, p);
    OthersAfter(s, s1, s2, p, page);
  }

  lemma LinkReal(s: State, n: Node, i: nat)
    requires Inv(s) && n in s.owned && |n.path| < 3 && i < 512 && Link(EntryOf(s, n, i))
    ensures IsTable(s.mem, EntryOf(s, n, i).addr) && EntryOf(s, n, i).addr !in s.free
  {
    ChildPath(s, n, i);
    assert TableAt(s, Child(n, i), EntryOf(s, n, i).addr);
    TableReal(s, Child(n, i), EntryOf(s, n, i).addr);
  }
}

/** Unmapping a page that a process shares with the kernel, on the smallest kernel that maps one. */
module PagingExamples {
  import opened Options
  import opened PageTables
  import opened PagingSteps
  import opened PagingMap
  import opened PagingRange
  import opened PagingLife
  import opened PagingUnmap
  import opened AddressSpaces

  const FIRST: seq<nat> := [0, 0, 0, 0]

  const TABLES: set<nat> := {0x1000, 0x2000, 0x3000, 0x4000}

  /** The zero table z with a first entry that names frame f. */
  function OneEntry(z: Table, f: nat): Table {
    if |z| == 512 then z[0 := Entry(f, {Present})] else z
  }

  /** Four tables that map page 0 to frame 0x5000, and another frame at 0x6000. */
  function SmallMemory(z: Table): Memory {
    map[0x1000 := OneEntry(z, 0x2000), 0x2000 := OneEntry(z, 0x3000), 0x3000 := OneEntry(z, 0x4000),
        0x4000 := OneEntry(z, 0x5000), 0x5000 := z, 0x6000 := z]
  }

  /** The kernel's L4, L3 and L2 tables. */
  predicate Upper(z: Table, mem: Memory) {
    && 0x1000 in mem && mem[0x1000] == OneEntry(z, 0x2000) && 0x2000 in mem && mem[0x2000] == OneEntry(z, 0x3000)
    && 0x3000 in mem && mem[0x3000] == OneEntry(z, 0x4000)
  }

  lemma {:induction false} TableOf(z: Table, q: Path)
    requires IsZero(z) && |q| <= 3
    ensures var t := KernelTable(SmallMemory(z), 0x1000, q); t.Some? ==> t.value == 0x1000 + 0x1000 * |q|
    decreases |q|
  {
    if q != [] { TableOf(z, q[..|q| - 1]); }
  }

  lemma KernelFine(z: Table, s: State)
    requires IsZero(z) && s == State(SmallMemory(z), {0x6000}, 0x1000, TABLES, map[])
    ensures MemoryOk(s) && KernelOk(s)
  {
    forall q | IsPath(q) && KernelTable(s.mem, s.root, q).Some?
      ensures KernelTable(s.mem, s.root, q).value in s.kernel
    {
      TableOf(z, q);
    }
  }

  lemma SharedL1(z: Table, mem: Memory, p: nat)
    requires IsZero(z) && p in mem && mem[p] == OneEntry(z, 0x2000) && Upper(z, mem)
    ensures L1Of(mem, p, 0, FIRST) == Some(0x4000)
  {
    assert L1Of(mem, 0x4000, 3, FIRST) == Some(0x4000);
    assert L1Of(mem, 0x3000, 2, FIRST) == Some(0x4000);
    assert L1Of(mem, 0x2000, 1, FIRST) == Some(0x4000);
  }

  /** The kernel's own walk of page 0, which ends at entry e of the L1 table. */
  lemma WalkFirst(z: Table, mem: Memory, e: Entry)
    requires IsZero(z) && Upper(z, mem) && IsTable(mem, 0x4000) && mem[0x4000][0] == e
    ensures Walk(mem, 0x1000, 0, FIRST) == if e == UNUSED then None else Some(Leaf(e.addr, e.flags, false, false, 3))
  {
    assert Walk(mem, 0x4000, 3, FIRST) == if e == UNUSED then None else Some(Leaf(e.addr, e.flags, true, true, 3));
    assert Walk(mem, 0x3000, 2, FIRST) == Below(Entry(0x4000, {Present}), Walk(mem, 0x4000, 3, FIRST));
    assert Walk(mem, 0x2000, 1, FIRST) == Below(Entry(0x3000, {Present}), Walk(mem, 0x3000, 2, FIRST));
  }

  /** Clearing a range of one page. */
  lemma ClearOne(mem: Memory, p: nat, start: nat, t: nat)
    requires L1Of(mem, p, 0, PageAt(start, 0)) == Some(t) && IsTable(mem, t) && mem[t][PageAt(start, 0)[3]] != UNUSED
    ensures ClearAll(mem, p, start, 1) == mem[t := mem[t][PageAt(start, 0)[3] := UNUSED]]
    ensures FramesOf(mem, p, start, 1) == [mem[t][PageAt(start, 0)[3]].addr]
  {
    assert ClearAll(mem, p, start, 0) == mem && FramesOf(mem, p, start, 0) == [];
  }

  /** What clearing page 0 through the tables of p does. */
  lemma ClearFirst(z: Table, mem: Memory, p: nat)
    requires IsZero(z) && p in mem && mem[p] == OneEntry(z, 0x2000) && Upper(z, mem)
    requires 0x4000 in mem && mem[0x4000] == OneEntry(z, 0x5000)
    ensures ClearAll(mem, p, 0, 1) == mem[0x4000 := z] && FramesOf(mem, p, 0, 1) == [0x5000]
  {
    SharedL1(z, mem, p);
    assert PageAt(0, 0) == FIRST;
    ClearOne(mem, p, 0, 0x4000);
    assert OneEntry(z, 0x5000)[0 := UNUSED] == z;
  }

  /** The kernel starts and the first process is created. */
  method Boot(z: Table) returns (m: PagingState, p: nat)
    requires IsZero(z)
    ensures fresh(m) && m.Valid() && m.owned == map[Node(p, []) := p] && m.root == 0x1000 && m.kernel == TABLES
    ensures p in m.mem && m.mem[p] == OneEntry(z, 0x2000) && Upper(z, m.mem) && p !in TABLES
    ensures 0x4000 in m.mem && m.mem[0x4000] == OneEntry(z, 0x5000) && 0x5000 in m.mem && m.free == {}
  {
    KernelFine(z, State(SmallMemory(z), {0x6000}, 0x1000, TABLES, map[]));
    m := new PagingState(SmallMemory(z), {0x6000}, 0x1000, TABLES);
    var r := m.CreateProcessPageTable();
    p := r.value;
  }

  method UnmapFirst(m: PagingState, z: Table, p: nat)
    requires m.Valid() && m.owned == map[Node(p, []) := p] && IsZero(z)
    requires p in m.mem && m.mem[p] == OneEntry(z, 0x2000) && Upper(z, m.mem) && p !in TABLES
    requires 0x4000 in m.mem && m.mem[0x4000] == OneEntry(z, 0x5000) && 0x5000 in m.mem && m.free == {}
    modifies m
    ensures Upper(z, m.mem) && IsTable(m.mem, 0x4000) && m.mem[0x4000][0] == UNUSED && 0x5000 in m.free
  {
    ClearFirst(z, m.mem, p);
    assert !Unmappable(m.View(), p, 0, 1) by {
      assert |L1(p, PageAt(0, 0)).path| == 3;
    }
    var frames, ok := m.UnmapPages(p, 0, 1);
    assert frames == [0x5000] && ok;
  }

  /** A new process unmaps a page it never mapped: the kernel's own mapping is gone and its frame is free. */
  method UnmapsKernel(z: Table) returns (m: PagingState, p: nat)
    requires IsZero(z)
    ensures fresh(m) && m.root == 0x1000 && m.kernel == TABLES
    ensures Walk(SmallMemory(z), 0x1000, 0, FIRST) == Some(Leaf(0x5000, {Present}, false, false, 3))
    ensures Walk(m.mem, 0x1000, 0, FIRST) == None && 0x5000 in m.free
  {
    WalkFirst(z, SmallMemory(z), Entry(0x5000, {Present}));
    m, p := Boot(z);
    UnmapFirst(m, z, p);
    WalkFirst(z, m.mem, UNUSED);
  }
}

/**
 Physical memory as a map from frame address to a table of 512 entries, and the
 sharing invariant of per-process page tables: every table a process can reach is
 either its own or exactly the kernel's table at the same path.
 */
module PageTables {
  import opened Options

  datatype Flag = Present | Writable | User | Huge | NoExecute | OtherFlag(bit: nat)

  datatype Entry = Entry(addr: nat, flags: set<Flag>)

  type Table = seq<Entry>

  type Memory = map<nat, Table>

  const UNUSED := Entry(0, {})

  /** A table entry that leads to a table of the next level. */
  predicate Link(e: Entry) {
    e != UNUSED && Huge !in e.flags
  }

  /** Entries in use are marked present. */
  predicate EntryOk(e: Entry) {
    e == UNUSED || Present in e.flags
  }

  predicate EntriesOk(t: Table) {
    |t| == 512 && forall i | 0 <= i < 512 :: EntryOk(t[i])
  }

  predicate IsTable(mem: Memory, t: nat) {
    t in mem && |mem[t]| == 512
  }

  const ZERO_TABLE: Table := seq(512, _ => UNUSED)

  /** Indices taken from the root: length 0 is the L4 table itself, length 3 an L1 table. */
  type Path = seq<nat>

  predicate IsPath(q: Path) {
    |q| <= 3 && forall i | 0 <= i < |q| :: q[i] < 512
  }

  /** Four indices select one 4 KiB page. */
  predicate IsPage(page: seq<nat>) {
    |page| == 4 && forall i | 0 <= i < 4 :: page[i] < 512
  }

  // ---------------------------------------------------------------
  // The kernel's tables
  // ---------------------------------------------------------------

  /** The kernel's table at a path, if the kernel has a table there. */
  function KernelTable(mem: Memory, root: nat, q: Path): Option<nat>
    decreases |q|
  {
    if q == [] then Some(root) else
      var n := |q| - 1;
      match KernelTable(mem, root, q[..n])
      case None => None
      case Some(t) =>
        if IsTable(mem, t) && q[n] < 512 && Link(mem[t][q[n]]) then Some(mem[t][q[n]].addr) else None
  }

  /** The kernel's entry at a path and an index. */
  function KernelEntry(mem: Memory, root: nat, q: Path, i: nat): Entry {
    match KernelTable(mem, root, q)
    case None => UNUSED
    case Some(t) => if IsTable(mem, t) && i < 512 then mem[t][i] else UNUSED
  }

  /** The kernel has an entry there, with the same address. */
  predicate KernelPage(mem: Memory, root: nat, q: Path, i: nat, e: Entry) {
    KernelEntry(mem, root, q, i) != UNUSED && KernelEntry(mem, root, q, i).addr == e.addr
  }

  // ---------------------------------------------------------------
  // State and invariant
  // ---------------------------------------------------------------

  /** A table position: a process, named by its L4 frame, and a path. */
  datatype Node = Node(proc: nat, path: Path)

  function Child(n: Node, i: nat): Node {
    Node(n.proc, n.path + [i])
  }

  /**
   mem, free: physical memory and the frame allocator's free set; root: the kernel's L4;
   kernel: frames of the kernel's tables; owned: the tables each process owns, by position.
   */
  datatype State = State(mem: Memory, free: set<nat>, root: nat, kernel: set<nat>, owned: map<Node, nat>)

  ghost predicate MemoryOk(s: State) {
    && (forall f | f in s.mem :: |s.mem[f]| == 512)
    && (forall f | f in s.free :: f in s.mem)
  }

  /** The kernel's tables are in memory, not free, closed under links, with no huge L4 entry. */
  ghost predicate KernelOk(s: State) {
    && s.root in s.kernel
    && (forall t | t in s.kernel :: IsTable(s.mem, t) && t !in s.free && EntriesOk(s.mem[t]))
    && (forall q | IsPath(q) && KernelTable(s.mem, s.root, q).Some? ::
          KernelTable(s.mem, s.root, q).value in s.kernel)
    && (forall i | 0 <= i < 512 :: Huge !in s.mem[s.root][i].flags)
  }

  /** Owned tables are distinct frames, apart from the kernel's tables and from free frames. */
  ghost predicate OwnedOk(s: State) {
    && (forall n | n in s.owned :: IsPath(n.path) && IsTable(s.mem, s.owned[n]) && EntriesOk(s.mem[s.owned[n]]))
    && (forall n | n in s.owned :: s.owned[n] !in s.free && s.owned[n] !in s.kernel)
    && (forall n, m | n in s.owned && m in s.owned && s.owned[n] == s.owned[m] :: n == m)
    && (forall n | n in s.owned && n.path == [] :: s.owned[n] == n.proc)
  }

  /** The table at position c is the owned one, or else the kernel's table at the same path. */
  ghost predicate TableAt(s: State, c: Node, t: nat) {
    (c in s.owned && s.owned[c] == t) || (c !in s.owned && KernelTable(s.mem, s.root, c.path) == Some(t))
  }

  /** The entry of an owned table. */
  function EntryOf(s: State, n: Node, i: nat): Entry {
    if n in s.owned && IsTable(s.mem, s.owned[n]) && i < 512 then s.mem[s.owned[n]][i] else UNUSED
  }

  /** Every link of an owned table leads to the table at the child position. */
  ghost predicate SharingOk(s: State) {
    forall n, i: nat | n in s.owned && |n.path| < 3 && Link(EntryOf(s, n, i)) ::
      TableAt(s, Child(n, i), EntryOf(s, n, i).addr)
  }

  /** Every owned table below the root hangs off its owned parent. */
  ghost predicate AttachedOk(s: State) {
    forall n, i: nat | Child(n, i) in s.owned ::
      n in s.owned && Link(EntryOf(s, n, i)) && EntryOf(s, n, i).addr == s.owned[Child(n, i)]
  }

  ghost predicate RootsOk(s: State) {
    forall n, i: nat | n in s.owned && n.path == [] :: Huge !in EntryOf(s, n, i).flags
  }

  /** A 1 GiB entry of an owned L3 table is the kernel's page at the same path. */
  ghost predicate HugeOk(s: State) {
    forall n, i: nat | n in s.owned && |n.path| == 1 && Huge in EntryOf(s, n, i).flags ::
      KernelPage(s.mem, s.root, n.path, i, EntryOf(s, n, i))
  }

  ghost predicate Inv(s: State) {
    MemoryOk(s) && KernelOk(s) && OwnedOk(s) && SharingOk(s) && AttachedOk(s) && RootsOk(s) && HugeOk(s)
  }

  // ---------------------------------------------------------------
  // Address translation
  // ---------------------------------------------------------------

  /**
   Physical page address, flags of the leaf entry, USER and WRITABLE on all entries above the leaf, depth of the
   leaf. The hardware allows what the leaf and all entries above it allow.
   */
  datatype Leaf = Leaf(addr: nat, flags: set<Flag>, path: bool, write: bool, depth: nat)

  /** Offset of a page inside a huge page found at depth d (1: 1 GiB, 2: 2 MiB). */
  function Within(d: nat, page: seq<nat>): nat
    requires IsPage(page) && 1 <= d <= 2
  {
    if d == 1 then page[2] * 0x20_0000 + page[3] * 4096 else page[3] * 4096
  }

  predicate IsLeaf(d: nat, e: Entry) {
    d >= 3 || (d > 0 && Huge in e.flags)
  }

  function LeafOf(d: nat, e: Entry, page: seq<nat>): Leaf
    requires IsPage(page)
  {
    if 1 <= d <= 2 then Leaf(e.addr + Within(d, page), e.flags - {Huge}, true, true, d)
    else Leaf(e.addr, e.flags, true, true, d)
  }

  function Below(e: Entry, r: Option<Leaf>): Option<Leaf> {
    if r.None? then None
    else Some(r.value.(path := r.value.path && User in e.flags, write := r.value.write && Writable in e.flags))
  }

  /** The hardware's walk from table t at depth d (0: L4, 3: L1). */
  function Walk(mem: Memory, t: nat, d: nat, page: seq<nat>): Option<Leaf>
    requires IsPage(page) && d <= 3
    decreases 3 - d
  {
    if !IsTable(mem, t) then None else
      var e := mem[t][page[d]];
      if e == UNUSED then None
      else if IsLeaf(d, e) then Some(LeafOf(d, e, page))
      else Below(e, Walk(mem, e.addr, d + 1, page))
  }

  /**
   The same address, from a leaf as deep or deeper. What all entries above allow stays allowed; when a huge page is
   split its own entry joins them, and then what it allowed as well stays allowed.
   */
  predicate Serves(a: Leaf, b: Leaf) {
    && a.addr == b.addr && a.depth <= b.depth <= 3
    && (a.path && (a.depth == b.depth || User in a.flags) ==> b.path)
    && (a.write && (a.depth == b.depth || Writable in a.flags) ==> b.write)
  }

  /** The same translation. */
  predicate Same(a: Option<Leaf>, b: Option<Leaf>) {
    (a.None? && b.None?) || (a.Some? && b.Some? && Serves(a.value, b.value) && a.value.flags == b.value.flags)
  }

  /** The same translation with at least the old leaf flags. */
  predicate Grows(a: Option<Leaf>, b: Option<Leaf>) {
    (a.None? && b.None?) || (a.Some? && b.Some? && Serves(a.value, b.value) && a.value.flags <= b.value.flags)
  }

  // ---------------------------------------------------------------
  // Basic consequences of the invariant
  // ---------------------------------------------------------------

  lemma {:induction false} KernelSame(s: State, mem: Memory, q: Path)
    requires KernelOk(s) && IsPath(q)
    requires forall t | t in s.kernel :: t in mem && mem[t] == s.mem[t]
    ensures KernelTable(mem, s.root, q) == KernelTable(s.mem, s.root, q)
    decreases |q|
  {
    if q != [] {
      KernelSame(s, mem, q[..|q| - 1]);
    }
  }

  lemma KernelEntrySame(s: State, mem: Memory, q: Path, i: nat)
    requires KernelOk(s) && IsPath(q)
    requires forall t | t in s.kernel :: t in mem && mem[t] == s.mem[t]
    ensures KernelEntry(mem, s.root, q, i) == KernelEntry(s.mem, s.root, q, i)
  {
    KernelSame(s, mem, q);
  }

  lemma KernelChild(s: State, q: Path, i: nat)
    requires KernelOk(s) && IsPath(q + [i]) && KernelTable(s.mem, s.root, q).Some?
    requires Link(s.mem[KernelTable(s.mem, s.root, q).value][i])
    ensures KernelTable(s.mem, s.root, q).value in s.kernel
    ensures KernelTable(s.mem, s.root, q + [i]) == Some(s.mem[KernelTable(s.mem, s.root, q).value][i].addr)
  {
    assert (q + [i])[..|q|] == q;
    assert IsPath(q);
  }
}

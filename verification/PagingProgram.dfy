/** Programs of paging operations: what every run over any number of processes keeps. */
module PagingProgram {
  import opened Options
  import opened PageTables
  import opened PagingSteps
  import opened PagingHooks
  import opened PagingMap
  import opened PagingRange
  import opened PagingLife
  import opened PagingDestroy
  import opened PagingUser
  import opened PagingElf
  import opened PagingUnmap
  import opened PagingRuns
  import opened PagingFrames
  import opened AddressSpaces

  /** One operation; p is the L4 frame of a process. */
  datatype Op =
    | Create
    | Map(p: nat, start: nat, count: nat, writable: bool)
    | Load(p: nat, start: nat, size: nat, previous: seq<nat>, elfFlags: nat)
    | Mark(p: nat, start: nat, size: nat)
    | Unmap(p: nat, start: nat, count: nat)
    | Destroy(p: nat)

  function Names(op: Op): set<nat> {
    if op.Create? then {} else {op.p}
  }

  function AllNames(ops: seq<Op>): set<nat> {
    if ops == [] then {} else AllNames(ops[..|ops| - 1]) + Names(ops[|ops| - 1])
  }

  /** The processes and mapped pages that the caller keeps track of. */
  datatype Ledger = Ledger(live: set<nat>, data: map<Place, nat>)

  type Reachable = map<nat, iset<seq<nat>>>

  ghost predicate Balanced(s: State, l: Ledger, reach: Reachable) {
    Accounts(s, l.live, l.data, reach)
  }

  /** What the user code of p reaches after an operation that adds or takes pages. */
  ghost function Updated(reach: Reachable, p: nat, add: iset<seq<nat>>, take: iset<seq<nat>>): Reachable {
    if p in reach then reach[p := reach[p] + add - take] else reach
  }

  /** What user code reaches after an operation: marking gives up the account of its process. */
  ghost function ReachAfter(reach: Reachable, op: Op): Reachable {
    match op
    case Create => reach
    case Map(p, start, count, _) => Updated(reach, p, RangePages(start, count), iset{})
    case Load(p, start, size, _, _) =>
      Updated(reach, p, RangePages(PageStart(start), SegmentPages(start, size)), iset{})
    case Mark(p, _, _) => reach - {p}
    case Unmap(p, start, count) => Updated(reach, p, iset{}, RangePages(start, count))
    case Destroy(p) => reach - {p}
  }

  /** What came of an operation: a process was born, it was done, or there was nothing to do. */
  datatype Event = Born(f: nat) | Done(op: Op) | Idle(op: Op)

  /** A new process reaches nothing if no leaf of the kernel is marked USER; else its account is not kept. */
  ghost function After(private: bool, reach: Reachable, e: Event): Reachable {
    match e
    case Born(f) => if private then reach[f := iset{}] else reach
    case Done(op) => ReachAfter(reach, op)
    case Idle(_) => reach
  }

  ghost function Replay(private: bool, reach: Reachable, log: seq<Event>): Reachable {
    if log == [] then reach else After(private, Replay(private, reach, log[..|log| - 1]), log[|log| - 1])
  }

  predicate EventOf(e: Event, op: Op) {
    match e
    case Born(_) => op.Create?
    case Done(o) => o == op && !op.Create?
    case Idle(o) => o == op
  }

  predicate LogOf(log: seq<Event>, ops: seq<Op>) {
    |log| == |ops| && forall i | 0 <= i < |log| :: EventOf(log[i], ops[i])
  }

  /** A frame leaves the account: a noted page is mapped over, or a destroyed table or noted page does not come back. */
  ghost predicate Loses(s: State, l: Ledger, op: Op) {
    match op
    case Map(p, start, count, _) => p in l.live && !MapsFresh(l.data, p, start, count)
    case Destroy(p) => p in l.live && !DestroysAll(s, p, l.data)
    case _ => false
  }

  /** What an operation does to the account of frames; a loaded segment's frames are on the process's own list. */
  ghost predicate Reckoned(s: State, l: Ledger, s': State, l': Ledger, op: Op) {
    if op.Load? then Total(s', l'.data) <= Total(s, l.data)
    else Conserved(s, l.data, s', l'.data, Loses(s, l, op))
  }

  method DoCreate(m: PagingState, l: Ledger, ghost reach: Reachable) returns (r: Option<nat>, l': Ledger)
    requires Balanced(m.View(), l, reach)
    modifies m
    ensures StepSafe(old(m.View()), m.View(), {})
    ensures Reckoned(old(m.View()), l, m.View(), l', Create)
    ensures r.None? ==> Balanced(m.View(), l', reach) && old(m.free) == {}
    ensures r.Some? ==> r.value !in l.live
    ensures r.Some? ==> Balanced(m.View(), l', After(KernelPrivate(old(m.View())), reach, Born(r.value)))
  {
    ghost var s := m.View();
    r := m.CreateProcessPageTable();
    l' := l;
    if r.None? {
      SafeRefl(s);
    } else {
      CreateOthers(s, r.value);
      CreateBalanced(s, r.value, l, reach);
      CreateConserves(s, r.value, l.data);
      l' := l.(live := l.live + {r.value});
    }
  }

  method DoMap(m: PagingState, op: Op, l: Ledger, ghost reach: Reachable) returns (ok: bool, l': Ledger)
    requires op.Map? && op.p in l.live && Balanced(m.View(), l, reach)
    modifies m
    ensures StepSafe(old(m.View()), m.View(), {op.p})
    ensures ok ==> Balanced(m.View(), l', ReachAfter(reach, op)) && Reckoned(old(m.View()), l, m.View(), l', op)
    ensures !ok ==> |old(m.free)| <= 7 * op.count
  {
    ghost var s := m.View();
    var r := m.MapAnonymousPages(op.p, op.start, op.count, op.writable);
    ConfinedSafe(s, m.View(), op.p);
    if r.None? { return false, l; }
    MapBalanced(s, m.View(), op.p, op.start, r.value, LeafFlags(op.writable), l, reach);
    MapConserves(s, m.View(), l.data, op.p, op.start, r.value, LeafFlags(op.writable));
    l' := l.(data := Noted(l.data, op.p, op.start, r.value));
    ok := true;
  }

  method DoLoad(m: PagingState, op: Op, l: Ledger, ghost reach: Reachable) returns (ok: bool, l': Ledger)
    requires op.Load? && op.p in l.live && Balanced(m.View(), l, reach)
    modifies m
    ensures StepSafe(old(m.View()), m.View(), {op.p})
    ensures ok ==> Balanced(m.View(), l', ReachAfter(reach, op)) && Reckoned(old(m.View()), l, m.View(), l', op)
  {
    ghost var s := m.View();
    var r := m.MapUserPages(op.p, op.start, op.size, op.previous, op.elfFlags);
    ConfinedSafe(s, m.View(), op.p);
    if r.None? { return false, l; }
    var first := PageStart(op.start);
    LoadBalanced(s, m.View(), op.p, first, r.value, l, reach);
    LoadBounded(s, m.View(), l.data, op.p, first, r.value);
    l' := l.(data := Dropped(l.data, op.p, first, |r.value|));
    ok := true;
  }

  method DoMark(m: PagingState, op: Op, l: Ledger, ghost reach: Reachable) returns (ok: bool)
    requires op.Mark? && op.p in l.live && Balanced(m.View(), l, reach)
    modifies m
    ensures StepSafe(old(m.View()), m.View(), {op.p})
    ensures Balanced(m.View(), l, ReachAfter(reach, op)) && Reckoned(old(m.View()), l, m.View(), l, op)
  {
    ghost var s, count := m.View(), 0;
    var panicked;
    panicked, count := m.SetUserAccessible(op.p, op.start, op.size);
    ConfinedSafe(s, m.View(), op.p);
    MarkBalanced(s, m.View(), op.p, l, reach);
    MarkConserves(s, m.View(), op.p, l.data);
    ok := !panicked;
  }

  method DoUnmap(m: PagingState, op: Op, l: Ledger, ghost reach: Reachable) returns (l': Ledger)
    requires op.Unmap? && op.p in l.live && Balanced(m.View(), l, reach) && AllNoted(l.data, op.p, op.start, op.count)
    modifies m
    ensures StepSafe(old(m.View()), m.View(), {op.p})
    ensures Balanced(m.View(), l', ReachAfter(reach, op)) && Reckoned(old(m.View()), l, m.View(), l', op)
  {
    ghost var s := m.View();
    NotedUnmappable(s, l.data, op.p, op.start, op.count);
    var frames, ok := m.UnmapPages(op.p, op.start, op.count);
    UnmapSafe(s, m.View(), op.p, op.start, op.count, frames);
    UnmapBalanced(s, m.View(), op.p, op.start, op.count, frames, l, reach);
    UnmapConserves(s, m.View(), l.data, op.p, op.start, op.count, frames);
    l' := l.(data := Dropped(l.data, op.p, op.start, op.count));
  }

  method DoDestroy(m: PagingState, p: nat, l: Ledger, ghost reach: Reachable) returns (l': Ledger)
    requires p in l.live && Balanced(m.View(), l, reach)
    modifies m
    ensures StepSafe(old(m.View()), m.View(), {p})
    ensures Balanced(m.View(), l', ReachAfter(reach, Destroy(p)))
    ensures Reckoned(old(m.View()), l, m.View(), l', Destroy(p))
  {
    ghost var s := m.View();
    m.DestroyProcessPageTable(p);
    DestroyOthers(s, p);
    DestroyBalanced(s, p, l, reach);
    DestroyConserves(s, p, l.data);
    l' := Ledger(l.live - {p}, Gone(l.data, p));
  }

  /** An operation on a process that does not live, and unmapping a page that is not noted, do nothing. */
  method Execute(m: PagingState, op: Op, l: Ledger, ghost reach: Reachable)
    returns (ok: bool, l': Ledger, ghost e: Event)
    requires Balanced(m.View(), l, reach)
    modifies m
    ensures StepSafe(old(m.View()), m.View(), Names(op)) && EventOf(e, op)
    ensures ok ==> Balanced(m.View(), l', After(KernelPrivate(old(m.View())), reach, e))
    ensures ok ==> Reckoned(old(m.View()), l, m.View(), l', op)
    ensures !ok ==> op.Map? || op.Load? || op.Mark?
    ensures e.Idle? ==> old(m.free) == {} || (!op.Create? && op.p !in l.live)
                        || (op.Unmap? && !AllNoted(l.data, op.p, op.start, op.count))
  {
    ok, l', e := true, l, Idle(op);
    if !op.Create? && (op.p !in l.live || (op.Unmap? && !AllNoted(l.data, op.p, op.start, op.count))) {
      SafeRefl(m.View());
      Wider(m.View(), m.View(), {}, Names(op));
      return;
    }
    match op {
      case Create =>
        var f;
        f, l' := DoCreate(m, l, reach);
        e := if f.Some? then Born(f.value) else Idle(op);
      case Map(_, _, _, _) => ok, l' := DoMap(m, op, l, reach);
      case Load(_, _, _, _, _) => ok, l' := DoLoad(m, op, l, reach);
      case Mark(_, _, _) => ok := DoMark(m, op, l, reach);
      case Unmap(_, _, _) => l' := DoUnmap(m, op, l, reach);
      case Destroy(p) => l' := DoDestroy(m, p, l, reach);
    }
    if !op.Create? { e := Done(op); }
  }

  /**
   Runs operations until one panics. Whatever happens, no entry of a kernel table changes and every process that
   no operation names sees what it saw. Without a panic the ledger is exact, and so is what user code reaches.
   */
  method Run(m: PagingState, ops: seq<Op>, l: Ledger, ghost reach: Reachable)
    returns (halted: bool, l': Ledger, ghost log: seq<Event>)
    requires Balanced(m.View(), l, reach)
    modifies m
    ensures m.Valid() && KernelKept(old(m.View()), m.View())
    ensures OthersSame(old(m.View()), m.View(), AllNames(ops))
    ensures !halted ==> LogOf(log, ops)
    ensures !halted ==> Balanced(m.View(), l', Replay(KernelPrivate(old(m.View())), reach, log))
    ensures !halted ==> Total(m.View(), l'.data) <= Total(old(m.View()), l.data)
  {
    ghost var s := m.View();
    l', log := l, [];
    SafeRefl(s);
    for i := 0 to |ops|
      invariant Progress(s, l, reach, ops[..i], m.View(), l', log) == true
    {
      assert ops[..i + 1] == ops[..i] + [ops[i]];
      var ok;
      ok, l', log := RunNext(m, ops[..i], ops[i], l', s, l, reach, log);
      if !ok {
        MoreNames(ops, i + 1);
        Wider(s, m.View(), AllNames(ops[..i + 1]), AllNames(ops));
        return true, l', log;
      }
    }
    assert ops[..|ops|] == ops;
    halted := false;
  }

  /** How things stand after the operations done, since s and l. */
  ghost predicate Progress(s: State, l: Ledger, reach: Reachable, done: seq<Op>, s': State, l': Ledger,
                           log: seq<Event>)
  {
    && LogOf(log, done) && Balanced(s', l', Replay(KernelPrivate(s), reach, log))
    && StepSafe(s, s', AllNames(done)) && Total(s', l'.data) <= Total(s, l.data)
  }

  method RunNext(m: PagingState, ghost done: seq<Op>, op: Op, l1: Ledger, ghost s: State, ghost l: Ledger,
                 ghost reach: Reachable, ghost log: seq<Event>)
    returns (ok: bool, l': Ledger, ghost log': seq<Event>)
    requires Inv(s) && Progress(s, l, reach, done, m.View(), l1, log)
    modifies m
    ensures StepSafe(s, m.View(), AllNames(done + [op]))
    ensures ok ==> Progress(s, l, reach, done + [op], m.View(), l', log')
  {
    ghost var s1, e := m.View(), Idle(op);
    PrivateKept(s, s1);
    ok, l', e := Execute(m, op, l1, Replay(KernelPrivate(s), reach, log));
    assert (done + [op])[..|done|] == done && (log + [e])[..|log|] == log;
    SafeTrans(s, s1, m.View(), AllNames(done), Names(op));
    log' := log + [e];
  }

  /** Mapping a range and unmapping it gives back exactly the frames it took; every other page is as before. */
  method MapThenUnmap(m: PagingState, p: nat, start: nat, count: nat, writable: bool) returns (r: Option<seq<nat>>)
    requires m.Valid() && Node(p, []) in m.owned && count <= 0x10_0000_0000
    modifies m
    ensures m.Valid()
    ensures r.Some? ==> Elements(r.value) <= m.free && Cleared(m.View(), p, start, count)
    ensures r.Some? ==> OutsideSame(old(m.View()), m.View(), p, start, count)
  {
    ghost var s := m.View();
    r := m.MapAnonymousPages(p, start, count, writable);
    if r.None? { return; }
    ghost var s1 := m.View();
    MappedUnmappable(s, s1, p, start, r.value, LeafFlags(writable));
    var back, ok := m.UnmapPages(p, start, count);
    MappedThenUnmapped(s, s1, m.View(), p, start, r.value, LeafFlags(writable), back);
  }

  /**
   A kernel without entries, one process, one page: destroying the process loses the frames of its L2 and L1
   tables. They are neither free nor part of any page table, and no process is left.
   */
  method LeakExample() returns (m: PagingState, ghost lost: set<nat>)
    ensures fresh(m) && m.Valid() && m.owned == map[] && |lost| == 2
    ensures forall f | f in lost :: Fresh(m.View(), f)
  {
    var p;
    m, p := MapOnePage();
    lost := LostTables(m.View(), p, PageAt(0, 0));
    m.DestroyProcessPageTable(p);
  }

  method MapOnePage() returns (m: PagingState, p: nat)
    ensures fresh(m) && m.Valid() && Node(p, []) in m.owned && Without(m.owned, p) == map[]
    ensures Node(p, PageAt(0, 0)[..3]) in m.owned && m.mem[m.root][PageAt(0, 0)[0]] == UNUSED
  {
    m, p := BareProcess();
    ghost var s1 := m.View();
    var frames := m.MapAnonymousPages(p, 0, 1, true);
    OnePage(s1, m.View(), p, 0, frames.value, LeafFlags(true));
  }

  method BareProcess() returns (m: PagingState, p: nat)
    ensures fresh(m) && m.Valid() && m.owned == map[Node(p, []) := p] && |m.free| == 8
    ensures m.root in m.mem && IsZero(m.mem[m.root])
  {
    m := BareKernel(9);
    var r := m.CreateProcessPageTable();
    p := r.value;
  }

  /** The frames lost when the only process, with a page below an unused entry of the kernel, is destroyed. */
  lemma LostTables(s: State, p: nat, page: seq<nat>) returns (lost: set<nat>)
    requires Inv(s) && Without(s.owned, p) == map[] && IsPage(page) && s.mem[s.root][page[0]] == UNUSED
    requires Node(p, page[..3]) in s.owned
    ensures |lost| == 2 && forall f | f in lost :: Fresh(Destroyed(s, p), f)
  {
    var m, n := Node(p, page[..2]), Node(p, page[..3]);
    LeaksBelowUnused(s, p, page);
    LostFresh(s, p, m);
    LostFresh(s, p, n);
    lost := {s.owned[m], s.owned[n]};
  }

  lemma OnePage(s: State, s': State, p: nat, start: nat, frames: seq<nat>, flags: set<Flag>)
    requires Inv(s) && s.owned == map[Node(p, []) := p] && |frames| == 1 && RangeMapped(s, s', p, start, frames, flags)
    ensures Without(s'.owned, p) == map[] && Node(p, PageAt(start, 0)[..3]) in s'.owned
    ensures s'.root == s.root && s.root in s'.mem && s'.mem[s.root] == s.mem[s.root]
  {
    assert LastOf(start, 0, 1);
    OnlyProcess(s, s', p);
    ConfinedIsolates(s, s', p);
  }

  lemma LostFresh(s: State, p: nat, n: Node)
    requires Inv(s) && n in s.owned && Without(s.owned, p) == map[]
    requires s.owned[n] !in s.free + Destroyed(s, p).free + s.kernel
    ensures Fresh(Destroyed(s, p), s.owned[n])
  {
  }

  /** A kernel with an empty L4 table and n free frames. */
  method BareKernel(n: nat) returns (m: PagingState)
    ensures fresh(m) && m.Valid() && m.owned == map[] && |m.free| == n
    ensures forall i | 0 <= i < 512 :: m.mem[m.root][i] == UNUSED
  {
    var free: set<nat> := {};
    for i := 0 to n
      invariant |free| == i && forall f | f in free :: 4096 < f <= (i + 1) * 4096
    {
      free := free + {(i + 2) * 4096};
    }
    var frames := free + {4096};
    var mem: Memory := map f | f in frames :: ZERO_TABLE;
    BareOk(State(mem, free, 4096, {4096}, map[]));
    m := new PagingState(mem, free, 4096, {4096});
  }

  /** A root table without entries is a kernel with one table. */
  lemma BareOk(s: State)
    requires s.root in s.mem && s.root !in s.free && s.kernel == {s.root} && s.owned == map[]
    requires MemoryOk(s) && IsZero(s.mem[s.root])
    ensures KernelOk(s)
  {
    forall q | IsPath(q) && KernelTable(s.mem, s.root, q).Some? ensures KernelTable(s.mem, s.root, q) == Some(s.root) {
      BareTable(s, q);
    }
  }

  lemma {:induction false} BareTable(s: State, q: Path)
    requires IsTable(s.mem, s.root) && IsZero(s.mem[s.root])
    ensures KernelTable(s.mem, s.root, q) == if q == [] then Some(s.root) else None
    decreases |q|
  {
    if q != [] { BareTable(s, q[..|q| - 1]); }
  }

  lemma OnlyProcess(s: State, s': State, p: nat)
    requires Inv(s) && Confined(s, s', p) && s.owned == map[Node(p, []) := p]
    ensures Without(s'.owned, p) == map[]
  {
    forall n | n in s'.owned ensures n.proc == p {}
  }

  // ---------------------------------------------------------------
  // Each operation keeps the account
  // ---------------------------------------------------------------

  lemma CreateBalanced(s: State, f: nat, l: Ledger, reach: Reachable)
    requires Balanced(s, l, reach) && f in s.free
    ensures f !in l.live
    ensures Balanced(Created(s, f), l.(live := l.live + {f}), After(KernelPrivate(s), reach, Born(f)))
  {
    CreatedOk(s, f);
    CreateOthers(s, f);
    CreateData(s, f, l.data);
    if KernelPrivate(s) { CreateReach(s, f); }
    NoPositions(s, f, []);
    ReachStep(s, Created(s, f), f, reach, After(KernelPrivate(s), reach, Born(f)));
  }

  lemma Gained(s: State, p: nat, reach: Reachable, pages: iset<seq<nat>>)
    requires p in reach && ReachIs(s, p, reach[p] + pages)
    ensures ReachIs(s, p, reach[p] + pages - iset{})
  {
    assert reach[p] + pages == reach[p] + pages - iset{};
  }

  lemma MapBalanced(s: State, s': State, p: nat, start: nat, frames: seq<nat>, flags: set<Flag>, l: Ledger,
                    reach: Reachable)
    requires Balanced(s, l, reach) && p in l.live && RangeMapped(s, s', p, start, frames, flags) && User in flags
    ensures Balanced(s', l.(data := Noted(l.data, p, start, frames)),
                     Updated(reach, p, RangePages(start, |frames|), iset{}))
  {
    MapData(s, s', l.data, p, start, frames, flags);
    if p in reach {
      MapReach(s, s', p, start, frames, flags, reach[p]);
      Gained(s', p, reach, RangePages(start, |frames|));
    }
    SettleUpdated(s, s', p, l.live, reach, RangePages(start, |frames|), iset{});
  }

  lemma LoadBalanced(s: State, s': State, p: nat, start: nat, frames: seq<nat>, l: Ledger, reach: Reachable)
    requires Balanced(s, l, reach) && p in l.live && Inv(s') && Confined(s, s', p)
    requires RangeLoaded(s, s', p, start, frames)
    ensures Balanced(s', l.(data := Dropped(l.data, p, start, |frames|)),
                     Updated(reach, p, RangePages(start, |frames|), iset{}))
  {
    LoadData(s, s', l.data, p, start, |frames|);
    if p in reach {
      LoadReach(s, s', p, start, frames, reach[p]);
      Gained(s', p, reach, RangePages(start, |frames|));
    }
    SettleUpdated(s, s', p, l.live, reach, RangePages(start, |frames|), iset{});
  }

  lemma MarkBalanced(s: State, s': State, p: nat, l: Ledger, reach: Reachable)
    requires Balanced(s, l, reach) && p in l.live && Widened(s, s', p)
    ensures Balanced(s', l, reach - {p})
  {
    MarkData(s, s', l.data, p);
    Settle(s, s', p, l.live, reach, reach - {p});
  }

  lemma UnmapBalanced(s: State, s': State, p: nat, start: nat, count: nat, frames: seq<nat>, l: Ledger,
                      reach: Reachable)
    requires Balanced(s, l, reach) && p in l.live && AllNoted(l.data, p, start, count)
    requires Unmapped(s, s', p, start, count, frames)
    ensures Balanced(s', l.(data := Dropped(l.data, p, start, count)),
                     Updated(reach, p, iset{}, RangePages(start, count)))
  {
    UnmapData(s, s', l.data, p, start, count, frames);
    UnmapLive(s, s', p, start, count, frames, l.live);
    UnmapReaches(s, s', p, start, count, frames, reach);
  }

  lemma UnmapReaches(s: State, s': State, p: nat, start: nat, count: nat, frames: seq<nat>, reach: Reachable)
    requires Inv(s) && ReachOk(s, reach) && Unmapped(s, s', p, start, count, frames)
    requires Node(p, []) in s'.owned
    ensures ReachOk(s', Updated(reach, p, iset{}, RangePages(start, count)))
  {
    UnmapSafe(s, s', p, start, count, frames);
    if p in reach {
      UnmapReach(s, s', p, start, count, reach[p]);
      assert reach[p] + iset{} - RangePages(start, count) == reach[p] - RangePages(start, count);
    }
    FinishUpdated(s, s', p, reach, iset{}, RangePages(start, count));
  }

  lemma DestroyBalanced(s: State, p: nat, l: Ledger, reach: Reachable)
    requires Balanced(s, l, reach) && p in l.live
    ensures Balanced(Destroyed(s, p), Ledger(l.live - {p}, Gone(l.data, p)), reach - {p})
  {
    DestroyedOk(s, p);
    DestroyOthers(s, p);
    DestroyData(s, p, l.data);
    ReachStep(s, Destroyed(s, p), p, reach, reach - {p});
  }

  // ---------------------------------------------------------------
  // Steps of one process
  // ---------------------------------------------------------------

  lemma SettleUpdated(s: State, s': State, p: nat, live: set<nat>, reach: Reachable, add: iset<seq<nat>>,
                      take: iset<seq<nat>>)
    requires Inv(s) && Inv(s') && Confined(s, s', p) && p in live && LiveOk(s, live)
    requires ReachOk(s, reach) && (p in reach ==> ReachIs(s', p, reach[p] + add - take))
    ensures LiveOk(s', live) && ReachOk(s', Updated(reach, p, add, take))
  {
    Settle(s, s', p, live, reach, Updated(reach, p, add, take));
  }

  lemma FinishUpdated(s: State, s': State, p: nat, reach: Reachable, add: iset<seq<nat>>, take: iset<seq<nat>>)
    requires Inv(s) && StepSafe(s, s', {p}) && ReachOk(s, reach) && Node(p, []) in s'.owned
    requires p in reach ==> ReachIs(s', p, reach[p] + add - take)
    ensures ReachOk(s', Updated(reach, p, add, take))
  {
    ReachStep(s, s', p, reach, Updated(reach, p, add, take));
  }

  /** The parts of the account that a confined step of p keeps anyway. */
  lemma Settle(s: State, s': State, p: nat, live: set<nat>, reach: Reachable, reach': Reachable)
    requires Inv(s) && Inv(s') && Confined(s, s', p) && p in live && LiveOk(s, live)
    requires ReachOk(s, reach) && (forall q | q in reach' && q != p :: q in reach && reach'[q] == reach[q])
    requires p in reach' ==> ReachIs(s', p, reach'[p])
    ensures LiveOk(s', live) && ReachOk(s', reach')
  {
    ConfinedSafe(s, s', p);
    ConfinedLive(s, s', p, live);
    ReachStep(s, s', p, reach, reach');
  }

  lemma UnmapSafe(s: State, s': State, p: nat, start: nat, count: nat, frames: seq<nat>)
    requires Inv(s) && Unmapped(s, s', p, start, count, frames)
    ensures StepSafe(s, s', {p})
  {
    LessFree(s', s.free);
    ConfinedSafe(s, s'.(free := s.free), p);
    forall q | q !in {p} && Node(q, []) in s.owned ensures SeesSame(s, s', q) {
      assert SeesSame(s, s'.(free := s.free), q);
    }
  }

  lemma UnmapLive(s: State, s': State, p: nat, start: nat, count: nat, frames: seq<nat>, live: set<nat>)
    requires Inv(s) && Unmapped(s, s', p, start, count, frames) && LiveOk(s, live) && p in live
    ensures LiveOk(s', live)
  {
    ConfinedLive(s, s'.(free := s.free), p, live);
  }

  lemma SafeRefl(s: State)
    requires Inv(s)
    ensures StepSafe(s, s, {})
  {
    assert forall t | t in s.kernel :: IsTable(s.mem, t);
  }

  lemma Wider(s: State, s': State, a: set<nat>, b: set<nat>)
    requires StepSafe(s, s', a) && a <= b
    ensures StepSafe(s, s', b)
  {
  }

  lemma {:induction false} MoreNames(ops: seq<Op>, i: nat)
    requires i <= |ops|
    ensures AllNames(ops[..i]) <= AllNames(ops)
    decreases |ops|
  {
    if i < |ops| {
      var n := |ops| - 1;
      assert ops[..n][..i] == ops[..i];
      MoreNames(ops[..n], i);
    } else {
      assert ops[..i] == ops;
    }
  }
}

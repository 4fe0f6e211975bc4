/** The translation a mapped page gets, and what a whole mapping run leaves behind. */
module PagingMap {
  import opened Options
  import opened PageTables
  import opened PagingSteps
  import opened PagingHooks

  // ---------------------------------------------------------------
  // Virtual addresses
  // ---------------------------------------------------------------

  /** The four table indices of a virtual address. */
  function PageOf(va: nat): (page: seq<nat>)
    ensures IsPage(page)
  {
    [(va / 0x80_0000_0000) % 512, (va / 0x4000_0000) % 512, (va / 0x20_0000) % 512, (va / 4096) % 512]
  }

  /** The page number, modulo 2^36, that four indices spell in base 512. */
  function Number(page: seq<nat>): nat
    requires IsPage(page)
  {
    ((page[0] * 512 + page[1]) * 512 + page[2]) * 512 + page[3]
  }

  lemma Shifts(va: nat)
    ensures va / 0x20_0000 == va / 4096 / 512
    ensures va / 0x4000_0000 == va / 0x20_0000 / 512
    ensures va / 0x80_0000_0000 == va / 0x4000_0000 / 512
  {
  }

  lemma Digit0(x: nat)
    ensures x % 0x10_0000_0000 == (x / 512) % 0x800_0000 * 512 + x % 512
  {
    var a, r := x / 512, x % 512;
    var b, d := a / 0x800_0000, a % 0x800_0000;
    assert x == b * 0x10_0000_0000 + (d * 512 + r);
  }

  lemma Digit1(x: nat)
    ensures x % 0x800_0000 == (x / 512) % 0x4_0000 * 512 + x % 512
  {
    var a, r := x / 512, x % 512;
    var b, d := a / 0x4_0000, a % 0x4_0000;
    assert x == b * 0x800_0000 + (d * 512 + r);
  }

  lemma Digit2(x: nat)
    ensures x % 0x4_0000 == (x / 512) % 512 * 512 + x % 512
  {
    var a, r := x / 512, x % 512;
    var b, d := a / 512, a % 512;
    assert x == b * 0x4_0000 + (d * 512 + r);
  }

  lemma Digits(va: nat)
    ensures Number(PageOf(va)) == (va / 4096) % 0x10_0000_0000
  {
    Shifts(va);
    Digit0(va / 4096);
    Digit1(va / 0x20_0000);
    Digit2(va / 0x4000_0000);
  }

  /** The four indices and the offset are the digits of the low 48 bits of the address. */
  lemma PageOfDigits(va: nat)
    ensures var page := PageOf(va);
            page[0] * 0x80_0000_0000 + page[1] * 0x4000_0000 + page[2] * 0x20_0000 + page[3] * 4096 + va % 4096
            == va % 0x1_0000_0000_0000
  {
    Digits(va);
    var n, r := va / 4096, va % 4096;
    var b, d := n / 0x10_0000_0000, n % 0x10_0000_0000;
    assert va == b * 0x1_0000_0000_0000 + (d * 4096 + r);
  }

  lemma NumberInjective(page: seq<nat>, other: seq<nat>)
    requires IsPage(page) && IsPage(other) && Number(page) == Number(other)
    ensures page == other
  {
    var a, b := (page[0] * 512 + page[1]) * 512 + page[2], (other[0] * 512 + other[1]) * 512 + other[2];
    assert a == b && page[3] == other[3];
    assert page[0] * 512 + page[1] == other[0] * 512 + other[1] && page[2] == other[2];
    assert page == [page[0], page[1], page[2], page[3]];
    assert other == [other[0], other[1], other[2], other[3]];
  }

  /** Two addresses share a page exactly when their page numbers agree modulo 2^36. */
  lemma PageOfPeriod(a: nat, b: nat)
    ensures PageOf(a) == PageOf(b) <==> (a / 4096) % 0x10_0000_0000 == (b / 4096) % 0x10_0000_0000
  {
    Digits(a);
    Digits(b);
    if Number(PageOf(a)) == Number(PageOf(b)) {
      NumberInjective(PageOf(a), PageOf(b));
    }
  }

  /** Remainders are determined by a quotient and a bounded rest. */
  lemma Offset2M(va: nat)
    ensures va % 0x20_0000 == (va / 4096) % 512 * 4096 + va % 4096
  {
    var a, r := va / 4096, va % 4096;
    var b, d := a / 512, a % 512;
    assert va == b * 0x20_0000 + (d * 4096 + r);
  }

  lemma Offset1G(va: nat)
    ensures va % 0x4000_0000 == (va / 0x20_0000) % 512 * 0x20_0000 + va % 0x20_0000
  {
    var a, r := va / 0x20_0000, va % 0x20_0000;
    var b, d := a / 512, a % 512;
    assert va == b * 0x4000_0000 + (d * 0x20_0000 + r);
  }

  /** The offset inside a huge page is made of the lower indices and the page offset. */
  lemma HugeOffset(va: nat)
    ensures va % 0x20_0000 == Within(2, PageOf(va)) + va % 4096
    ensures va % 0x4000_0000 == Within(1, PageOf(va)) + va % 4096
  {
    Offset2M(va);
    Offset1G(va);
  }

  // ---------------------------------------------------------------
  // Walks through owned tables
  // ---------------------------------------------------------------

  lemma {:induction false} PrefixOwned(s: State, p: nat, page: seq<nat>, d: nat, m: nat)
    requires Inv(s) && IsPage(page) && d <= m <= 3 && Node(p, page[..m]) in s.owned
    ensures Node(p, page[..d]) in s.owned
    ensures d < m ==> Node(p, page[..d + 1]) in s.owned
    ensures d < m ==> Link(EntryOf(s, Node(p, page[..d]), page[d]))
                      && EntryOf(s, Node(p, page[..d]), page[d]).addr == s.owned[Node(p, page[..d + 1])]
    decreases m
  {
    if d < m {
      var n := Node(p, page[..m - 1]);
      assert page[..m] == page[..m - 1] + [page[m - 1]];
      assert Child(n, page[m - 1]) == Node(p, page[..m]);
      PrefixOwned(s, p, page, d, m - 1);
    }
  }

  /** The flag on all three entries above an owned L1 table. */
  ghost predicate Above(s: State, p: nat, page: seq<nat>, f: Flag)
    requires IsPage(page)
  {
    && f in EntryOf(s, Node(p, page[..0]), page[0]).flags
    && f in EntryOf(s, Node(p, page[..1]), page[1]).flags
    && f in EntryOf(s, Node(p, page[..2]), page[2]).flags
  }

  /** User code gets to the L1 table with every right. */
  ghost predicate OpenAbove(s: State, p: nat, page: seq<nat>)
    requires IsPage(page)
  {
    Above(s, p, page, User) && Above(s, p, page, Writable)
  }

  /** The flag on the entries above the L1 table, from depth d on. */
  ghost predicate FlagFrom(s: State, p: nat, page: seq<nat>, d: nat, f: Flag)
    requires IsPage(page) && d <= 3
    decreases 3 - d
  {
    d == 3 || (f in EntryOf(s, Node(p, page[..d]), page[d]).flags && FlagFrom(s, p, page, d + 1, f))
  }

  /** What the L1 entry of a page gives when the walk starts at depth d. */
  ghost function ServedFrom(s: State, p: nat, page: seq<nat>, d: nat): Option<Leaf>
    requires IsPage(page) && d <= 3
  {
    var e := EntryOf(s, Node(p, page[..3]), page[3]);
    if e == UNUSED then None else Some(Leaf(e.addr, e.flags, FlagFrom(s, p, page, d, User),
                                            FlagFrom(s, p, page, d, Writable), 3))
  }

  lemma {:induction false} OwnedFrom(s: State, p: nat, page: seq<nat>, d: nat)
    requires Inv(s) && IsPage(page) && Node(p, page[..3]) in s.owned && d <= 3
    ensures Node(p, page[..d]) in s.owned
    ensures Walk(s.mem, s.owned[Node(p, page[..d])], d, page) == ServedFrom(s, p, page, d)
    decreases 3 - d
  {
    PrefixOwned(s, p, page, d, 3);
    if d < 3 {
      OwnedFrom(s, p, page, d + 1);
      var n, n' := Node(p, page[..d]), Node(p, page[..d + 1]);
      WalkLink(s.mem, s.owned[n], d, page, EntryOf(s, n, page[d]), Walk(s.mem, s.owned[n'], d + 1, page));
    } else {
      WalkLeaf(s.mem, s.owned[Node(p, page[..3])], page);
    }
  }

  lemma WalkLink(mem: Memory, t: nat, d: nat, page: seq<nat>, e: Entry, below: Option<Leaf>)
    requires IsPage(page) && d < 3 && IsTable(mem, t) && mem[t][page[d]] == e && Link(e)
    requires Walk(mem, e.addr, d + 1, page) == below
    ensures Walk(mem, t, d, page) == Below(e, below)
  {
  }

  lemma WalkLeaf(mem: Memory, t: nat, page: seq<nat>)
    requires IsPage(page) && IsTable(mem, t)
    ensures Walk(mem, t, 3, page) ==
            if mem[t][page[3]] == UNUSED then None
              else Some(Leaf(mem[t][page[3]].addr, mem[t][page[3]].flags, true, true, 3))
  {
  }

  /** A page whose L1 table is owned is served by that table's entry. */
  lemma OwnedWalk(s: State, p: nat, page: seq<nat>)
    requires Inv(s) && IsPage(page) && Node(p, page[..3]) in s.owned
    ensures var e := EntryOf(s, Node(p, page[..3]), page[3]);
            Trans(s, p, page) == if e == UNUSED then None
                                 else Some(Leaf(e.addr, e.flags, Above(s, p, page, User), Above(s, p, page, Writable),
                                                3))
  {
    OwnedFrom(s, p, page, 0);
    assert page[..0] == [];
    FlagFromAll(s, p, page, User);
    FlagFromAll(s, p, page, Writable);
  }

  lemma FlagFromAll(s: State, p: nat, page: seq<nat>, f: Flag)
    requires IsPage(page)
    ensures FlagFrom(s, p, page, 0, f) == Above(s, p, page, f)
  {
    assert FlagFrom(s, p, page, 3, f);
    assert FlagFrom(s, p, page, 2, f) == (f in EntryOf(s, Node(p, page[..2]), page[2]).flags);
  }

  // ---------------------------------------------------------------
  // Taking a data frame and writing the leaf
  // ---------------------------------------------------------------

  lemma DataStep(s: State, p: nat, f: nat, t: Table)
    requires Inv(s) && f in s.free && |t| == 512 && Node(p, []) in s.owned
    ensures Inv(Fill(Take(s, f), f, t)) && Fresh(Fill(Take(s, f), f, t), f)
    ensures Confined(s, Fill(Take(s, f), f, t), p) && SameTranslations(s, Fill(Take(s, f), f, t), p)
  {
    var s1 := Take(s, f);
    TakeOk(s, f);
    FillOk(s1, f, t);
    var s' := Fill(s1, f, t);
    forall page | IsPage(page) ensures Same(Trans(s, p, page), Trans(s', p, page)) {
      WalkAgrees(s1, s'.mem, Node(p, []), p, page);
    }
    forall g | OwnedBy(s', p, g) ensures OwnedBy(s, p, g) {
      var m :| m in s'.owned && m.proc == p && s'.owned[m] == g;
      assert m in s.owned && s.owned[m] == g;
    }
  }

  /** Writing one L1 entry of an owned table changes the translation of its page only. */
  lemma LeafStep(s: State, n: Node, i: nat, e: Entry)
    requires Inv(s) && n in s.owned && |n.path| == 3 && i < 512 && EntryOk(e)
    ensures CanRewrite(s, n, i, e) && Inv(Rewrite(s, n, i, e)) && Confined(s, Rewrite(s, n, i, e), n.proc)
    ensures OnlyEntry(s, Rewrite(s, n, i, e).mem, n, i)
    ensures forall page | IsPage(page) && page != n.path + [i] ::
              Same(Trans(s, n.proc, page), Trans(Rewrite(s, n, i, e), n.proc, page))
  {
    RewriteOk(s, n, i, e);
    RewriteConfined(s, n, i, e);
    RootOwned(s, n);
    forall page | IsPage(page) && page != n.path + [i]
      ensures Same(Trans(s, n.proc, page), Trans(Rewrite(s, n, i, e), n.proc, page))
    {
      assert Through(n, i, n.proc, page) ==> page == n.path + [i];
      WalkThrough(s, Rewrite(s, n, i, e).mem, n, i, Node(n.proc, []), n.proc, page);
    }
  }

  // ---------------------------------------------------------------
  // One mapped page
  // ---------------------------------------------------------------

  predicate IsZero(t: Table) {
    |t| == 512 && forall i | 0 <= i < 512 :: t[i] == UNUSED
  }

  /** Frame f, formerly free and now zero and in no table, backs the page; all other pages are as before. */
  ghost predicate PageMapped(s: State, s': State, p: nat, page: seq<nat>, f: nat, flags: set<Flag>)
    requires IsPage(page)
  {
    && Inv(s') && Confined(s, s', p) && Spent(s, s', {f}) == true
    && f in s.free && Fresh(s', f) && IsZero(s'.mem[f])
    && Node(p, page[..3]) in s'.owned && Trans(s', p, page) == Some(Leaf(f, flags, true, true, 3))
    && (forall other | IsPage(other) && other != page :: Same(Trans(s, p, other), Trans(s', p, other)))
  }

  function WithFrame(s: State, f: nat, z: Table): State {
    Fill(Take(s, f), f, z)
  }

  /** The state after the frame of e is taken, zeroed and written as the page's L1 entry. */
  function Mapped(s: State, p: nat, page: seq<nat>, e: Entry, z: Table): State
    requires IsPage(page) && Node(p, page[..3]) in s.owned
    requires IsTable(WithFrame(s, e.addr, z).mem, s.owned[Node(p, page[..3])])
  {
    Rewrite(WithFrame(s, e.addr, z), Node(p, page[..3]), page[3], e)
  }

  lemma MapOthers(s: State, p: nat, page: seq<nat>, e: Entry, z: Table)
    requires Inv(s) && IsPage(page) && Node(p, page[..3]) in s.owned && OpenAbove(s, p, page) && IsZero(z)
    requires e.addr in s.free && Present in e.flags
    ensures CanRewrite(WithFrame(s, e.addr, z), Node(p, page[..3]), page[3], e)
    ensures Inv(Mapped(s, p, page, e, z)) && Confined(s, Mapped(s, p, page, e, z), p)
    ensures forall other | IsPage(other) && other != page ::
              Same(Trans(s, p, other), Trans(Mapped(s, p, page, e, z), p, other))
  {
    assert page == page[..3] + [page[3]];
    var n, s1 := Node(p, page[..3]), WithFrame(s, e.addr, z);
    RootOwned(s, n);
    DataStep(s, p, e.addr, z);
    LeafStep(s1, n, page[3], e);
    var s2 := Mapped(s, p, page, e, z);
    ConfinedTrans(s, s1, s2, p);
    OthersAfter(s, s1, s2, p, page);
  }

  lemma OthersAfter(s: State, s1: State, s2: State, p: nat, page: seq<nat>)
    requires SameTranslations(s, s1, p)
    requires forall other | IsPage(other) && other != page :: Same(Trans(s1, p, other), Trans(s2, p, other))
    ensures forall other | IsPage(other) && other != page :: Same(Trans(s, p, other), Trans(s2, p, other))
  {
    forall other | IsPage(other) && other != page ensures Same(Trans(s, p, other), Trans(s2, p, other)) {
      assert Same(Trans(s, p, other), Trans(s1, p, other)) && Same(Trans(s1, p, other), Trans(s2, p, other));
    }
  }

  lemma MapTranslates(s: State, s': State, p: nat, page: seq<nat>, e: Entry)
    requires Inv(s) && Inv(s') && IsPage(page) && Node(p, page[..3]) in s.owned && OpenAbove(s, p, page)
    requires s'.owned == s.owned && Present in e.flags && EntryOf(s', Node(p, page[..3]), page[3]) == e
    requires forall m | m in s.owned && |m.path| < 3 :: s.owned[m] in s'.mem && s'.mem[s.owned[m]] == s.mem[s.owned[m]]
    ensures Trans(s', p, page) == Some(Leaf(e.addr, e.flags, true, true, 3))
  {
    OwnedWalk(s', p, page);
    UserKept(s, s', p, page);
  }

  /** What mapping leaves of the frame and of the tables above. */
  lemma MapFrame(s: State, p: nat, page: seq<nat>, e: Entry, z: Table)
    requires Inv(s) && IsPage(page) && Node(p, page[..3]) in s.owned && IsZero(z) && e.addr in s.free
    requires CanRewrite(WithFrame(s, e.addr, z), Node(p, page[..3]), page[3], e)
    ensures var s' := Mapped(s, p, page, e, z);
            && Fresh(s', e.addr) && IsZero(s'.mem[e.addr]) && s'.owned == s.owned && Spent(s, s', {e.addr})
            && EntryOf(s', Node(p, page[..3]), page[3]) == e
    ensures forall m | m in s.owned && |m.path| < 3 ::
              s.owned[m] in Mapped(s, p, page, e, z).mem
              && Mapped(s, p, page, e, z).mem[s.owned[m]] == s.mem[s.owned[m]]
  {
    assert |Node(p, page[..3]).path| == 3;
  }

  /** Taking a free frame, zeroing it and writing it into the L1 entry of a page maps the page and no other. */
  lemma MapStep(s: State, s': State, p: nat, page: seq<nat>, e: Entry, z: Table)
    requires Inv(s) && IsPage(page) && Node(p, page[..3]) in s.owned && OpenAbove(s, p, page) && IsZero(z)
    requires e.addr in s.free && Present in e.flags && s' == Mapped(s, p, page, e, z)
    ensures CanRewrite(WithFrame(s, e.addr, z), Node(p, page[..3]), page[3], e)
    ensures PageMapped(s, s', p, page, e.addr, e.flags)
  {
    MapOthers(s, p, page, e, z);
    MapFrame(s, p, page, e, z);
    MapTranslates(s, s', p, page, e);
  }

  lemma UserKept(s: State, s': State, p: nat, page: seq<nat>)
    requires Inv(s) && IsPage(page) && Node(p, page[..3]) in s.owned && OpenAbove(s, p, page)
    requires s'.owned == s.owned
    requires forall m | m in s.owned && |m.path| < 3 :: s.owned[m] in s'.mem && s'.mem[s.owned[m]] == s.mem[s.owned[m]]
    ensures OpenAbove(s', p, page)
  {
  }

  // ---------------------------------------------------------------
  // Descending to the L1 table
  // ---------------------------------------------------------------

  lemma LocalKeepsEntry(s: State, s': State, n: Node, i: nat, m: Node, k: nat)
    requires Inv(s) && Local(s, s', n, i) && m in s.owned && m != n && m != Child(n, i)
    ensures m in s'.owned && EntryOf(s', m, k) == EntryOf(s, m, k)
  {
  }

  /** Everything a descent may do, without naming the entries it went through. */
  ghost predicate Quiet(s: State, s': State, p: nat) {
    Inv(s') && Confined(s, s', p) && SameTranslations(s, s', p) && Spent(s, s', {}) == true
  }

  lemma QuietTrans(s: State, s': State, s'': State, p: nat)
    requires Inv(s) && Quiet(s, s', p) && Quiet(s', s'', p)
    ensures Quiet(s, s'', p)
  {
    SpentTrans(s, s', s'', p, {}, {});
    ConfinedTrans(s, s', s'', p);
    SameTranslationsTrans(s, s', s'', p);
  }
}

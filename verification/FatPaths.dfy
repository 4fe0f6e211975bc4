/** Paths: splitting at slashes, subdirectory listings, and what reading a path gives. */
module FatPaths {
  import opened Options
  import opened FatNames
  import opened FatChains
  import opened FatData
  import opened FatModel
  import opened FatFiles

  const SLASH := 47

  // ---------------------------------------------------------------
  // Splitting
  // ---------------------------------------------------------------

  /** Index of the first slash, or |t| if there is none. */
  function FirstSlash(t: Text): (k: nat)
    ensures k <= |t| && (forall i | 0 <= i < k :: t[i] != SLASH) && (k < |t| ==> t[k] == SLASH)
  {
    if t == [] || t[0] == SLASH then 0 else 1 + FirstSlash(t[1..])
  }

  /** The nonempty pieces between slashes. */
  function Parts(t: Text): seq<Text>
    decreases |t|
  {
    var k := FirstSlash(t);
    (if k > 0 then [t[..k]] else []) + (if k < |t| then Parts(t[k + 1..]) else [])
  }

  function Piece(t: Text): seq<Text> {
    if t == [] then [] else [t]
  }

  lemma PartsStep(t: Text, k: nat)
    requires FirstSlash(t) == k < |t|
    ensures Parts(t) == Piece(t[..k]) + Parts(t[k + 1..])
  {
  }

  lemma PartsLast(t: Text)
    requires FirstSlash(t) == |t|
    ensures Parts(t) == Piece(t)
  {
    assert t[..|t|] == t;
  }

  lemma FirstSlashIs(t: Text, j: nat)
    requires j <= |t| && (forall i | 0 <= i < j :: t[i] != 47) && (j < |t| ==> t[j] == 47)
    ensures FirstSlash(t) == j
  {
  }

  lemma SlicesAgree(t: Text, j: nat, k: nat)
    requires j < k < |t|
    ensures t[..k][..j] == t[..j] && t[..k][j + 1..] == t[j + 1..][..k - j - 1]
    ensures t[j + 1..][k - j - 1 + 1..] == t[k + 1..]
  {
  }

  /** Every slash, code 47, separates the parts before it from the parts after it. */
  lemma {:induction false} PartsSplit(t: Text, k: nat)
    requires k < |t| && t[k] == 47
    ensures Parts([]) == [] && Parts(t) == Parts(t[..k]) + Parts(t[k + 1..])
    decreases |t|
  {
    var j := FirstSlash(t);
    PartsStep(t, j);
    FirstSlashIs(t[..k], j);
    if j == k {
      PartsLast(t[..k]);
    } else {
      var rest, m := t[j + 1..], k - j - 1;
      PartsStep(t[..k], j);
      PartsSplit(rest, m);
      SlicesAgree(t, j, k);
      PiecesJoin(Piece(t[..j]), Parts(rest[..m]), Parts(t[k + 1..]));
    }
  }

  lemma PiecesJoin(a: seq<Text>, b: seq<Text>, c: seq<Text>)
    ensures a + (b + c) == a + b + c
  {
  }

  /** A name is its own only part exactly when it is not empty and has no slash. */
  lemma {:induction false} PartsSingle(t: Text)
    ensures Parts(t) == [t] <==> t != [] && SLASH !in t
  {
    var k := FirstSlash(t);
    PartsShort(t);
    if k < |t| {
      assert t[k] == SLASH && [t][0] == t;
    } else if t != [] {
      assert t[..k] == t;
      assert Parts(t) == [t[..k]];
    }
  }

  /** Every part is nonempty and no longer than the text. */
  lemma {:induction false} PartsShort(t: Text)
    ensures forall i | 0 <= i < |Parts(t)| :: 0 < |Parts(t)[i]| <= |t| - (if SLASH in t then 1 else 0)
    decreases |t|
  {
    var k := FirstSlash(t);
    if k < |t| { PartsShort(t[k + 1..]); }
  }

  // ---------------------------------------------------------------
  // Listings
  // ---------------------------------------------------------------

  predicate AllSlots(slots: seq<Slot>) {
    forall i | 0 <= i < |slots| :: |slots[i]| == 32
  }

  /** The 32-byte slots of a directory's bytes. */
  function SlotsOf(bytes: seq<nat>): (r: seq<Slot>)
    ensures AllSlots(r)
  {
    if |bytes| < 32 then [] else [bytes[..32]] + SlotsOf(bytes[32..])
  }

  lemma {:induction false} SlotsOfAppend(a: seq<nat>, b: seq<nat>)
    requires |a| % 32 == 0
    ensures SlotsOf(a + b) == SlotsOf(a) + SlotsOf(b)
    decreases |a|
  {
    if a == [] {
      assert a + b == b;
    } else {
      assert (a + b)[..32] == a[..32] && (a + b)[32..] == a[32..] + b;
      SlotsOfAppend(a[32..], b);
    }
  }

  predicate HasEnd(slots: seq<Slot>)
    requires AllSlots(slots)
  {
    exists i | 0 <= i < |slots| :: IsEnd(slots[i])
  }

  /** What a listing shows: the slots before the first end slot, without deleted and skipped ones. */
  function Listed(slots: seq<Slot>): (r: seq<Slot>)
    requires AllSlots(slots)
    ensures AllSlots(r)
  {
    if slots == [] || IsEnd(slots[0]) then []
    else (if IsShown(slots[0]) then [slots[0]] else []) + Listed(slots[1..])
  }

  lemma HasEndTail(a: seq<Slot>)
    requires AllSlots(a) && a != [] && !IsEnd(a[0])
    ensures HasEnd(a) <==> HasEnd(a[1..])
  {
    if HasEnd(a) {
      var i :| 0 <= i < |a| && IsEnd(a[i]);
      assert IsEnd(a[1..][i - 1]);
    }
  }

  /** A listing stops at the first end slot. */
  lemma {:induction false} ListedAppend(a: seq<Slot>, b: seq<Slot>)
    requires AllSlots(a) && AllSlots(b)
    ensures AllSlots(a + b) && Listed(a + b) == if HasEnd(a) then Listed(a) else Listed(a) + Listed(b)
    decreases |a|
  {
    if a == [] {
      assert a + b == b;
    } else if !IsEnd(a[0]) {
      ListedAppend(a[1..], b);
      HasEndTail(a);
      ListedFirst(a, b);
      JoinAssoc(if IsShown(a[0]) then [a[0]] else [], Listed(a[1..]), Listed(b));
    }
  }

  lemma JoinAssoc(a: seq<Slot>, b: seq<Slot>, c: seq<Slot>)
    ensures a + b + c == a + (b + c)
  {
  }

  lemma ListedFirst(a: seq<Slot>, b: seq<Slot>)
    requires AllSlots(a) && AllSlots(b) && a != [] && !IsEnd(a[0])
    ensures AllSlots(a[1..] + b) && AllSlots(a + b)
    ensures var first := if IsShown(a[0]) then [a[0]] else [];
            Listed(a) == first + Listed(a[1..]) && Listed(a + b) == first + Listed(a[1..] + b)
  {
    assert (a + b)[0] == a[0] && (a + b)[1..] == a[1..] + b;
  }

  /** The first entry of a listing with this name. */
  function Find(entries: seq<Slot>, name: Text): (r: Option<Slot>)
    requires AllSlots(entries)
    ensures r.Some? ==> r.value in entries && |r.value| == 32 && SlotName(r.value) == name
  {
    if entries == [] then None
    else if SlotName(entries[0]) == name then Some(entries[0])
    else Find(entries[1..], name)
  }

  function Named(dir: seq<Slot>, r: Option<nat>): Option<Slot> {
    if r.Some? && r.value < |dir| then Some(dir[r.value]) else None
  }

  /** Searching a listing of the root finds what Lookup finds. */
  lemma {:induction false} FindIsLookup(dir: seq<Slot>, name: Text, from: nat)
    requires DirOk(dir) && from <= |dir|
    ensures AllSlots(dir[from..]) && Find(Listed(dir[from..]), name) == Named(dir, Lookup(dir, name, from))
    decreases |dir| - from
  {
    if from < |dir| && !IsEnd(dir[from]) {
      var rest := dir[from + 1..];
      assert dir[from..][0] == dir[from] && dir[from..][1..] == rest;
      FindIsLookup(dir, name, from + 1);
      if IsShown(dir[from]) {
        assert Listed(dir[from..]) == [dir[from]] + Listed(rest);
        assert ([dir[from]] + Listed(rest))[1..] == Listed(rest);
      } else {
        assert Listed(dir[from..]) == Listed(rest);
      }
      LookupFinds(dir, name, from);
    }
  }

  // ---------------------------------------------------------------
  // Trees of subdirectories
  // ---------------------------------------------------------------

  /** What lies below one directory of the root: the chain from each first cluster, and which are directories. */
  datatype Tree = Tree(chains: map<nat, seq<nat>>, dirs: set<nat>)

  predicate TreeChains(v: Volume, t: Tree) {
    && v.fats != [] && IsArea(v.data) && t.dirs <= t.chains.Keys
    && (forall c | c in t.chains ::
          IsChain(v.fats[0], t.chains[c]) && t.chains[c][0] == c && AllOnDevice(v.data, v.spc, t.chains[c]))
  }

  /** The listing of the directory that starts at cluster c. */
  function Listing(v: Volume, t: Tree, c: nat): (r: seq<Slot>)
    requires TreeChains(v, t)
    ensures AllSlots(r)
  {
    if c in t.chains then Listed(SlotsOf(ChainBytes(v.data, v.spc, t.chains[c]))) else []
  }

  /** The entry's chain is part of the tree and long enough for a file's size. */
  predicate EntryIn(spc: nat, t: Tree, s: Slot) {
    && |s| == 32
    && (SlotCluster(s) < 2 && !IsDirectory(s) ==> SlotSize(s) == 0)
    && (SlotCluster(s) < 2 ==> SlotCluster(s) !in t.chains)
    && (SlotCluster(s) >= 2 ==>
          && SlotCluster(s) in t.chains && (IsDirectory(s) ==> SlotCluster(s) in t.dirs)
          && (!IsDirectory(s) ==> SlotSize(s) <= |t.chains[SlotCluster(s)]| * (spc * SECTOR)))
  }

  predicate EntriesIn(spc: nat, t: Tree, entries: seq<Slot>) {
    forall s | s in entries :: EntryIn(spc, t, s)
  }

  /** Chains in place, and every entry of every directory of the tree stays inside the tree. */
  predicate TreeOk(v: Volume, t: Tree) {
    TreeChains(v, t) && forall c | c in t.dirs :: EntriesIn(v.spc, t, Listing(v, t, c))
  }

  predicate TreeApart(t: Tree, chain: seq<nat>) {
    forall c | c in t.chains :: Disjoint(t.chains[c], chain)
  }

  /** The directories of the root that have a chain are the ones with a tree. */
  predicate TreesHung(dir: seq<Slot>, chains: map<nat, seq<nat>>, below: map<nat, Tree>) {
    && (forall i | i in chains :: i < |dir| && |dir[i]| == 32)
    && (forall i | i in below :: i in chains && IsDirectory(dir[i]))
    && (forall i | i in chains && IsDirectory(dir[i]) :: i in below && SlotCluster(dir[i]) in below[i].dirs)
  }

  /** No tree meets another root slot's chain. */
  predicate TreesApart(chains: map<nat, seq<nat>>, below: map<nat, Tree>) {
    forall i, j | i in below && j in chains && i != j :: TreeApart(below[i], chains[j])
  }

  predicate TreesStand(v: Volume, below: map<nat, Tree>) {
    forall i | i in below :: TreeOk(v, below[i])
  }

  predicate TreesOk(v: Volume, chains: map<nat, seq<nat>>, below: map<nat, Tree>) {
    TreesHung(v.dir, chains, below) && TreesApart(chains, below) && TreesStand(v, below)
  }

  // ---------------------------------------------------------------
  // Reading a path
  // ---------------------------------------------------------------

  function FileBytes(v: Volume, t: Tree, s: Slot): seq<nat>
    requires TreeChains(v, t) && EntryIn(v.spc, t, s) && !IsDirectory(s)
  {
    if SlotCluster(s) in t.chains then
      ChainBytesLength(v.data, v.spc, t.chains[SlotCluster(s)]);
      ChainBytes(v.data, v.spc, t.chains[SlotCluster(s)])[..SlotSize(s)]
    else []
  }

  /** Reading the path inside a tree, from a directory with these entries. */
  function ReadIn(v: Volume, t: Tree, entries: seq<Slot>, parts: seq<Text>): Option<seq<nat>>
    requires TreeOk(v, t) && AllSlots(entries) && EntriesIn(v.spc, t, entries) && parts != []
    decreases |parts|
  {
    match Find(entries, parts[0])
    case None => None
    case Some(s) =>
      assert EntryIn(v.spc, t, s);
      if |parts| == 1 then if IsDirectory(s) then None else Some(FileBytes(v, t, s))
      else if !IsDirectory(s) then None
      else ReadIn(v, t, Listing(v, t, SlotCluster(s)), parts[1..])
  }

  /** What reading a path gives: none for no parts, a missing name, a file on the way or a directory at the end. */
  function ReadPath(v: Volume, chains: map<nat, seq<nat>>, below: map<nat, Tree>, parts: seq<Text>): Option<seq<nat>>
    requires WellFormed(v, chains) && TreesOk(v, chains, below)
  {
    if parts == [] then None
    else if |parts| == 1 then ReadResult(v, chains, parts[0])
    else
      LookupFinds(v.dir, parts[0], 0);
      match Lookup(v.dir, parts[0], 0)
      case None => None
      case Some(i) =>
        if !IsDirectory(v.dir[i]) || i !in chains then None
        else ReadIn(v, below[i], Listing(v, below[i], SlotCluster(v.dir[i])), parts[1..])
  }

  /** The entry a path leads to inside a tree, from a directory with these entries. */
  function EntryBelow(v: Volume, t: Tree, entries: seq<Slot>, parts: seq<Text>): Option<Slot>
    requires TreeOk(v, t) && AllSlots(entries) && EntriesIn(v.spc, t, entries) && parts != []
    decreases |parts|
  {
    match Find(entries, parts[0])
    case None => None
    case Some(s) =>
      assert EntryIn(v.spc, t, s);
      if |parts| == 1 then Some(s)
      else if !IsDirectory(s) then None
      else EntryBelow(v, t, Listing(v, t, SlotCluster(s)), parts[1..])
  }

  /** The entry a path leads to: every part but the last names a directory. */
  function EntryAt(v: Volume, chains: map<nat, seq<nat>>, below: map<nat, Tree>, parts: seq<Text>): Option<Slot>
    requires WellFormed(v, chains) && TreesOk(v, chains, below)
  {
    if parts == [] then None
    else
      LookupFinds(v.dir, parts[0], 0);
      match Lookup(v.dir, parts[0], 0)
      case None => None
      case Some(i) =>
        if |parts| == 1 then Some(v.dir[i])
        else if !IsDirectory(v.dir[i]) || i !in chains then None
        else EntryBelow(v, below[i], Listing(v, below[i], SlotCluster(v.dir[i])), parts[1..])
  }

  predicate PathSame(v: Volume, chains: map<nat, seq<nat>>, v': Volume, chains': map<nat, seq<nat>>,
                     below: map<nat, Tree>, parts: seq<Text>)
    requires WellFormed(v, chains) && WellFormed(v', chains') && TreesOk(v, chains, below)
    requires TreesOk(v', chains', below)
  {
    ReadPath(v', chains', below, parts) == ReadPath(v, chains, below, parts)
  }

  /** Every path reads as before. */
  ghost predicate PathsSame(v: Volume, chains: map<nat, seq<nat>>, v': Volume, chains': map<nat, seq<nat>>,
                            below: map<nat, Tree>)
    requires WellFormed(v, chains) && WellFormed(v', chains') && TreesOk(v, chains, below)
    requires TreesOk(v', chains', below)
  {
    forall parts :: PathSame(v, chains, v', chains', below, parts)
  }

  // ---------------------------------------------------------------
  // Changes that leave a tree alone
  // ---------------------------------------------------------------

  /** The tree's chains are in place and hold the same bytes. */
  predicate TreeKept(v: Volume, v': Volume, t: Tree) {
    && TreeChains(v, t) && TreeChains(v', t) && v'.spc == v.spc
    && (forall c | c in t.chains ::
          ChainBytes(v'.data, v'.spc, t.chains[c]) == ChainBytes(v.data, v.spc, t.chains[c]))
  }

  lemma TreeKeptOk(v: Volume, v': Volume, t: Tree)
    requires TreeOk(v, t) && TreeKept(v, v', t)
    ensures TreeOk(v', t)
  {
    forall c | c in t.dirs ensures EntriesIn(v'.spc, t, Listing(v', t, c)) {
      assert Listing(v', t, c) == Listing(v, t, c);
    }
  }

  lemma {:induction false} TreeKeptReads(v: Volume, v': Volume, t: Tree, entries: seq<Slot>, parts: seq<Text>)
    requires TreeOk(v, t) && TreeOk(v', t) && TreeKept(v, v', t)
    requires AllSlots(entries) && EntriesIn(v.spc, t, entries) && parts != []
    ensures ReadIn(v', t, entries, parts) == ReadIn(v, t, entries, parts)
    decreases |parts|
  {
    var r := Find(entries, parts[0]);
    if r.Some? && |parts| > 1 && IsDirectory(r.value) {
      assert EntryIn(v.spc, t, r.value);
      var c := SlotCluster(r.value);
      assert Listing(v', t, c) == Listing(v, t, c);
      TreeKeptReads(v, v', t, Listing(v, t, c), parts[1..]);
    }
  }

  predicate TreesKept(v: Volume, v': Volume, below: map<nat, Tree>) {
    forall i | i in below :: TreeKept(v, v', below[i])
  }

  lemma TreesKeptStand(v: Volume, v': Volume, below: map<nat, Tree>)
    requires TreesStand(v, below) && TreesKept(v, v', below)
    ensures TreesStand(v', below)
  {
    forall i | i in below ensures TreeOk(v', below[i]) {
      TreeKeptOk(v, v', below[i]);
    }
  }

  /** A path of two or more parts reads as before when its first part is found as before and the trees are kept. */
  lemma PathKept(v: Volume, chains: map<nat, seq<nat>>, below: map<nat, Tree>,
                 v': Volume, chains': map<nat, seq<nat>>, below': map<nat, Tree>, parts: seq<Text>)
    requires WellFormed(v, chains) && WellFormed(v', chains') && TreesOk(v, chains, below)
    requires TreesOk(v', chains', below')
    requires TreesKept(v, v', below') && (forall i | i in below' :: i in below && below'[i] == below[i])
    requires |parts| > 1 && Lookup(v'.dir, parts[0], 0) == Lookup(v.dir, parts[0], 0)
    requires forall i | Lookup(v.dir, parts[0], 0) == Some(i) && i < |v.dir| && i < |v'.dir| ::
               v'.dir[i] == v.dir[i] && (i in chains' <==> i in chains)
    ensures ReadPath(v', chains', below', parts) == ReadPath(v, chains, below, parts)
  {
    LookupFinds(v.dir, parts[0], 0);
    LookupFinds(v'.dir, parts[0], 0);
    var r := Lookup(v.dir, parts[0], 0);
    if r.Some? && IsDirectory(v.dir[r.value]) && r.value in chains {
      var i := r.value;
      var t, c := below[i], SlotCluster(v.dir[i]);
      assert Listing(v', t, c) == Listing(v, t, c);
      TreeKeptReads(v, v', t, Listing(v, t, c), parts[1..]);
    }
  }

  /** With the same directory and every tree and name kept, every path is. */
  lemma PathsKept(v: Volume, v': Volume, chains: map<nat, seq<nat>>, below: map<nat, Tree>)
    requires WellFormed(v, chains) && WellFormed(v', chains) && TreesOk(v, chains, below) && v'.dir == v.dir
    requires TreesKept(v, v', below) && ReadsSame(v, chains, v', chains)
    ensures TreesOk(v', chains, below) && PathsSame(v, chains, v', chains, below)
  {
    TreesKeptStand(v, v', below);
    forall parts ensures PathSame(v, chains, v', chains, below, parts) {
      if |parts| > 1 { PathKept(v, chains, below, v', chains, below, parts); }
    }
  }

  // ---------------------------------------------------------------
  // Creating a file
  // ---------------------------------------------------------------

  lemma StoredTree(v: Volume, v': Volume, chain: seq<nat>, bytes: seq<nat>, t: Tree)
    requires Stored(v, v', chain, bytes) && TreeChains(v, t)
    ensures TreeKept(v, v', t) && TreeApart(t, chain)
  {
    forall c | c in t.chains
      ensures IsChain(v'.fats[0], t.chains[c]) && AllOnDevice(v'.data, v.spc, t.chains[c])
      ensures Disjoint(t.chains[c], chain)
      ensures ChainBytes(v'.data, v.spc, t.chains[c]) == ChainBytes(v.data, v.spc, t.chains[c])
    {
      var other := t.chains[c];
      NewChainKeeps(v.fats[0], v'.fats[0], chain, other);
      forall j | 0 <= j < |other| ensures other[j] >= 2 && other[j] !in chain { assert other[j] in other; }
      OtherChain(v.data, v'.data, v.spc, chain, other);
    }
  }

  /** Storing bytes in free clusters keeps every tree. */
  lemma StoredTrees(v: Volume, v': Volume, below: map<nat, Tree>, chain: seq<nat>, bytes: seq<nat>)
    requires TreesStand(v, below) && Stored(v, v', chain, bytes)
    ensures TreesKept(v, v', below) && TreesStand(v', below) && forall i | i in below :: TreeApart(below[i], chain)
  {
    forall i | i in below ensures TreeKept(v, v', below[i]) && TreeApart(below[i], chain) {
      StoredTree(v, v', chain, bytes, below[i]);
    }
    TreesKeptStand(v, v', below);
  }

  /** Marking free clusters keeps every tree. */
  lemma MarkedTrees(v: Volume, v': Volume, below: map<nat, Tree>, found: seq<nat>)
    requires TreesStand(v, below) && v.fats != [] && v'.fats != [] && v' == v.(fats := v'.fats)
    requires Marked(v.fats[0], v'.fats[0], found)
    ensures TreesKept(v, v', below)
  {
    forall i | i in below ensures TreeKept(v, v', below[i]) {
      assert TreeOk(v, below[i]);
      forall c | c in below[i].chains ensures IsChain(v'.fats[0], below[i].chains[c]) {
        MarkedKeeps(v.fats[0], v'.fats[0], found, below[i].chains[c]);
      }
    }
  }

  lemma NamedHung(dir: seq<Slot>, chains: map<nat, seq<nat>>, below: map<nat, Tree>, k: nat, slot: Slot,
                  chain: seq<nat>)
    requires TreesHung(dir, chains, below) && TreesApart(chains, below)
    requires k < |dir| && k !in chains && |slot| == 32 && !IsDirectory(slot)
    requires forall i | i in below :: TreeApart(below[i], chain)
    ensures TreesHung(dir[k := slot], chains[k := chain], below) && TreesApart(chains[k := chain], below)
  {
  }

  /** Storing the bytes and writing the file's slot keeps every tree. */
  lemma AddedTrees(v: Volume, v1: Volume, chains: map<nat, seq<nat>>, below: map<nat, Tree>, chain: seq<nat>,
                   bytes: seq<nat>, k: nat, slot: Slot)
    requires TreesOk(v, chains, below) && Stored(v, v1, chain, bytes) && v1.dir == v.dir
    requires k < |v.dir| && k !in chains && |slot| == 32 && !IsDirectory(slot)
    ensures TreesKept(v, WithSlot(v1, k, slot), below)
    ensures TreesOk(WithSlot(v1, k, slot), chains[k := chain], below)
  {
    var v2 := WithSlot(v1, k, slot);
    StoredTrees(v, v2, below, chain, bytes);
    NamedHung(v.dir, chains, below, k, slot, chain);
  }

  /** A path of several parts is not affected by a new file. */
  lemma AddedPath(v: Volume, chains: map<nat, seq<nat>>, below: map<nat, Tree>, v': Volume, chain: seq<nat>,
                  k: nat, slot: Slot, parts: seq<Text>)
    requires WellFormed(v, chains) && TreesOk(v, chains, below) && TreesKept(v, v', below) && k !in chains
    requires WellFormed(v', chains[k := chain]) && TreesOk(v', chains[k := chain], below)
    requires FirstVacant(v.dir, k) && v'.dir == v.dir[k := slot] && |slot| == 32 && IsShown(slot) && !IsDirectory(slot)
    requires FreshName(v.dir, SlotName(slot)) && |parts| > 1
    ensures ReadPath(v', chains[k := chain], below, parts) == ReadPath(v, chains, below, parts)
  {
    var name := SlotName(slot);
    if parts[0] == name {
      SlotDirOk(v.dir, k, slot, name);
      LookupOnly(v'.dir, name, k);
      LookupFinds(v.dir, name, 0);
    } else {
      NamedLookup(v.dir, k, slot, name, parts[0]);
      LookupFinds(v.dir, parts[0], 0);
      PathKept(v, chains, below, v', chains[k := chain], below, parts);
    }
  }

  /** What the 32-bit size field leaves of the bytes. */
  function Sized(bytes: seq<nat>): (r: seq<nat>)
    ensures |bytes| < 0x1_0000_0000 ==> r == bytes
  {
    bytes[..|bytes| % 0x1_0000_0000]
  }

  /** The path [name] reads as the bytes, modulo the 32-bit size field; another path reads as before. */
  predicate PathAdded(v: Volume, chains: map<nat, seq<nat>>, below: map<nat, Tree>,
                      v': Volume, chains': map<nat, seq<nat>>, name: Text, bytes: seq<nat>, parts: seq<Text>)
    requires WellFormed(v, chains) && TreesOk(v, chains, below)
    requires WellFormed(v', chains') && TreesOk(v', chains', below)
  {
    ReadPath(v', chains', below, parts)
    == if parts == [name] then Some(Sized(bytes)) else ReadPath(v, chains, below, parts)
  }

  ghost predicate FileAdded(v: Volume, chains: map<nat, seq<nat>>, below: map<nat, Tree>,
                            v': Volume, chains': map<nat, seq<nat>>, name: Text, bytes: seq<nat>)
    requires WellFormed(v, chains) && TreesOk(v, chains, below)
    requires WellFormed(v', chains') && TreesOk(v', chains', below)
  {
    forall parts :: PathAdded(v, chains, below, v', chains', name, bytes, parts)
  }

  /**
   A created file reads back under a path that led nowhere before exactly when the path's only part is
   the name that the slot shows.
   */
  lemma ReadsBackIff(v: Volume, chains: map<nat, seq<nat>>, below: map<nat, Tree>,
                     v': Volume, chains': map<nat, seq<nat>>, shown: Text, bytes: seq<nat>, path: seq<Text>)
    requires WellFormed(v, chains) && TreesOk(v, chains, below)
    requires WellFormed(v', chains') && TreesOk(v', chains', below)
    requires FileAdded(v, chains, below, v', chains', shown, bytes) && ReadPath(v, chains, below, path).None?
    ensures ReadPath(v', chains', below, path) == Some(Sized(bytes)) <==> path == [shown]
  {
    assert PathAdded(v, chains, below, v', chains', shown, bytes, path);
  }

  /** For a name without slashes the path is the name shown exactly when the name is not empty and fits 8.3. */
  lemma PathIsShown(name: Text)
    requires IsAscii(name) && SLASH !in name
    ensures Parts(name) == [ShownName(name)] <==> name != [] && Fits83(name)
  {
    PartsSingle(name);
    NameRoundTrip(name);
    if name == [] { assert Parts(name) == []; } else { assert Parts(name)[0] == name; }
  }

  /** A slash behind eight letters is cut off the slot and dropped from the path: such a file is found again. */
  lemma SlashCutOff(base: Text)
    requires |base| == 8 && IsAscii(base) && Fits83(base) && DOT !in base && SLASH !in base
    ensures !Fits83(base + [SLASH]) && Parts(base + [SLASH]) == [ShownName(base + [SLASH])]
  {
    var name := base + [SLASH];
    assert LastDot(base) == 8 && LastDot(name) == 9;
    assert Cut(name, 8) == base == Cut(base, 8);
    assert FormatName(name) == FormatName(base);
    NameRoundTrip(base);
    assert FirstSlash(name) == 8 by { assert name[8] == SLASH; }
    assert name[..8] == base && name[9..] == [];
  }

  /** A name of letters and a slash fits a slot but is not found again: the path has two parts. */
  lemma SlashLost()
    ensures var name := [65, SLASH, 66];
            IsAscii(name) && Fits83(name) && ShownName(name) == name && Parts(name) == [[65], [66]]
  {
    var name := [65, SLASH, 66];
    assert LastDot(name) == 3 by { assert forall i | 0 <= i < 3 :: name[i] != DOT; }
    NameRoundTrip(name);
    assert FirstSlash(name) == 1 by { assert name[1] == SLASH; }
    assert name[..1] == [65] && name[2..] == [66];
    PartsSingle([66]);
  }

  // ---------------------------------------------------------------
  // Deleting a file or directory of the root
  // ---------------------------------------------------------------

  lemma RemovedTree(v: Volume, v': Volume, chain: seq<nat>, t: Tree)
    requires TreeChains(v, t) && TreeApart(t, chain) && v'.fats != [] && v'.data == v.data && v'.spc == v.spc
    requires Zeroed(v.fats[0], v'.fats[0], chain) || v'.fats == v.fats
    ensures TreeKept(v, v', t)
  {
    forall c | c in t.chains ensures IsChain(v'.fats[0], t.chains[c]) {
      if v'.fats != v.fats { ZeroedKeeps(v.fats[0], v'.fats[0], chain, t.chains[c]); }
    }
  }

  /** Freeing the chain of one slot keeps the trees of the others. */
  lemma RemovedTrees(v: Volume, chains: map<nat, seq<nat>>, below: map<nat, Tree>, fats: seq<Fat>, i: nat)
    requires TreesOk(v, chains, below) && v.fats != [] && Shown(v.dir, i) && ChainGone(v, chains, fats, i)
    ensures TreesKept(v, Deleted(v, fats, i), below - {i})
    ensures TreesOk(Deleted(v, fats, i), chains - {i}, below - {i})
  {
    var v' := Deleted(v, fats, i);
    forall j | j in below - {i} ensures TreeKept(v, v', below[j]) {
      assert TreeOk(v, below[j]);
      if i in chains {
        assert TreeApart(below[j], chains[i]);
        RemovedTree(v, v', chains[i], below[j]);
      } else {
        RemovedTree(v, v', [], below[j]);
      }
    }
    TreesKeptStand(v, v', below - {i});
  }

  lemma RemovedPath(v: Volume, chains: map<nat, seq<nat>>, below: map<nat, Tree>, fats: seq<Fat>, i: nat,
                    parts: seq<Text>)
    requires WellFormed(v, chains) && TreesOk(v, chains, below) && Shown(v.dir, i) && ChainGone(v, chains, fats, i)
    requires WellFormed(Deleted(v, fats, i), chains - {i}) && TreesOk(Deleted(v, fats, i), chains - {i}, below - {i})
    requires TreesKept(v, Deleted(v, fats, i), below - {i}) && |parts| > 1
    ensures PathRemoved(v, chains, below, Deleted(v, fats, i), chains - {i}, below - {i}, SlotName(v.dir[i]), parts)
  {
    var v', name := Deleted(v, fats, i), parts[0];
    UnnamedOk(v.dir, i);
    LookupFinds(v.dir, name, 0);
    LookupFinds(v'.dir, name, 0);
    var r := Lookup(v.dir, name, 0);
    if name == SlotName(v.dir[i]) {
      LookupOnly(v.dir, name, i);
    } else {
      if r.Some? { LookupOnly(v'.dir, name, r.value); }
      PathKept(v, chains, below, v', chains - {i}, below - {i}, parts);
    }
  }

  /** A path that begins with the name leads nowhere; another path reads as before. */
  predicate PathRemoved(v: Volume, chains: map<nat, seq<nat>>, below: map<nat, Tree>,
                        v': Volume, chains': map<nat, seq<nat>>, below': map<nat, Tree>, name: Text, parts: seq<Text>)
    requires WellFormed(v, chains) && TreesOk(v, chains, below)
    requires WellFormed(v', chains') && TreesOk(v', chains', below')
  {
    ReadPath(v', chains', below', parts)
    == if parts != [] && parts[0] == name then None else ReadPath(v, chains, below, parts)
  }

  ghost predicate PathsRemoved(v: Volume, chains: map<nat, seq<nat>>, below: map<nat, Tree>,
                               v': Volume, chains': map<nat, seq<nat>>, below': map<nat, Tree>, name: Text)
    requires WellFormed(v, chains) && TreesOk(v, chains, below)
    requires WellFormed(v', chains') && TreesOk(v', chains', below')
  {
    forall parts :: PathRemoved(v, chains, below, v', chains', below', name, parts)
  }
}

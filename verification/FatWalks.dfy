/** Listing directories cluster by cluster and following the parts of a path. */
module FatWalks {
  import opened Options
  import opened FatNames
  import opened FatChains
  import opened FatData
  import opened FatModel
  import opened FatFiles
  import opened FatPaths
  import opened FatLoops
  import opened FatRounds

  lemma ListedMore(a: seq<nat>, b: seq<nat>)
    requires |a| % 32 == 0 && !HasEnd(SlotsOf(a))
    ensures Listed(SlotsOf(a + b)) == Listed(SlotsOf(a)) + Listed(SlotsOf(b))
    ensures HasEnd(SlotsOf(a + b)) <==> HasEnd(SlotsOf(b))
  {
    SlotsOfAppend(a, b);
    ListedAppend(SlotsOf(a), SlotsOf(b));
    HasEndAppend(SlotsOf(a), SlotsOf(b));
  }

  lemma HasEndAppend(a: seq<Slot>, b: seq<Slot>)
    requires AllSlots(a) && AllSlots(b)
    ensures AllSlots(a + b) && (HasEnd(a + b) <==> HasEnd(a) || HasEnd(b))
  {
    if HasEnd(a) {
      var i :| 0 <= i < |a| && IsEnd(a[i]);
      assert IsEnd((a + b)[i]);
    }
    if HasEnd(b) {
      var i :| 0 <= i < |b| && IsEnd(b[i]);
      assert IsEnd((a + b)[|a| + i]);
    }
  }

  /** Nothing behind an end slot is listed. */
  lemma ListedEarly(a: seq<nat>, all: seq<nat>)
    requires a <= all && |a| % 32 == 0 && HasEnd(SlotsOf(a))
    ensures Listed(SlotsOf(all)) == Listed(SlotsOf(a)) && HasEnd(SlotsOf(all))
  {
    var b := all[|a|..];
    assert all == a + b;
    SlotsOfAppend(a, b);
    ListedAppend(SlotsOf(a), SlotsOf(b));
    HasEndAppend(SlotsOf(a), SlotsOf(b));
  }

  lemma RunWhole(data: seq<Sector>, base: nat, j: nat)
    requires IsArea(data) && base + j <= |data|
    ensures |Run(data, base, j)| % 32 == 0
  {
    Multiple(j, 1);
  }

  /** r is entries and the listing of the first j sectors, which have no end slot. */
  predicate ListedSectors(data: seq<Sector>, base: nat, j: nat, entries: seq<Slot>, r: seq<Slot>) {
    && IsArea(data) && base + j <= |data|
    && r == entries + Listed(SlotsOf(Run(data, base, j))) && !HasEnd(SlotsOf(Run(data, base, j)))
  }

  lemma ListedSector(data: seq<Sector>, base: nat, j: nat, entries: seq<Slot>, r: seq<Slot>)
    requires ListedSectors(data, base, j, entries, r) && base + j < |data|
    ensures r + Listed(SlotsOf(data[base + j])) == entries + Listed(SlotsOf(Run(data, base, j + 1)))
    ensures HasEnd(SlotsOf(Run(data, base, j + 1))) <==> HasEnd(SlotsOf(data[base + j]))
  {
    RunWhole(data, base, j);
    ListedMore(Run(data, base, j), data[base + j]);
  }

  lemma ListedRun(data: seq<Sector>, base: nat, j: nat, k: nat)
    requires IsArea(data) && j <= k && base + k <= |data| && HasEnd(SlotsOf(Run(data, base, j)))
    ensures Listed(SlotsOf(Run(data, base, k))) == Listed(SlotsOf(Run(data, base, j)))
    ensures HasEnd(SlotsOf(Run(data, base, k)))
  {
    RunWhole(data, base, j);
    RunPrefix(data, base, j, k);
    ListedEarly(Run(data, base, j), Run(data, base, k));
  }

  /** What is listed so far is the listing of the first i clusters, which have no end slot. */
  ghost predicate ListedUpto(data: seq<Sector>, spc: nat, chain: seq<nat>, i: nat, entries: seq<Slot>) {
    && IsArea(data) && AllOnDevice(data, spc, chain) && i <= |chain| && AllOnDevice(data, spc, chain[..i])
    && entries == Listed(SlotsOf(ChainBytes(data, spc, chain[..i])))
    && !HasEnd(SlotsOf(ChainBytes(data, spc, chain[..i])))
  }

  lemma Multiple(n: nat, spc: nat)
    ensures (n * (spc * 512)) % 32 == 0
  {
    var m := n * (spc * 16);
    assert n * (spc * 512) == 32 * m;
  }

  lemma WholeSlots(data: seq<Sector>, spc: nat, chain: seq<nat>)
    requires IsArea(data) && AllOnDevice(data, spc, chain)
    ensures |ChainBytes(data, spc, chain)| % 32 == 0
  {
    ChainBytesLength(data, spc, chain);
    Multiple(|chain|, spc);
  }

  lemma ListedStep(data: seq<Sector>, spc: nat, chain: seq<nat>, i: nat)
    requires IsArea(data) && AllOnDevice(data, spc, chain) && i < |chain| && AllOnDevice(data, spc, chain[..i])
    requires !HasEnd(SlotsOf(ChainBytes(data, spc, chain[..i])))
    ensures AllOnDevice(data, spc, chain[..i + 1])
    ensures Listed(SlotsOf(ChainBytes(data, spc, chain[..i + 1])))
            == Listed(SlotsOf(ChainBytes(data, spc, chain[..i]))) + Listed(SlotsOf(ClusterBytes(data, spc, chain[i])))
    ensures HasEnd(SlotsOf(ChainBytes(data, spc, chain[..i + 1]))) <==>
            HasEnd(SlotsOf(ClusterBytes(data, spc, chain[i])))
  {
    ChainBytesNext(data, spc, chain, i);
    WholeSlots(data, spc, chain[..i]);
    ListedMore(ChainBytes(data, spc, chain[..i]), ClusterBytes(data, spc, chain[i]));
  }

  lemma ListedStop(data: seq<Sector>, spc: nat, chain: seq<nat>, i: nat)
    requires IsArea(data) && AllOnDevice(data, spc, chain) && i < |chain| && AllOnDevice(data, spc, chain[..i + 1])
    requires HasEnd(SlotsOf(ChainBytes(data, spc, chain[..i + 1])))
    ensures Listed(SlotsOf(ChainBytes(data, spc, chain))) == Listed(SlotsOf(ChainBytes(data, spc, chain[..i + 1])))
  {
    ChainBytesPrefix(data, spc, chain, i + 1);
    WholeSlots(data, spc, chain[..i + 1]);
    ListedEarly(ChainBytes(data, spc, chain[..i + 1]), ChainBytes(data, spc, chain));
  }

  /** The first k parts lead to a directory of the tree with these entries. */
  ghost predicate Descended(v: Volume, chains: map<nat, seq<nat>>, below: map<nat, Tree>, parts: seq<Text>, k: nat,
                            t: Tree, entries: seq<Slot>)
    requires WellFormed(v, chains) && TreesOk(v, chains, below)
  {
    && 0 < k < |parts| && TreeOk(v, t) && AllSlots(entries) && EntriesIn(v.spc, t, entries)
    && ReadPath(v, chains, below, parts) == ReadIn(v, t, entries, parts[k..])
    && EntryAt(v, chains, below, parts) == EntryBelow(v, t, entries, parts[k..])
  }

  /** The path leads nowhere. */
  ghost predicate NoEntry(v: Volume, chains: map<nat, seq<nat>>, below: map<nat, Tree>, parts: seq<Text>)
    requires WellFormed(v, chains) && TreesOk(v, chains, below)
  {
    ReadPath(v, chains, below, parts).None? && EntryAt(v, chains, below, parts).None?
  }

  /** The entries are the root's listing, or of a directory that the first k parts lead to. */
  ghost predicate Entered(f: Files, parts: seq<Text>, k: nat, t: Tree, entries: seq<Slot>)
    requires Sound(f)
  {
    && AllSlots(entries)
    && if k == 0 then entries == Listed(f.vol.dir)
       else Descended(f.vol, f.chains, f.below, parts, k, t, entries)
  }

  /** The chain of a directory entry is in the tree exactly when it has one. */
  predicate Listable(t: Tree, c: nat) {
    c in t.chains <==> c >= 2
  }

  /** From a directory inside a tree one step further. */
  lemma StepBelow(v: Volume, chains: map<nat, seq<nat>>, below: map<nat, Tree>, parts: seq<Text>, k: nat, t: Tree,
                  entries: seq<Slot>)
    requires WellFormed(v, chains) && TreesOk(v, chains, below) && k + 1 < |parts|
    requires Descended(v, chains, below, parts, k, t, entries)
    ensures var e := Find(entries, parts[k]);
            if e.None? || !IsDirectory(e.value) then NoEntry(v, chains, below, parts)
            else var c := SlotCluster(e.value);
                 Listable(t, c) && Descended(v, chains, below, parts, k + 1, t, Listing(v, t, c))
  {
    var e := Find(entries, parts[k]);
    assert parts[k..][0] == parts[k] && parts[k..][1..] == parts[k + 1..];
    if e.Some? { assert EntryIn(v.spc, t, e.value); }
  }

  /** From the root into the tree of one of its directories. */
  lemma StepRoot(v: Volume, chains: map<nat, seq<nat>>, below: map<nat, Tree>, parts: seq<Text>) returns (t: Tree)
    requires WellFormed(v, chains) && TreesOk(v, chains, below) && 1 < |parts|
    ensures AllSlots(v.dir)
    ensures var e := Find(Listed(v.dir), parts[0]);
            if e.None? || !IsDirectory(e.value) then NoEntry(v, chains, below, parts)
            else var c := SlotCluster(e.value);
                 TreeChains(v, t) && Listable(t, c) && Descended(v, chains, below, parts, 1, t, Listing(v, t, c))
  {
    assert v.dir[0..] == v.dir;
    FindIsLookup(v.dir, parts[0], 0);
    LookupFinds(v.dir, parts[0], 0);
    var r := Lookup(v.dir, parts[0], 0);
    t := Tree(map[], {});
    if r.Some? && r.value in chains && IsDirectory(v.dir[r.value]) {
      t := below[r.value];
      assert TreeOk(v, t);
    }
  }

  lemma StepTree(v: Volume, chains: map<nat, seq<nat>>, below: map<nat, Tree>, parts: seq<Text>, k: nat, t: Tree,
                 entries: seq<Slot>) returns (t': Tree)
    requires WellFormed(v, chains) && TreesOk(v, chains, below) && k + 1 < |parts| && AllSlots(entries)
    requires if k == 0 then entries == Listed(v.dir) else Descended(v, chains, below, parts, k, t, entries)
    ensures var e := Find(entries, parts[k]);
            if e.None? || !IsDirectory(e.value) then NoEntry(v, chains, below, parts)
            else var c := SlotCluster(e.value);
                 TreeChains(v, t') && Listable(t', c)
                   && Descended(v, chains, below, parts, k + 1, t', Listing(v, t', c))
  {
    if k == 0 {
      t' := StepRoot(v, chains, below, parts);
    } else {
      t' := t;
      StepBelow(v, chains, below, parts, k, t, entries);
    }
  }

  /** What the entry found by the last part gives. */
  ghost predicate Fetches(f: Files, parts: seq<Text>, t: Tree, e: Option<Slot>)
    requires Sound(f)
  {
    && e == EntryAt(f.vol, f.chains, f.below, parts)
    && (e.Some? ==> TreeChains(f.vol, t) && EntryIn(f.vol.spc, t, e.value))
    && ReadPath(f.vol, f.chains, f.below, parts)
       == if e.Some? && !IsDirectory(e.value) then Some(FileBytes(f.vol, t, e.value)) else None
  }

  /** A root slot with its own chain as a tree. */
  function OneTree(v: Volume, chains: map<nat, seq<nat>>, i: nat): Tree
    requires Shown(v.dir, i)
  {
    var c := SlotCluster(v.dir[i]);
    if i in chains then Tree(map[c := chains[i]], if IsDirectory(v.dir[i]) then {c} else {}) else Tree(map[], {})
  }

  lemma OneTreeOk(v: Volume, chains: map<nat, seq<nat>>, i: nat)
    requires WellFormed(v, chains) && Shown(v.dir, i)
    ensures TreeChains(v, OneTree(v, chains, i)) && EntryIn(v.spc, OneTree(v, chains, i), v.dir[i])
    ensures !IsDirectory(v.dir[i]) ==> FileBytes(v, OneTree(v, chains, i), v.dir[i]) == Content(v, chains, i)
  {
    if i in chains { assert ChainFits(v, i, chains[i]); }
  }

  lemma LastRoot(f: Files, parts: seq<Text>) returns (t: Tree)
    requires Sound(f) && |parts| == 1
    ensures AllSlots(f.vol.dir) && Fetches(f, parts, t, Find(Listed(f.vol.dir), parts[0]))
  {
    var dir := f.vol.dir;
    assert dir[0..] == dir;
    FindIsLookup(dir, parts[0], 0);
    LookupFinds(dir, parts[0], 0);
    var r := Lookup(dir, parts[0], 0);
    if r.Some? {
      t := OneTree(f.vol, f.chains, r.value);
      OneTreeOk(f.vol, f.chains, r.value);
    } else {
      t := Tree(map[], {});
    }
  }

  lemma LastBelow(f: Files, parts: seq<Text>, t: Tree, entries: seq<Slot>)
    requires Sound(f) && |parts| > 1 && Descended(f.vol, f.chains, f.below, parts, |parts| - 1, t, entries)
    ensures Fetches(f, parts, t, Find(entries, parts[|parts| - 1]))
  {
    var e := Find(entries, parts[|parts| - 1]);
    assert parts[|parts| - 1..] == [parts[|parts| - 1]];
    if e.Some? { assert EntryIn(f.vol.spc, t, e.value); }
  }

  lemma LastTree(f: Files, parts: seq<Text>, t: Tree, entries: seq<Slot>) returns (t': Tree)
    requires Sound(f) && parts != [] && Entered(f, parts, |parts| - 1, t, entries)
    ensures Fetches(f, parts, t', Find(entries, parts[|parts| - 1]))
  {
    if |parts| == 1 {
      t' := LastRoot(f, parts);
    } else {
      t' := t;
      LastBelow(f, parts, t, entries);
    }
  }

  /** Following the links of a file's entry gives the file's bytes. */
  lemma GatherFile(f: Files, t: Tree, e: Slot)
    requires Sound(f) && TreeChains(f.vol, t) && EntryIn(f.vol.spc, t, e) && !IsDirectory(e)
    ensures Gather(f.vol.fats[0], f.vol.data, f.vol.spc, SlotCluster(e), SlotSize(e)) == Some(FileBytes(f.vol, t, e))
  {
    var c := SlotCluster(e);
    if c in t.chains { GatherFrom(f.vol.fats[0], f.vol.data, f.vol.spc, t.chains[c], 0, SlotSize(e)); }
  }
}

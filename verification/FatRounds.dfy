/** Creating, reading back and deleting on values: what each step does to every path. */
module FatRounds {
  import opened Options
  import opened FatNames
  import opened FatChains
  import opened FatData
  import opened FatModel
  import opened FatFiles
  import opened FatPaths

  predicate HasVacant(dir: seq<Slot>)
    requires DirOk(dir)
  {
    exists i | 0 <= i < |dir| :: IsEnd(dir[i]) || IsDeleted(dir[i])
  }

  /** What is known of a slot written for stored bytes. */
  predicate SlotFor(v: Volume, chain: seq<nat>, k: nat, bytes: seq<nat>, slot: Slot) {
    && DirOk(v.dir) && FirstVacant(v.dir, k) && chain != [] && |bytes| <= |chain| * (v.spc * SECTOR)
    && |slot| == 32 && IsShown(slot) && !IsDirectory(slot) && FreshName(v.dir, SlotName(slot))
    && SlotCluster(slot) == chain[0] && SlotSize(slot) == |bytes| % 0x1_0000_0000
  }

  lemma StoredSlotOk(v: Volume, chains: map<nat, seq<nat>>, v1: Volume, chain: seq<nat>, k: nat, bytes: seq<nat>,
                     slot: Slot)
    requires WellFormed(v, chains) && Stored(v, v1, chain, bytes) && v1.dir == v.dir
    requires SlotFor(v, chain, k, bytes, slot)
    ensures WellFormed(v1, chains) && ReadsSame(v, chains, v1, chains)
    ensures k !in chains && WellFormed(WithSlot(v1, k, slot), chains[k := chain])
  {
    StoredHarmless(v, v1, chains, chain, bytes);
    StoredKeeps(v, v1, chains, chain, bytes);
    NamedOk(v1, chains, k, slot, SlotName(slot), chain);
  }

  /** One part: the new name reads as the bytes, another name as before. */
  lemma StoredSlotReads(v: Volume, chains: map<nat, seq<nat>>, v1: Volume, chain: seq<nat>, k: nat, bytes: seq<nat>,
                        slot: Slot, other: Text)
    requires WellFormed(v, chains) && Stored(v, v1, chain, bytes) && v1.dir == v.dir
    requires SlotFor(v, chain, k, bytes, slot)
    requires WellFormed(v1, chains) && ReadsSame(v, chains, v1, chains)
    requires k !in chains && WellFormed(WithSlot(v1, k, slot), chains[k := chain])
    ensures ReadResult(WithSlot(v1, k, slot), chains[k := chain], other)
            == if other == SlotName(slot) then Some(bytes[..SlotSize(slot)]) else ReadResult(v, chains, other)
  {
    if other == SlotName(slot) {
      StoredSlotNew(v, chains, v1, chain, k, bytes, slot);
    } else {
      NamedOthers(v1, chains, k, slot, SlotName(slot), chain, other);
    }
  }

  lemma StoredSlotNew(v: Volume, chains: map<nat, seq<nat>>, v1: Volume, chain: seq<nat>, k: nat, bytes: seq<nat>,
                      slot: Slot)
    requires WellFormed(v1, chains) && Stored(v, v1, chain, bytes) && v1.dir == v.dir
    requires SlotFor(v, chain, k, bytes, slot)
    requires k !in chains && WellFormed(WithSlot(v1, k, slot), chains[k := chain])
    ensures ReadResult(WithSlot(v1, k, slot), chains[k := chain], SlotName(slot)) == Some(bytes[..SlotSize(slot)])
  {
    NamedReads(v1, chains, k, slot, SlotName(slot), chain);
    FrontOf(bytes, ChainBytes(v1.data, v1.spc, chain), SlotSize(slot));
  }

  /** Any path: only the new name's is new. */
  lemma StoredSlotPath(v: Volume, chains: map<nat, seq<nat>>, below: map<nat, Tree>, v1: Volume, chain: seq<nat>,
                       k: nat, bytes: seq<nat>, slot: Slot, parts: seq<Text>)
    requires WellFormed(v, chains) && Stored(v, v1, chain, bytes) && v1.dir == v.dir
    requires SlotFor(v, chain, k, bytes, slot)
    requires WellFormed(v1, chains) && ReadsSame(v, chains, v1, chains)
    requires k !in chains && WellFormed(WithSlot(v1, k, slot), chains[k := chain]) && TreesOk(v, chains, below)
    requires TreesOk(WithSlot(v1, k, slot), chains[k := chain], below) && TreesKept(v, WithSlot(v1, k, slot), below)
    ensures PathAdded(v, chains, below, WithSlot(v1, k, slot), chains[k := chain], SlotName(slot), bytes, parts)
  {
    if |parts| == 1 {
      assert parts == [parts[0]];
      StoredSlotReads(v, chains, v1, chain, k, bytes, slot, parts[0]);
    } else if |parts| > 1 {
      AddedPath(v, chains, below, WithSlot(v1, k, slot), chain, k, slot, parts);
    }
  }

  /** Storing the bytes and naming the chain adds the file. */
  lemma StoredSlotAdded(v: Volume, chains: map<nat, seq<nat>>, below: map<nat, Tree>, v1: Volume, chain: seq<nat>,
                        k: nat, bytes: seq<nat>, slot: Slot)
    requires WellFormed(v, chains) && TreesOk(v, chains, below) && Stored(v, v1, chain, bytes) && v1.dir == v.dir
    requires SlotFor(v, chain, k, bytes, slot)
    ensures WellFormed(WithSlot(v1, k, slot), chains[k := chain])
    ensures TreesOk(WithSlot(v1, k, slot), chains[k := chain], below)
    ensures FileAdded(v, chains, below, WithSlot(v1, k, slot), chains[k := chain], SlotName(slot), bytes)
  {
    StoredSlotOk(v, chains, v1, chain, k, bytes, slot);
    AddedTrees(v, v1, chains, below, chain, bytes, k, slot);
    var v2, chains2, name := WithSlot(v1, k, slot), chains[k := chain], SlotName(slot);
    forall parts ensures PathAdded(v, chains, below, v2, chains2, name, bytes, parts) {
      StoredSlotPath(v, chains, below, v1, chain, k, bytes, slot, parts);
    }
  }

  /** The slot that naming writes is such a slot. */
  lemma FileSlotFor(v: Volume, chain: seq<nat>, k: nat, name: Text, bytes: seq<nat>)
    requires DirOk(v.dir) && FirstVacant(v.dir, k) && chain != [] && |bytes| <= |chain| * (v.spc * SECTOR)
    requires Nameable(name) && FreshName(v.dir, ShownName(name)) && chain[0] < 0x1_0000
    ensures SlotFor(v, chain, k, bytes, FileSlot(name, chain[0], |bytes|))
    ensures SlotName(FileSlot(name, chain[0], |bytes|)) == ShownName(name)
  {
    SlotRoundTrip(name, chain[0], |bytes|);
  }

  /** A chain that no slot names yet changes no path. */
  lemma StoredPaths(v: Volume, v': Volume, chains: map<nat, seq<nat>>, below: map<nat, Tree>, chain: seq<nat>,
                    bytes: seq<nat>)
    requires WellFormed(v, chains) && TreesOk(v, chains, below) && Stored(v, v', chain, bytes) && v'.dir == v.dir
    ensures WellFormed(v', chains) && TreesOk(v', chains, below) && PathsSame(v, chains, v', chains, below)
    ensures FreeSet(v'.fats[0]) == FreeSet(v.fats[0]) - Elements(chain)
  {
    StoredHarmless(v, v', chains, chain, bytes);
    StoredTrees(v, v', below, chain, bytes);
    PathsKept(v, v', chains, below);
    NewChainFree(v.fats[0], v'.fats[0], chain);
  }

  lemma MarkedPaths(v: Volume, v': Volume, chains: map<nat, seq<nat>>, below: map<nat, Tree>, found: seq<nat>)
    requires WellFormed(v, chains) && TreesOk(v, chains, below) && v' == v.(fats := v'.fats) && Mirrored(v'.fats)
    requires Marked(v.fats[0], v'.fats[0], found)
    ensures WellFormed(v', chains) && TreesOk(v', chains, below) && PathsSame(v, chains, v', chains, below)
  {
    MarkedHarmless(v, v', chains, found);
    MarkedTrees(v, v', below, found);
    PathsKept(v, v', chains, below);
  }

  lemma FrontOf(bytes: seq<nat>, all: seq<nat>, n: nat)
    requires bytes <= all && n <= |bytes|
    ensures all[..n] == bytes[..n]
  {
  }

  // ---------------------------------------------------------------
  // The volume with the chains and trees that explain it
  // ---------------------------------------------------------------

  datatype Files = Files(vol: Volume, chains: map<nat, seq<nat>>, below: map<nat, Tree>)

  ghost predicate Sound(f: Files) {
    WellFormed(f.vol, f.chains) && TreesOk(f.vol, f.chains, f.below)
  }

  /** Same directory and chains, and every path reads as before. */
  ghost predicate Unharmed(f: Files, f': Files) {
    && Sound(f) && Sound(f') && f'.chains == f.chains && f'.below == f.below && f'.vol.dir == f.vol.dir
    && PathsSame(f.vol, f.chains, f'.vol, f.chains, f.below)
  }

  /** What creating did to table, data and directory. */
  ghost predicate Created(v: Volume, v': Volume, name: Text, bytes: seq<nat>, k: nat, chain: seq<nat>) {
    && DirOk(v.dir) && Stored(v, v', chain, bytes) && FirstVacant(v.dir, k)
    && v'.dir == v.dir[k := FileSlot(name, chain[0], |bytes|)]
  }

  /** One file is added, under the name that its slot shows. */
  ghost predicate Added(f: Files, f': Files, name: Text, bytes: seq<nat>, k: nat, chain: seq<nat>) {
    && Sound(f) && Sound(f') && Created(f.vol, f'.vol, name, bytes, k, chain)
    && f'.chains == f.chains[k := chain] && f'.below == f.below
    && FileAdded(f.vol, f.chains, f.below, f'.vol, f'.chains, ShownName(name), bytes)
  }

  /** The clusters of a new chain are lost to the free set. */
  predicate ChainLost(fat: Fat, fat': Fat, chain: seq<nat>) {
    NoRepeat(chain) && Elements(chain) <= FreeSet(fat) && FreeSet(fat') == FreeSet(fat) - Elements(chain)
  }

  lemma NewChainLost(fat: Fat, fat': Fat, chain: seq<nat>)
    requires NewChain(fat, fat', chain)
    ensures ChainLost(fat, fat', chain)
  {
    ChainNoRepeat(fat', chain);
    NewChainFree(fat, fat', chain);
    forall c | c in chain ensures c in FreeSet(fat) {
      var i :| 0 <= i < |chain| && chain[i] == c;
    }
  }

  /** What a failed create did to the free clusters: all are gone, or exactly the new chain's. */
  predicate CreateFailed(v: Volume, v': Volume, name: Text, bytes: seq<nat>, chain: seq<nat>) {
    && v.fats != [] && v'.fats != [] && v.spc > 0
    && if !FreshName(v.dir, name) then v' == v
       else if |FreeSet(v.fats[0])| < ClusterCount(|bytes|, v.spc * SECTOR) then FreeSet(v'.fats[0]) == {}
       else |chain| == ClusterCount(|bytes|, v.spc * SECTOR) && ChainLost(v.fats[0], v'.fats[0], chain)
  }

  /** Slot i's name is gone, its clusters are free, and every path that does not begin with it reads as before. */
  ghost predicate Removed(f: Files, f': Files, i: nat) {
    && Sound(f) && Sound(f') && Shown(f.vol.dir, i) && ChainGone(f.vol, f.chains, f'.vol.fats, i)
    && |f'.vol.fats| == |f.vol.fats| && f'.vol == Deleted(f.vol, f'.vol.fats, i)
    && f'.chains == f.chains - {i} && f'.below == f.below - {i}
    && FreeSet(f'.vol.fats[0]) == FreeSet(f.vol.fats[0]) + (if i in f.chains then Elements(f.chains[i]) else {})
    && PathsRemoved(f.vol, f.chains, f.below, f'.vol, f'.chains, f'.below, SlotName(f.vol.dir[i]))
  }

  function ReadFrom(f: Files, path: Text): Option<seq<nat>>
    requires Sound(f)
  {
    ReadPath(f.vol, f.chains, f.below, Parts(path))
  }

  lemma AddedReadsBack(f: Files, f': Files, name: Text, bytes: seq<nat>, k: nat, chain: seq<nat>)
    requires Added(f, f', name, bytes, k, chain)
    ensures ReadFrom(f, name).None? ==>
              (ReadFrom(f', name) == Some(Sized(bytes)) <==> Parts(name) == [ShownName(name)])
  {
    if ReadFrom(f, name).None? {
      ReadsBackIff(f.vol, f.chains, f.below, f'.vol, f'.chains, ShownName(name), bytes, Parts(name));
    }
  }

  /** Table and chains are as before, and so is every path. */
  ghost predicate Restored(f: Files, f': Files) {
    && Sound(f) && Sound(f') && f'.vol.fats == f.vol.fats && f'.chains == f.chains && f'.below == f.below
    && PathsSame(f.vol, f.chains, f'.vol, f.chains, f.below)
  }

  // ---------------------------------------------------------------
  // Deletion's own idea of a name
  // ---------------------------------------------------------------

  /** The name as deletion parses it: a field that is not ASCII reads as empty. */
  function DeleteName(s: Slot): Text
    requires |s| == 32
  {
    JoinName(if IsAscii(s[..8]) then TrimEnd(s[..8]) else [], if IsAscii(s[8..11]) then TrimEnd(s[8..11]) else [])
  }

  /** For an ASCII slot, deletion and listing agree on the name. */
  lemma DeleteNameAgrees(s: Slot)
    requires |s| == 32 && IsAscii(s[..11])
    ensures DeleteName(s) == SlotName(s)
  {
    assert s[..11][..8] == s[..8] && s[..11][8..] == s[8..11];
  }

  /** The first shown slot that deletion takes for the name. */
  function DeleteTarget(dir: seq<Slot>, name: Text, from: nat): Option<nat>
    requires DirOk(dir) && from <= |dir|
    decreases |dir| - from
  {
    if from == |dir| || IsEnd(dir[from]) then None
    else if Shown(dir, from) && DeleteName(dir[from]) == name then Some(from)
    else DeleteTarget(dir, name, from + 1)
  }

  lemma {:induction false} DeleteTargetFinds(dir: seq<Slot>, name: Text, from: nat)
    requires DirOk(dir) && from <= |dir|
    ensures var r := DeleteTarget(dir, name, from);
            && (r.None? ==> forall i: nat | from <= i && Shown(dir, i) :: DeleteName(dir[i]) != name)
            && (r.Some? ==> from <= r.value < |dir| && Shown(dir, r.value) && DeleteName(dir[r.value]) == name
                            && forall i: nat | from <= i < r.value && Shown(dir, i) :: DeleteName(dir[i]) != name)
    decreases |dir| - from
  {
    if from < |dir| && !IsEnd(dir[from]) && !(Shown(dir, from) && DeleteName(dir[from]) == name) {
      DeleteTargetFinds(dir, name, from + 1);
    }
  }

  /** No shown slot before k reads as the name for deletion. */
  predicate NotTaken(dir: seq<Slot>, name: Text, k: nat) {
    forall i: nat | i < k && Shown(dir, i) :: DeleteName(dir[i]) != name
  }

  /** After creation deletion takes the new slot exactly when the name fits and no earlier slot is taken. */
  lemma TargetIsNew(dir: seq<Slot>, k: nat, name: Text, first: nat, size: nat)
    requires DirOk(dir) && NamesDiffer(dir) && FirstVacant(dir, k) && Nameable(name) && FreshName(dir, ShownName(name))
    requires first < 0x1_0000
    ensures |FileSlot(name, first, size)| == 32 && DirOk(dir[k := FileSlot(name, first, size)])
    ensures DeleteTarget(dir[k := FileSlot(name, first, size)], name, 0) == Some(k)
            <==> Fits83(name) && NotTaken(dir, name, k)
  {
    var slot := FileSlot(name, first, size);
    SlotRoundTrip(name, first, size);
    SlotDirOk(dir, k, slot, ShownName(name));
    NewDeleteName(name, first, size);
    NameRoundTrip(name);
    TargetAt(dir, k, slot, name);
  }

  lemma TargetAt(dir: seq<Slot>, k: nat, slot: Slot, name: Text)
    requires k < |dir| && |slot| == 32 && DirOk(dir[k := slot]) && Shown(dir[k := slot], k)
    ensures DeleteTarget(dir[k := slot], name, 0) == Some(k) <==> DeleteName(slot) == name && NotTaken(dir, name, k)
  {
    var dir' := dir[k := slot];
    DeleteTargetFinds(dir', name, 0);
    assert forall i: nat | i < k :: dir'[i] == dir[i] && Shown(dir', i) == Shown(dir, i);
  }

  lemma NewDeleteName(name: Text, first: nat, size: nat)
    requires IsAscii(name)
    ensures |FileSlot(name, first, size)| == 32 && DeleteName(FileSlot(name, first, size)) == ShownName(name)
  {
    FileSlotFields(name, first, size);
    FormatAscii(name);
    DeleteNameAgrees(FileSlot(name, first, size));
  }

  /** Creating a file and deleting by its name, on values. */
  lemma CreateDeleteIff(f: Files, f1: Files, f2: Files, name: Text, bytes: seq<nat>, k: nat, chain: seq<nat>,
                        r: Option<nat>)
    requires Added(f, f1, name, bytes, k, chain) && Nameable(name) && FreshName(f.vol.dir, ShownName(name))
    requires r == DeleteTarget(f1.vol.dir, name, 0)
    requires if r.Some? then Removed(f1, f2, r.value) else f2 == f1
    ensures f2.vol.fats == f.vol.fats <==> Fits83(name) && NotTaken(f.vol.dir, name, k)
    ensures f2.vol.fats == f.vol.fats ==> r == Some(k) && Restored(f, f2)
  {
    assert chain[0] < 0x1_0000;
    TargetIsNew(f.vol.dir, k, name, chain[0], |bytes|);
    if r == Some(k) {
      NameRoundTrip(name);
      RestoredTable(f, f1, f2, name, bytes, k, chain);
      RestoredPaths(f, f1, f2, name, bytes, k, chain);
    } else {
      NotRestored(f, f1, f2, name, bytes, k, chain, r);
    }
  }

  /** The chain of a file just created is free again after deletion, in every copy of the table. */
  lemma RestoredTable(f: Files, f1: Files, f2: Files, name: Text, bytes: seq<nat>, k: nat, chain: seq<nat>)
    requires Added(f, f1, name, bytes, k, chain) && Removed(f1, f2, k)
    ensures f2.vol.fats == f.vol.fats
  {
    AllocateFreeRestores(f.vol.fats[0], f1.vol.fats[0], f2.vol.fats[0], chain);
  }

  /** If deletion took another slot or none, the new chain is still in the table. */
  lemma NotRestored(f: Files, f1: Files, f2: Files, name: Text, bytes: seq<nat>, k: nat, chain: seq<nat>,
                    r: Option<nat>)
    requires Added(f, f1, name, bytes, k, chain) && r != Some(k)
    requires if r.Some? then Removed(f1, f2, r.value) else f2 == f1
    ensures f2.vol.fats != f.vol.fats
  {
    var c := chain[0];
    HeadUsed(f.vol.fats[0], f1.vol.fats[0], chain);
    if r.Some? { OtherKept(f1.vol, f1.chains, f2.vol.fats, k, r.value); }
    assert f2.vol.fats[0][c] == f1.vol.fats[0][c];
  }

  lemma HeadUsed(fat: Fat, fat': Fat, chain: seq<nat>)
    requires NewChain(fat, fat', chain)
    ensures chain[0] < |fat| && fat[chain[0]] == 0 && fat'[chain[0]] != 0
  {
    assert chain[0] in chain;
    ChainHead(fat', chain);
  }

  /** Freeing another slot's chain leaves the first entry of a chain alone. */
  lemma OtherKept(v: Volume, chains: map<nat, seq<nat>>, fats: seq<Fat>, k: nat, i: nat)
    requires WellFormed(v, chains) && k in chains && i != k && ChainGone(v, chains, fats, i)
    ensures chains[k][0] < |fats[0]| && chains[k][0] < |v.fats[0]| && fats[0][chains[k][0]] == v.fats[0][chains[k][0]]
  {
    assert IsChain(v.fats[0], chains[k]);
    if i in chains {
      assert Disjoint(chains[k], chains[i]);
      assert chains[k][0] in chains[k];
    }
  }

  lemma FreshLeadsNowhere(v: Volume, chains: map<nat, seq<nat>>, below: map<nat, Tree>, name: Text, parts: seq<Text>)
    requires WellFormed(v, chains) && TreesOk(v, chains, below) && FreshName(v.dir, name)
    requires parts != [] && parts[0] == name
    ensures ReadPath(v, chains, below, parts).None?
  {
    LookupFinds(v.dir, name, 0);
  }

  /** A name that was fresh reads as nothing before creation and after deletion. */
  lemma RestoredPaths(f: Files, f1: Files, f2: Files, name: Text, bytes: seq<nat>, k: nat, chain: seq<nat>)
    requires Added(f, f1, name, bytes, k, chain) && Removed(f1, f2, k) && f2.vol.fats == f.vol.fats
    requires IsAscii(name) && FreshName(f.vol.dir, ShownName(name))
    ensures Restored(f, f2)
  {
    NotThere(f, k);
    MapsBack(f, f1, f2, k, chain);
    SlotNameBack(name, chain[0], |bytes|);
    PathsBack(f, f1, f2, ShownName(name), bytes);
  }

  lemma MapsBack(f: Files, f1: Files, f2: Files, k: nat, chain: seq<nat>)
    requires k !in f.chains && k !in f.below && f1.chains == f.chains[k := chain] && f1.below == f.below
    requires f2.chains == f1.chains - {k} && f2.below == f1.below - {k}
    ensures f2.chains == f.chains && f2.below == f.below
  {
  }

  lemma PathsBack(f: Files, f1: Files, f2: Files, name: Text, bytes: seq<nat>)
    requires Sound(f) && Sound(f1) && Sound(f2) && f2.chains == f.chains && f1.below == f.below && f2.below == f.below
    requires FileAdded(f.vol, f.chains, f.below, f1.vol, f1.chains, name, bytes)
    requires PathsRemoved(f1.vol, f1.chains, f1.below, f2.vol, f2.chains, f2.below, name)
    requires FreshName(f.vol.dir, name)
    ensures PathsSame(f.vol, f.chains, f2.vol, f.chains, f.below)
  {
    forall parts ensures PathSame(f.vol, f.chains, f2.vol, f.chains, f.below, parts) {
      assert PathAdded(f.vol, f.chains, f.below, f1.vol, f1.chains, name, bytes, parts);
      assert PathRemoved(f1.vol, f1.chains, f1.below, f2.vol, f2.chains, f2.below, name, parts);
      PathBack(f, f1, f2, name, bytes, parts);
    }
  }

  lemma NotThere(f: Files, k: nat)
    requires Sound(f) && FirstVacant(f.vol.dir, k)
    ensures k !in f.chains && k !in f.below
  {
  }

  lemma PathBack(f: Files, f1: Files, f2: Files, name: Text, bytes: seq<nat>, parts: seq<Text>)
    requires Sound(f) && Sound(f1) && Sound(f2) && f2.chains == f.chains && f1.below == f.below && f2.below == f.below
    requires PathAdded(f.vol, f.chains, f.below, f1.vol, f1.chains, name, bytes, parts)
    requires PathRemoved(f1.vol, f1.chains, f1.below, f2.vol, f2.chains, f2.below, name, parts)
    requires FreshName(f.vol.dir, name)
    ensures PathSame(f.vol, f.chains, f2.vol, f.chains, f.below, parts)
  {
    if parts != [] && parts[0] == name { FreshLeadsNowhere(f.vol, f.chains, f.below, name, parts); }
  }

  lemma IsFresh(dir: seq<Slot>, name: Text)
    requires DirOk(dir)
    ensures Find(Listed(dir), name).None? <==> FreshName(dir, name)
  {
    assert dir[0..] == dir;
    FindIsLookup(dir, name, 0);
    LookupFinds(dir, name, 0);
  }

  lemma RemovedAny(v: Volume, chains: map<nat, seq<nat>>, below: map<nat, Tree>, fats: seq<Fat>, i: nat,
                   parts: seq<Text>)
    requires WellFormed(v, chains) && TreesOk(v, chains, below) && Shown(v.dir, i) && ChainGone(v, chains, fats, i)
    requires WellFormed(Deleted(v, fats, i), chains - {i}) && TreesOk(Deleted(v, fats, i), chains - {i}, below - {i})
    requires TreesKept(v, Deleted(v, fats, i), below - {i})
    ensures PathRemoved(v, chains, below, Deleted(v, fats, i), chains - {i}, below - {i}, SlotName(v.dir[i]), parts)
  {
    if |parts| == 1 {
      DeletedReads(v, chains, fats, i, parts[0]);
    } else if |parts| > 1 {
      RemovedPath(v, chains, below, fats, i, parts);
    }
  }

  lemma Removal(v: Volume, chains: map<nat, seq<nat>>, below: map<nat, Tree>, fats: seq<Fat>, i: nat)
    requires WellFormed(v, chains) && TreesOk(v, chains, below)
    requires Shown(v.dir, i) && ChainGone(v, chains, fats, i) && |fats| == |v.fats|
    ensures Removed(Files(v, chains, below), Files(Deleted(v, fats, i), chains - {i}, below - {i}), i)
  {
    DeletedOk(v, chains, fats, i);
    DeletedFree(v, chains, fats, i);
    RemovedTrees(v, chains, below, fats, i);
    forall parts
      ensures PathRemoved(v, chains, below, Deleted(v, fats, i), chains - {i}, below - {i}, SlotName(v.dir[i]), parts)
    {
      RemovedAny(v, chains, below, fats, i, parts);
    }
  }

  lemma RemovalDone(f: Files, f': Files, i: nat)
    requires Sound(f) && Shown(f.vol.dir, i) && ChainGone(f.vol, f.chains, f'.vol.fats, i)
    requires |f'.vol.fats| == |f.vol.fats|
    requires f' == Files(Deleted(f.vol, f'.vol.fats, i), f.chains - {i}, f.below - {i})
    ensures Sound(f') && Removed(f, f', i)
  {
    Removal(f.vol, f.chains, f.below, f'.vol.fats, i);
  }
}

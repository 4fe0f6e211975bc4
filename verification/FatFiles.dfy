/** What creating and deleting a file do to a well-formed volume. */
module FatFiles {
  import opened Options
  import opened FatNames
  import opened FatChains
  import opened FatData
  import opened FatModel

  // ---------------------------------------------------------------
  // Create
  // ---------------------------------------------------------------

  /** The first slot that is empty or deleted. */
  predicate FirstVacant(dir: seq<Slot>, k: nat)
    requires DirOk(dir)
  {
    && k < |dir| && (IsEnd(dir[k]) || IsDeleted(dir[k]))
    && (forall i | 0 <= i < k :: !IsEnd(dir[i]) && !IsDeleted(dir[i]))
  }

  /** A name whose slot a listing shows. */
  predicate Nameable(name: Text) {
    IsAscii(name) && (name == [] || name[0] != 0)
  }

  predicate FreshName(dir: seq<Slot>, name: Text) {
    forall i: nat | i < |dir| && Shown(dir, i) :: SlotName(dir[i]) != name
  }

  /** The new chain is linked, holds the bytes, and nothing else in the table or data area moved. */
  ghost predicate Stored(v: Volume, v': Volume, chain: seq<nat>, bytes: seq<nat>) {
    && v.fats != [] && Mirrored(v'.fats) && |v'.fats| == |v.fats|
    && IsArea(v.data) && IsArea(v'.data) && v'.spc == v.spc
    && NewChain(v.fats[0], v'.fats[0], chain) && OnlyChain(v.data, v'.data, v.spc, chain)
    && AllOnDevice(v'.data, v.spc, chain) && bytes <= ChainBytes(v'.data, v.spc, chain)
  }

  lemma NewChainFree(fat: Fat, fat': Fat, chain: seq<nat>)
    requires NewChain(fat, fat', chain)
    ensures FreeSet(fat') == FreeSet(fat) - Elements(chain)
  {
    forall c | c in chain ensures c < |fat| && fat'[c] != 0 {
      var i :| 0 <= i < |chain| && chain[i] == c;
      assert i < |chain| - 1 ==> fat'[c] == chain[i + 1];
    }
  }

  /** Storing a chain keeps every file's chain and bytes. */
  lemma StoredKeeps(v: Volume, v': Volume, chains: map<nat, seq<nat>>, chain: seq<nat>, bytes: seq<nat>)
    requires WellFormed(v, chains) && Stored(v, v', chain, bytes)
    ensures ChainsKept(v, v', chains) && forall i | i in chains :: Disjoint(chains[i], chain)
  {
    forall i | i in chains
      ensures IsChain(v'.fats[0], chains[i]) && AllOnDevice(v'.data, v.spc, chains[i]) && Disjoint(chains[i], chain)
      ensures ChainBytes(v'.data, v.spc, chains[i]) == ChainBytes(v.data, v.spc, chains[i])
    {
      NewChainKeeps(v.fats[0], v'.fats[0], chain, chains[i]);
      forall j | 0 <= j < |chains[i]|
        ensures chains[i][j] >= 2 && chains[i][j] !in chain
      {
        assert chains[i][j] in chains[i];
      }
      OtherChain(v.data, v'.data, v.spc, chain, chains[i]);
    }
  }

  /** A chain that no slot names yet changes no file: what a failed create leaves behind. */
  lemma StoredHarmless(v: Volume, v': Volume, chains: map<nat, seq<nat>>, chain: seq<nat>, bytes: seq<nat>)
    requires WellFormed(v, chains) && Stored(v, v', chain, bytes) && v'.dir == v.dir
    ensures WellFormed(v', chains) && ReadsSame(v, chains, v', chains)
  {
    StoredKeeps(v, v', chains, chain, bytes);
    NewChainFree(v.fats[0], v'.fats[0], chain);
    FilesUntouched(v, v', chains);
    UntouchedReads(v, v', chains);
  }

  /** Clusters marked but not yet linked change no file either. */
  lemma MarkedHarmless(v: Volume, v': Volume, chains: map<nat, seq<nat>>, found: seq<nat>)
    requires WellFormed(v, chains) && v' == v.(fats := v'.fats) && Mirrored(v'.fats)
    requires Marked(v.fats[0], v'.fats[0], found)
    ensures WellFormed(v', chains) && ReadsSame(v, chains, v', chains)
  {
    forall i | i in chains ensures IsChain(v'.fats[0], chains[i]) {
      MarkedKeeps(v.fats[0], v'.fats[0], found, chains[i]);
    }
    FilesUntouched(v, v', chains);
    UntouchedReads(v, v', chains);
  }

  lemma MarkedKeeps(fat: Fat, fat': Fat, found: seq<nat>, chain: seq<nat>)
    requires Marked(fat, fat', found) && IsChain(fat, chain)
    ensures IsChain(fat', chain)
  {
    forall c | c in chain ensures fat'[c] == fat[c] {
      var i :| 0 <= i < |chain| && chain[i] == c;
      assert i < |chain| - 1 ==> fat[c] == chain[i + 1];
    }
    ChainKept(fat, fat', chain);
  }

  function WithSlot(v: Volume, k: nat, slot: Slot): Volume
    requires k < |v.dir|
  {
    v.(dir := v.dir[k := slot])
  }

  lemma SlotDirOk(dir: seq<Slot>, k: nat, slot: Slot, name: Text)
    requires DirOk(dir) && NamesDiffer(dir) && FirstVacant(dir, k) && |slot| == 32 && IsShown(slot)
    requires SlotName(slot) == name && FreshName(dir, name)
    ensures DirOk(dir[k := slot]) && NamesDiffer(dir[k := slot])
    ensures forall i: nat | i != k :: Shown(dir[k := slot], i) == Shown(dir, i)
    ensures Shown(dir[k := slot], k) && !Shown(dir, k)
  {
    var dir' := dir[k := slot];
    forall i, j | 0 <= i < j < |dir'| && IsEnd(dir'[i]) ensures IsEnd(dir'[j]) {
      assert i != k && i > k;
    }
  }

  /** Naming a stored chain in the directory adds exactly one file. */
  lemma NamedOk(v: Volume, chains: map<nat, seq<nat>>, k: nat, slot: Slot, name: Text, chain: seq<nat>)
    requires WellFormed(v, chains) && FirstVacant(v.dir, k) && |slot| == 32 && IsShown(slot) && !IsDirectory(slot)
    requires SlotName(slot) == name && FreshName(v.dir, name)
    requires IsChain(v.fats[0], chain) && SlotCluster(slot) == chain[0] && AllOnDevice(v.data, v.spc, chain)
    requires SlotSize(slot) <= |chain| * (v.spc * SECTOR) && (forall i | i in chains :: Disjoint(chains[i], chain))
    ensures k !in chains && WellFormed(WithSlot(v, k, slot), chains[k := chain])
  {
    var v', chains' := WithSlot(v, k, slot), chains[k := chain];
    SlotDirOk(v.dir, k, slot, name);
    forall i | i in chains' && i != k ensures Disjoint(chain, chains'[i]) {
      assert Disjoint(chains[i], chain);
    }
    forall i | i in chains' ensures HasChain(v'.dir, i) && ChainFits(v', i, chains'[i]) {
      if i != k { assert ChainFits(v, i, chains[i]); }
    }
  }

  /** The new file reads back. */
  lemma NamedReads(v: Volume, chains: map<nat, seq<nat>>, k: nat, slot: Slot, name: Text, chain: seq<nat>)
    requires WellFormed(v, chains) && FirstVacant(v.dir, k) && |slot| == 32 && IsShown(slot) && !IsDirectory(slot)
    requires SlotName(slot) == name && FreshName(v.dir, name) && k !in chains
    requires WellFormed(WithSlot(v, k, slot), chains[k := chain])
    ensures AllOnDevice(v.data, v.spc, chain) && SlotSize(slot) <= |ChainBytes(v.data, v.spc, chain)|
    ensures ReadResult(WithSlot(v, k, slot), chains[k := chain], name)
            == Some(ChainBytes(v.data, v.spc, chain)[..SlotSize(slot)])
  {
    var v', chains' := WithSlot(v, k, slot), chains[k := chain];
    SlotDirOk(v.dir, k, slot, name);
    assert ChainFits(v', k, chains'[k]);
    ChainBytesLength(v.data, v.spc, chain);
    LookupOnly(v'.dir, name, k);
  }

  /** Every other name reads as before. */
  lemma NamedOthers(v: Volume, chains: map<nat, seq<nat>>, k: nat, slot: Slot, name: Text, chain: seq<nat>, other: Text)
    requires WellFormed(v, chains) && FirstVacant(v.dir, k) && |slot| == 32 && IsShown(slot) && !IsDirectory(slot)
    requires SlotName(slot) == name && FreshName(v.dir, name) && k !in chains
    requires WellFormed(WithSlot(v, k, slot), chains[k := chain])
    requires other != name
    ensures ReadResult(WithSlot(v, k, slot), chains[k := chain], other) == ReadResult(v, chains, other)
  {
    NamedLookup(v.dir, k, slot, name, other);
    LookupFinds(v.dir, other, 0);
    var r := Lookup(v.dir, other, 0);
    if r.Some? && !IsDirectory(v.dir[r.value]) { NamedContent(v, chains, k, slot, chain, r.value); }
  }

  lemma NamedContent(v: Volume, chains: map<nat, seq<nat>>, k: nat, slot: Slot, chain: seq<nat>, i: nat)
    requires WellFormed(v, chains) && k < |v.dir| && WellFormed(WithSlot(v, k, slot), chains[k := chain])
    requires i != k && Shown(v.dir, i) && !IsDirectory(v.dir[i])
    ensures Content(WithSlot(v, k, slot), chains[k := chain], i) == Content(v, chains, i)
  {
  }

  lemma NamedLookup(dir: seq<Slot>, k: nat, slot: Slot, name: Text, other: Text)
    requires DirOk(dir) && NamesDiffer(dir) && FirstVacant(dir, k) && |slot| == 32 && IsShown(slot)
    requires SlotName(slot) == name && FreshName(dir, name) && other != name
    ensures DirOk(dir[k := slot]) && Lookup(dir[k := slot], other, 0) == Lookup(dir, other, 0)
    ensures Lookup(dir, other, 0).Some? ==> Lookup(dir, other, 0).value != k
  {
    SlotDirOk(dir, k, slot, name);
    LookupFinds(dir, other, 0);
    LookupFinds(dir[k := slot], other, 0);
    var r := Lookup(dir, other, 0);
    if r.Some? { LookupOnly(dir[k := slot], other, r.value); }
  }

  // ---------------------------------------------------------------
  // Delete
  // ---------------------------------------------------------------

  function Unnamed(dir: seq<Slot>, i: nat): seq<Slot>
    requires i < |dir| && |dir[i]| == 32
  {
    dir[i := dir[i][0 := 0xE5]]
  }

  /** The chain of slot i is gone from the table; without a chain the table is as before. */
  predicate ChainGone(v: Volume, chains: map<nat, seq<nat>>, fats: seq<Fat>, i: nat)
    requires v.fats != []
  {
    && Mirrored(fats)
    && (i in chains ==> Zeroed(v.fats[0], fats[0], chains[i]))
    && (i !in chains ==> fats == v.fats)
  }

  function Deleted(v: Volume, fats: seq<Fat>, i: nat): Volume
    requires i < |v.dir| && |v.dir[i]| == 32
  {
    v.(fats := fats, dir := Unnamed(v.dir, i))
  }

  lemma UnnamedOk(dir: seq<Slot>, i: nat)
    requires DirOk(dir) && NamesDiffer(dir) && Shown(dir, i)
    ensures DirOk(Unnamed(dir, i)) && NamesDiffer(Unnamed(dir, i)) && !Shown(Unnamed(dir, i), i)
    ensures forall j: nat | j != i :: Shown(Unnamed(dir, i), j) == Shown(dir, j)
  {
    var dir' := Unnamed(dir, i);
    assert !IsEnd(dir'[i]);
    forall j, k | 0 <= j < k < |dir'| && IsEnd(dir'[j]) ensures IsEnd(dir'[k]) {
      assert j != i && IsEnd(dir[j]);
      assert k != i;
    }
  }

  lemma DeletedOk(v: Volume, chains: map<nat, seq<nat>>, fats: seq<Fat>, i: nat)
    requires WellFormed(v, chains) && Shown(v.dir, i) && ChainGone(v, chains, fats, i)
    ensures WellFormed(Deleted(v, fats, i), chains - {i})
  {
    var v', chains' := Deleted(v, fats, i), chains - {i};
    UnnamedOk(v.dir, i);
    forall j | j in chains' ensures HasChain(v'.dir, j) && ChainFits(v', j, chains'[j]) {
      assert ChainFits(v, j, chains[j]);
      if i in chains {
        assert Disjoint(chains[j], chains[i]);
        ZeroedKeeps(v.fats[0], fats[0], chains[i], chains[j]);
      }
    }
    DeletedFree(v, chains, fats, i);
  }

  lemma DeletedFree(v: Volume, chains: map<nat, seq<nat>>, fats: seq<Fat>, i: nat)
    requires WellFormed(v, chains) && Shown(v.dir, i) && ChainGone(v, chains, fats, i)
    ensures FreeSet(fats[0]) == if i in chains then FreeSet(v.fats[0]) + Elements(chains[i]) else FreeSet(v.fats[0])
    ensures FreeOnDevice(Deleted(v, fats, i))
  {
    if i in chains {
      ZeroedFree(v.fats[0], fats[0], chains[i]);
      forall c | c in chains[i] ensures OnDevice(v.data, v.spc, c) {
        var j :| 0 <= j < |chains[i]| && chains[i][j] == c;
      }
    }
  }

  /** The name is gone and every other name reads as before. */
  lemma DeletedReads(v: Volume, chains: map<nat, seq<nat>>, fats: seq<Fat>, i: nat, other: Text)
    requires WellFormed(v, chains) && Shown(v.dir, i) && ChainGone(v, chains, fats, i)
    requires WellFormed(Deleted(v, fats, i), chains - {i})
    ensures ReadResult(Deleted(v, fats, i), chains - {i}, other)
            == if other == SlotName(v.dir[i]) then None else ReadResult(v, chains, other)
  {
    var v' := Deleted(v, fats, i);
    UnnamedOk(v.dir, i);
    LookupFinds(v.dir, other, 0);
    LookupFinds(v'.dir, other, 0);
    var r := Lookup(v.dir, other, 0);
    if other == SlotName(v.dir[i]) {
      LookupOnly(v.dir, other, i);
    } else if r.Some? {
      LookupOnly(v'.dir, other, r.value);
      if !IsDirectory(v.dir[r.value]) { DeletedContent(v, chains, fats, i, r.value); }
    }
  }

  lemma DeletedContent(v: Volume, chains: map<nat, seq<nat>>, fats: seq<Fat>, i: nat, j: nat)
    requires WellFormed(v, chains) && i < |v.dir| && |v.dir[i]| == 32 && WellFormed(Deleted(v, fats, i), chains - {i})
    requires i != j && Shown(v.dir, j) && !IsDirectory(v.dir[j])
    ensures Content(Deleted(v, fats, i), chains - {i}, j) == Content(v, chains, j)
  {
  }
}

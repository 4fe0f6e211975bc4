/** A FAT16 volume on values: table copies, root directory, data area, and when they fit together. */
module FatModel {
  import opened Options
  import opened FatNames
  import opened FatChains
  import opened FatData

  datatype Volume = Volume(fats: seq<Fat>, dir: seq<Slot>, data: seq<Sector>, spc: nat)

  /** The copies of the table agree. */
  predicate Mirrored(fats: seq<Fat>) {
    fats != [] && |fats[0]| <= 0x1_0000 && forall i | 0 <= i < |fats| :: fats[i] == fats[0]
  }

  /** Slots have 32 bytes, and nothing follows the slot that ends the directory. */
  predicate DirOk(dir: seq<Slot>) {
    && (forall i | 0 <= i < |dir| :: |dir[i]| == 32)
    && (forall i, j | 0 <= i < j < |dir| && IsEnd(dir[i]) :: IsEnd(dir[j]))
  }

  predicate Shown(dir: seq<Slot>, i: nat) {
    i < |dir| && |dir[i]| == 32 && IsShown(dir[i])
  }

  predicate HasChain(dir: seq<Slot>, i: nat) {
    Shown(dir, i) && SlotCluster(dir[i]) >= 2
  }

  /** Slot i's chain: starts at its first cluster, lies on the device and is long enough for a file's size. */
  predicate ChainFits(v: Volume, i: nat, chain: seq<nat>)
    requires v.fats != [] && Shown(v.dir, i)
  {
    && IsChain(v.fats[0], chain) && chain[0] == SlotCluster(v.dir[i]) && AllOnDevice(v.data, v.spc, chain)
    && (!IsDirectory(v.dir[i]) ==> SlotSize(v.dir[i]) <= |chain| * (v.spc * SECTOR))
  }

  predicate NamesDiffer(dir: seq<Slot>) {
    forall i: nat, j: nat | i < j < |dir| && Shown(dir, i) && Shown(dir, j) :: SlotName(dir[i]) != SlotName(dir[j])
  }

  /** chains gives the cluster chain of every shown slot that has one. */
  predicate ChainsOk(v: Volume, chains: map<nat, seq<nat>>)
    requires v.fats != []
  {
    && (forall i: nat | i < |v.dir| && HasChain(v.dir, i) :: i in chains)
    && (forall i | i in chains :: HasChain(v.dir, i) && ChainFits(v, i, chains[i]))
    && (forall i: nat | i < |v.dir| && Shown(v.dir, i) && i !in chains && !IsDirectory(v.dir[i]) ::
         SlotSize(v.dir[i]) == 0)
    && (forall i, j | i in chains && j in chains && i != j :: Disjoint(chains[i], chains[j]))
  }

  /** Every free cluster lies on the device. */
  predicate FreeOnDevice(v: Volume)
    requires v.fats != []
  {
    forall c | c in FreeSet(v.fats[0]) :: OnDevice(v.data, v.spc, c)
  }

  predicate WellFormed(v: Volume, chains: map<nat, seq<nat>>) {
    && Mirrored(v.fats) && DirOk(v.dir) && IsArea(v.data) && v.spc > 0
    && NamesDiffer(v.dir) && FreeOnDevice(v) && ChainsOk(v, chains)
  }

  /** The bytes of the file in slot i. */
  function Content(v: Volume, chains: map<nat, seq<nat>>, i: nat): seq<nat>
    requires WellFormed(v, chains) && Shown(v.dir, i) && !IsDirectory(v.dir[i])
  {
    if i in chains then
      ChainBytesLength(v.data, v.spc, chains[i]);
      ChainBytes(v.data, v.spc, chains[i])[..SlotSize(v.dir[i])]
    else []
  }

  // ---------------------------------------------------------------
  // Looking up a name
  // ---------------------------------------------------------------

  /** The first shown slot with this name among the first k, with no end of directory before it. */
  function Lookup(dir: seq<Slot>, name: Text, from: nat): Option<nat>
    requires DirOk(dir) && from <= |dir|
    decreases |dir| - from
  {
    if from == |dir| || IsEnd(dir[from]) then None
    else if Shown(dir, from) && SlotName(dir[from]) == name then Some(from)
    else Lookup(dir, name, from + 1)
  }

  /** Looking up finds a slot exactly when some shown slot has the name. */
  lemma {:induction false} LookupFinds(dir: seq<Slot>, name: Text, from: nat)
    requires DirOk(dir) && from <= |dir|
    ensures Lookup(dir, name, from).Some? ==>
              from <= Lookup(dir, name, from).value < |dir| && Shown(dir, Lookup(dir, name, from).value)
              && SlotName(dir[Lookup(dir, name, from).value]) == name
    ensures Lookup(dir, name, from).None? ==> forall i: nat | from <= i && Shown(dir, i) :: SlotName(dir[i]) != name
    decreases |dir| - from
  {
    if from < |dir| && !IsEnd(dir[from]) && !(Shown(dir, from) && SlotName(dir[from]) == name) {
      LookupFinds(dir, name, from + 1);
    }
  }

  /** With distinct names the slot found is the only one. */
  lemma LookupOnly(dir: seq<Slot>, name: Text, i: nat)
    requires DirOk(dir) && NamesDiffer(dir) && Shown(dir, i) && SlotName(dir[i]) == name
    ensures Lookup(dir, name, 0) == Some(i)
  {
    LookupFinds(dir, name, 0);
  }

  /** What reading a file by name gives: none for a missing name or a directory. */
  function ReadResult(v: Volume, chains: map<nat, seq<nat>>, name: Text): Option<seq<nat>>
    requires WellFormed(v, chains)
  {
    LookupFinds(v.dir, name, 0);
    match Lookup(v.dir, name, 0)
    case None => None
    case Some(i) => if IsDirectory(v.dir[i]) then None else Some(Content(v, chains, i))
  }

  // ---------------------------------------------------------------
  // Changes that leave all files alone
  // ---------------------------------------------------------------

  /** The chains of all files are still in place and hold the same bytes. */
  predicate ChainsKept(v: Volume, v': Volume, chains: map<nat, seq<nat>>)
    requires IsArea(v.data) && IsArea(v'.data) && v.fats != [] && v'.fats != []
  {
    forall i | i in chains ::
      && IsChain(v'.fats[0], chains[i])
      && AllOnDevice(v.data, v.spc, chains[i]) && AllOnDevice(v'.data, v.spc, chains[i])
      && ChainBytes(v'.data, v.spc, chains[i]) == ChainBytes(v.data, v.spc, chains[i])
  }

  /** Same directory, chains in place, and no new free cluster off the device. */
  lemma FilesUntouched(v: Volume, v': Volume, chains: map<nat, seq<nat>>)
    requires WellFormed(v, chains) && Mirrored(v'.fats) && IsArea(v'.data) && v'.dir == v.dir && v'.spc == v.spc
    requires |v'.data| == |v.data| && FreeSet(v'.fats[0]) <= FreeSet(v.fats[0]) && ChainsKept(v, v', chains)
    ensures WellFormed(v', chains)
    ensures forall i: nat | Shown(v.dir, i) && !IsDirectory(v.dir[i]) :: Content(v', chains, i) == Content(v, chains, i)
  {
  }

  /** Every name reads as before. */
  ghost predicate ReadsSame(v: Volume, chains: map<nat, seq<nat>>, v': Volume, chains': map<nat, seq<nat>>)
    requires WellFormed(v, chains) && WellFormed(v', chains')
  {
    forall name :: ReadResult(v', chains', name) == ReadResult(v, chains, name)
  }

  lemma UntouchedReads(v: Volume, v': Volume, chains: map<nat, seq<nat>>)
    requires WellFormed(v, chains) && WellFormed(v', chains) && v'.dir == v.dir
    requires forall i: nat | Shown(v.dir, i) && !IsDirectory(v.dir[i]) ::
               Content(v', chains, i) == Content(v, chains, i)
    ensures ReadsSame(v, chains, v', chains)
  {
    forall name ensures ReadResult(v', chains, name) == ReadResult(v, chains, name) {
      LookupFinds(v.dir, name, 0);
    }
  }
}

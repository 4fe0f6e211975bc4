/** The FAT16 driver: table, directory and data operations as they run on the device. */
module FatVolume {
  import opened Options
  import opened FatNames
  import opened FatSpelling
  import opened FatChains
  import opened FatData
  import opened FatModel
  import opened FatFiles
  import opened FatPaths
  import opened FatLoops
  import opened FatRounds
  import opened FatWalks

  /** Names and paths that differ only in the case of letters are treated alike by every operation. */
  lemma SpellingsAlike(f: Files, a: Text, b: Text)
    requires Sound(f) && CaseAlike(a, b)
    ensures EntryAt(f.vol, f.chains, f.below, Parts(Normalize(a)))
              == EntryAt(f.vol, f.chains, f.below, Parts(Normalize(b)))
    ensures ReadFrom(f, Normalize(a)) == ReadFrom(f, Normalize(b))
    ensures FreshName(f.vol.dir, Normalize(a)) <==> FreshName(f.vol.dir, Normalize(b))
    ensures DeleteTarget(f.vol.dir, Normalize(a), 0) == DeleteTarget(f.vol.dir, Normalize(b), 0)
  {
    NormalizeAlike(a, b);
  }

  class Fat16 {
    var fats: seq<Fat>
    var dir: seq<Slot>
    var data: seq<Sector>
    const spc: nat
    ghost var chains: map<nat, seq<nat>>
    ghost var below: map<nat, Tree>

    ghost function View(): Volume
      reads this
    {
      Volume(fats, dir, data, spc)
    }

    ghost function State(): Files
      reads this
    {
      Files(View(), chains, below)
    }

    ghost predicate Valid()
      reads this
    {
      Sound(State())
    }

    constructor (fats: seq<Fat>, dir: seq<Slot>, data: seq<Sector>, spc: nat, ghost chains: map<nat, seq<nat>>,
                 ghost below: map<nat, Tree>)
      requires WellFormed(Volume(fats, dir, data, spc), chains) && TreesOk(Volume(fats, dir, data, spc), chains, below)
      ensures Valid() && View() == Volume(fats, dir, data, spc) && this.chains == chains && this.below == below
    {
      this.fats, this.dir, this.data, this.spc := fats, dir, data, spc;
      this.chains, this.below := chains, below;
    }

    // -------------------------------------------------------------
    // The table
    // -------------------------------------------------------------

    /** Writes an entry in every copy of the table; false if the cluster is not in the table. */
    method WriteFatEntry(c: nat, value: nat) returns (ok: bool)
      requires fats != [] && (forall f | 0 <= f < |fats| :: |fats[f]| == |fats[0]|)
      modifies `fats
      ensures ok <==> c < |old(fats[0])|
      ensures !ok ==> fats == old(fats)
      ensures ok ==> |fats| == |old(fats)| && forall f | 0 <= f < |fats| :: fats[f] == old(fats)[f][c := value]
    {
      if c >= |fats[0]| { return false; }
      for f := 0 to |fats|
        invariant |fats| == |old(fats)|
        invariant forall g | 0 <= g < |fats| :: fats[g] == if g < f then old(fats)[g][c := value] else old(fats)[g]
      {
        var copy: Fat := fats[f][c := value];
        fats := fats[f := copy];
      }
      ok := true;
    }

    /** Frees clusters along the links from first; ends on every table, and zeroes exactly a chain. */
    method FreeClusterChain(first: nat, ghost chain: seq<nat>) returns (ok: bool)
      requires fats != [] && (forall f | 0 <= f < |fats| :: |fats[f]| == |fats[0]|)
      modifies `fats
      ensures |fats| == |old(fats)| && (forall f | 0 <= f < |fats| :: |fats[f]| == |old(fats)[0]|)
      ensures forall f, c | 0 <= f < |fats| && 0 <= c < |fats[f]| :: fats[f][c] == old(fats)[f][c] || fats[f][c] == 0
      ensures IsChain(old(fats[0]), chain) && chain[0] == first && Mirrored(old(fats)) ==>
                ok && Mirrored(fats) && Zeroed(old(fats[0]), fats[0], chain)
    {
      ghost var good := IsChain(fats[0], chain) && chain[0] == first && Mirrored(fats);
      ghost var k: nat := 0;
      var cluster: nat := first;
      if good { ChainNoRepeat(fats[0], chain); }
      while 2 <= cluster <= 0xFFEF
        invariant |fats| == |old(fats)| && (forall f | 0 <= f < |fats| :: |fats[f]| == |old(fats)[0]|)
        invariant forall f, c | 0 <= f < |fats| && 0 <= c < |fats[f]| ::
                    fats[f][c] == old(fats)[f][c] || fats[f][c] == 0
        invariant good ==> Freeing(old(fats[0]), fats, chain, k, cluster)
        decreases |UsedSet(fats[0])|, if IsData(cluster) then 1 else 0
      {
        if cluster >= |fats[0]| { return false; }
        var next := fats[0][cluster];
        ghost var fat := fats[0];
        if good { FreeingStep(old(fats[0]), fats, chain, k, cluster); }
        var wrote := WriteFatEntry(cluster, 0);
        if next != 0 { UsedShrinks(fat, cluster); } else { assert fat[cluster := 0] == fat; }
        cluster := next;
        k := k + 1;
      }
      if good { assert k == |chain| ==> chain[..k] == chain; }
      ok := true;
    }

    /** The lowest free cluster. */
    method FindFreeCluster() returns (r: Option<nat>)
      requires fats != []
      ensures r.None? ==> FreeSet(fats[0]) == {}
      ensures r.Some? ==> r.value in FreeSet(fats[0]) && NoneFreeBelow(fats[0], r.value)
    {
      for c := 0 to |fats[0]|
        invariant NoneFreeBelow(fats[0], c)
      {
        if 2 <= c <= 0xFFEF && fats[0][c] == 0 { return Some(c); }
      }
      r := None;
    }

    /** Marks count free clusters, lowest first, and notes them; with too few it leaves none free. */
    method MarkClusters(count: nat) returns (ok: bool, found: seq<nat>)
      requires Mirrored(fats)
      modifies `fats
      ensures Mirrored(fats) && Marked(old(fats[0]), fats[0], found)
      ensures ok <==> count <= |FreeSet(old(fats[0]))|
      ensures ok ==> |found| == count
      ensures !ok ==> FreeSet(fats[0]) == {}
      ensures |fats| == |old(fats)|
    {
      found := [];
      for i := 0 to count
        invariant |fats| == |old(fats)|
        invariant |found| == i && Mirrored(fats) && Marked(old(fats[0]), fats[0], found)
        invariant i <= |FreeSet(old(fats[0]))|
      {
        MarkedFree(old(fats[0]), fats[0], found);
        var c := FindFreeCluster();
        if c.None? { return false, found; }
        assert |FreeSet(fats[0])| > 0;
        MarkNext(old(fats[0]), fats[0], found, c.value);
        var wrote := WriteFatEntry(c.value, 0xFFFF);
        found := found + [c.value];
      }
      ok := true;
    }

    /** Links the marked clusters one after the other. */
    method LinkClusters(found: seq<nat>, ghost fat: Fat)
      requires Mirrored(fats) && found != [] && Marked(fat, fats[0], found)
      modifies `fats
      ensures Mirrored(fats) && NewChain(fat, fats[0], found) && |fats| == |old(fats)|
    {
      assert forall i | 0 <= i < |found| :: found[i] in found;
      for i := 0 to |found| - 1
        invariant Mirrored(fats) && Linking(fat, fats[0], found, i) && |fats| == |old(fats)|
      {
        LinkNext(fat, fats[0], found, i);
        assert found[i] in found;
        var wrote := WriteFatEntry(found[i], found[i + 1]);
      }
      Linked(fat, fats[0], found);
    }

    /** Allocates a chain of count clusters; with too few free clusters it leaves none free. */
    method AllocateClusters(count: nat) returns (r: Option<nat>, ghost chain: seq<nat>)
      requires Mirrored(fats)
      modifies `fats
      ensures Mirrored(fats) && |fats| == |old(fats)|
      ensures r.None? <==> count == 0 || |FreeSet(old(fats[0]))| < count
      ensures r.None? ==> Marked(old(fats[0]), fats[0], chain)
      ensures r.None? ==> if count == 0 then fats == old(fats) else FreeSet(fats[0]) == {}
      ensures r.Some? ==> |chain| == count && r.value == chain[0] && NewChain(old(fats[0]), fats[0], chain)
    {
      if count == 0 { return None, []; }
      var ok, found := MarkClusters(count);
      chain := found;
      if !ok { return None, found; }
      LinkClusters(found, old(fats[0]));
      r := Some(found[0]);
    }

    // -------------------------------------------------------------
    // Data
    // -------------------------------------------------------------

    /** Writes the front of the bytes into the cluster's sectors, zero-filling the last one. */
    method WriteCluster(c: nat, bytes: seq<nat>) returns (rest: seq<nat>)
      requires IsArea(data) && OnDevice(data, spc, c)
      modifies `data
      ensures IsArea(data) && OnlyCluster(old(data), data, spc, c)
      ensures rest == bytes[Min(|bytes|, spc * SECTOR)..]
      ensures bytes[..Min(|bytes|, spc * SECTOR)] <= ClusterBytes(data, spc, c)
    {
      var base := Base(spc, c);
      rest := bytes;
      var j := 0;
      while j < spc && rest != []
        invariant j <= spc && OnlyCluster(old(data), data, spc, c) && Written(data, base, j, bytes, rest)
      {
        rest := WriteFront(c, base, j, bytes, rest, old(data));
        j := j + 1;
      }
      WrittenDone(data, base, j, spc, bytes, rest);
    }

    /** Writes the front of rest into sector j of the cluster. */
    method WriteFront(ghost c: nat, base: nat, j: nat, ghost bytes: seq<nat>,
                      rest: seq<nat>, ghost before: seq<Sector>) returns (rest': seq<nat>)
      requires base == Base(spc, c) && j < spc && base + spc <= |data| && rest != []
      requires Written(data, base, j, bytes, rest) && OnlyCluster(before, data, spc, c)
      modifies `data
      ensures Written(data, base, j + 1, bytes, rest') && OnlyCluster(before, data, spc, c)
    {
      var m := Min(|rest|, SECTOR);
      WriteStep(data, base, j, bytes, rest, m);
      WriteSector(base + j, rest[..m]);
      rest' := rest[m..];
    }

    /** Writes one sector. */
    method WriteSector(s: nat, bytes: seq<nat>)
      requires IsArea(data) && s < |data| && |bytes| <= SECTOR
      modifies `data
      ensures data == old(data)[s := Filled(bytes)] && IsArea(data)
    {
      data := data[s := Filled(bytes)];
    }

    /** Reads up to want bytes from the cluster's sectors; a sector that is not on the device is an error. */
    method ReadCluster(c: nat, want: nat) returns (r: Option<seq<nat>>)
      requires IsArea(data) && spc > 0 && want > 0
      ensures r == ClusterFront(data, spc, c, want)
    {
      var base, j, bytes := Base(spc, c), 0, [];
      var remaining: nat := want;
      while j < spc && remaining > 0
        invariant j <= spc && |bytes| + remaining == want && (j == 0 ==> bytes == [])
        invariant j > 0 ==> base + j <= |data| && bytes <= Run(data, base, j)
        invariant if remaining > 0 then |bytes| == j * SECTOR else j > 0 && (j - 1) * SECTOR < want <= j * SECTOR
      {
        if base + j >= |data| {
          SectorsExceed(spc, want, j);
          return None;
        }
        var m := Min(remaining, SECTOR);
        assert Run(data, base, j + 1) == Run(data, base, j) + data[base + j];
        assert bytes == Run(data, base, j);
        bytes := bytes + data[base + j][..m];
        remaining := remaining - m;
        j := j + 1;
      }
      FrontRead(data, spc, c, want, j, bytes);
      r := Some(bytes);
    }

    /** Writes the bytes along the chain that starts at first. */
    method WriteChain(first: nat, bytes: seq<nat>, ghost chain: seq<nat>)
      requires fats != [] && IsChain(fats[0], chain) && chain[0] == first
      requires IsArea(data) && AllOnDevice(data, spc, chain) && |bytes| <= |chain| * (spc * SECTOR)
      modifies `data
      ensures IsArea(data) && OnlyChain(old(data), data, spc, chain)
      ensures AllOnDevice(data, spc, chain) && bytes <= ChainBytes(data, spc, chain)
    {
      ChainNoRepeat(fats[0], chain);
      var rest, cluster := bytes, first;
      ghost var i := 0;
      while rest != [] && 2 <= cluster <= 0xFFEF
        invariant i <= |chain| && IsArea(data) && OnlyChain(old(data), data, spc, chain)
        invariant AllOnDevice(data, spc, chain)
        invariant StoredUpto(data, spc, chain, i, bytes, rest)
        invariant rest != [] ==> cluster == if i < |chain| then chain[i] else fats[0][chain[|chain| - 1]]
        decreases |chain| - i
      {
        ghost var data1, rest1 := data, rest;
        rest := WriteCluster(cluster, rest);
        StoreStep(data1, data, spc, chain, i, bytes, rest1, rest);
        OnlyChainStep(old(data), data1, data, spc, chain, cluster);
        if rest != [] { cluster := fats[0][cluster]; }
        i := i + 1;
      }
      StoredAll(data, spc, chain, i, bytes, rest);
    }

    /** Reads size bytes along the links that start at first, or fewer if they end before. */
    method ReadFileData(first: nat, size: nat) returns (r: Option<seq<nat>>)
      requires fats != [] && IsArea(data) && spc > 0
      ensures r == Gather(fats[0], data, spc, first, size)
    {
      var bytes, remaining: nat, cluster: nat := [], size, first;
      PrependNothing(Gather(fats[0], data, spc, first, size));
      while 2 <= cluster <= 0xFFEF && remaining > 0
        invariant Gather(fats[0], data, spc, first, size) ==
                  Prepend(bytes, Gather(fats[0], data, spc, cluster, remaining))
        decreases remaining
      {
        var part := ReadCluster(cluster, remaining);
        if part.None? || cluster >= |fats[0]| { return None; }
        PrependTwice(bytes, part.value, Gather(fats[0], data, spc, fats[0][cluster], remaining - |part.value|));
        bytes := bytes + part.value;
        remaining := remaining - |part.value|;
        cluster := fats[0][cluster];
      }
      assert bytes + [] == bytes;
      r := Some(bytes);
    }

    // -------------------------------------------------------------
    // Directories
    // -------------------------------------------------------------

    /** Appends what a listing shows of these slots, up to an end slot. */
    method ParseDirEntries(slots: seq<Slot>, entries: seq<Slot>) returns (r: seq<Slot>, ended: bool)
      requires AllSlots(slots)
      ensures r == entries + Listed(slots) && (ended <==> HasEnd(slots))
    {
      r := entries;
      for i := 0 to |slots|
        invariant entries + Listed(slots) == r + Listed(slots[i..])
        invariant forall j | 0 <= j < i :: !IsEnd(slots[j])
      {
        assert slots[i..][0] == slots[i] && slots[i..][1..] == slots[i + 1..];
        if IsEnd(slots[i]) { return r, true; }
        if !IsDeleted(slots[i]) && !IsSkipped(slots[i]) { r := r + [slots[i]]; }
      }
      ended := false;
    }

    method ListRootDir() returns (entries: seq<Slot>)
      requires AllSlots(dir)
      ensures entries == Listed(dir)
    {
      var ended;
      entries, ended := ParseDirEntries(dir, []);
    }

    /** Appends what a listing shows of one cluster, sector by sector. */
    method ListCluster(c: nat, entries: seq<Slot>) returns (r: seq<Slot>, ended: bool)
      requires IsArea(data) && OnDevice(data, spc, c)
      ensures r == entries + Listed(SlotsOf(ClusterBytes(data, spc, c)))
      ensures ended <==> HasEnd(SlotsOf(ClusterBytes(data, spc, c)))
    {
      var base := Base(spc, c);
      r, ended := entries, false;
      for j := 0 to spc
        invariant !ended && ListedSectors(data, base, j, entries, r)
      {
        ghost var before := r;
        r, ended := ParseDirEntries(SlotsOf(data[base + j]), r);
        ListedSector(data, base, j, entries, before);
        if ended {
          ListedRun(data, base, j + 1, spc);
          return;
        }
      }
    }

    /** The listing of the directory whose chain starts at first. */
    method ListSubdir(first: nat, ghost chain: seq<nat>) returns (entries: seq<Slot>)
      requires fats != [] && IsArea(data)
      requires first >= 2 ==> IsChain(fats[0], chain) && chain[0] == first && AllOnDevice(data, spc, chain)
      ensures entries == if first >= 2 then Listed(SlotsOf(ChainBytes(data, spc, chain))) else []
    {
      entries := [];
      var cluster: nat := first;
      ghost var i := 0;
      while 2 <= cluster <= 0xFFEF
        invariant first >= 2 ==> i <= |chain| && ListedUpto(data, spc, chain, i, entries)
        invariant first >= 2 ==> cluster == if i < |chain| then chain[i] else fats[0][chain[|chain| - 1]]
        invariant first < 2 ==> entries == [] && cluster == first
        decreases |chain| - i
      {
        ListedStep(data, spc, chain, i);
        var ended;
        entries, ended := ListCluster(cluster, entries);
        if ended {
          ListedStop(data, spc, chain, i);
          return;
        }
        cluster := fats[0][cluster];
        i := i + 1;
      }
      if first >= 2 { assert chain[..i] == chain; }
    }

    /** The entry a path leads to; t is the tree it lies in. */
    method FindEntry(path: Text) returns (r: Option<Slot>, ghost t: Tree)
      requires Valid()
      ensures r == EntryAt(View(), chains, below, Parts(Normalize(path)))
      ensures Fetches(State(), Parts(Normalize(path)), t, r)
    {
      var parts := Parts(Normalize(path));
      t := Tree(map[], {});
      if parts == [] { return None, t; }
      var entries := ListRootDir();
      r, t := FollowParts(parts, entries, State());
    }

    /** Follows the parts from the root's listing: all but the last are directories to enter. */
    method FollowParts(parts: seq<Text>, root: seq<Slot>, ghost f: Files) returns (r: Option<Slot>, ghost t: Tree)
      requires f == State() && Sound(f) && parts != [] && Entered(f, parts, 0, Tree(map[], {}), root)
      ensures Fetches(f, parts, t, r)
    {
      t := Tree(map[], {});
      var entries := root;
      for k := 0 to |parts| - 1
        // written as an equation so that the verifier passes the fact on without unfolding it
        invariant Entered(f, parts, k, t, entries) == true
      {
        var ok;
        ok, entries, t := EnterDirectory(parts, k, entries, t, f);
        if !ok { return None, t; }
      }
      r, t := LastEntry(parts, entries, t, f);
    }

    /** The last part is looked up in the directory reached, whatever kind of entry it names. */
    method LastEntry(parts: seq<Text>, entries: seq<Slot>, ghost t: Tree, ghost f: Files)
      returns (r: Option<Slot>, ghost t': Tree)
      requires Sound(f) && parts != [] && Entered(f, parts, |parts| - 1, t, entries)
      ensures Fetches(f, parts, t', r)
    {
      r := Find(entries, parts[|parts| - 1]);
      t' := LastTree(f, parts, t, entries);
    }

    /** From the listing that the first k parts lead to into the directory named by the next. */
    method EnterDirectory(parts: seq<Text>, k: nat, entries: seq<Slot>, ghost t: Tree, ghost f: Files)
      returns (ok: bool, entries': seq<Slot>, ghost t': Tree)
      requires f == State() && Sound(f) && k + 1 < |parts| && Entered(f, parts, k, t, entries)
      ensures ok ==> Entered(f, parts, k + 1, t', entries')
      ensures !ok ==> Fetches(f, parts, t', None)
    {
      var e := Find(entries, parts[k]);
      t' := StepTree(f.vol, f.chains, f.below, parts, k, t, entries);
      if e.None? || !IsDirectory(e.value) { return false, entries, t'; }
      var c := SlotCluster(e.value);
      entries' := ListSubdir(c, if c in t'.chains then t'.chains[c] else []);
      ok := true;
    }

    // -------------------------------------------------------------
    // The root directory
    // -------------------------------------------------------------

    /** Writes a file's slot into the first vacant place. */
    method AddRootDirEntry(name: Text, first: nat, size: nat) returns (r: Option<nat>)
      requires DirOk(dir)
      modifies `dir
      ensures r.Some? ==> FirstVacant(old(dir), r.value) && dir == old(dir)[r.value := FileSlot(name, first, size)]
      ensures r.None? <==> !HasVacant(old(dir))
      ensures r.None? ==> dir == old(dir)
    {
      for i := 0 to |dir|
        invariant dir == old(dir) && forall j | 0 <= j < i :: !IsEnd(dir[j]) && !IsDeleted(dir[j])
      {
        if IsEnd(dir[i]) || IsDeleted(dir[i]) {
          dir := dir[i := FileSlot(name, first, size)];
          return Some(i);
        }
      }
      r := None;
    }

    // -------------------------------------------------------------
    // Files
    // -------------------------------------------------------------

    /** Reads the file a path leads to; none for a missing name or a directory. */
    method ReadFile(path: Text) returns (r: Option<seq<nat>>)
      requires Valid()
      ensures r == ReadPath(View(), chains, below, Parts(Normalize(path)))
      ensures forall other | CaseAlike(path, other) :: r == ReadPath(View(), chains, below, Parts(Normalize(other)))
    {
      forall other | CaseAlike(path, other) ensures Normalize(other) == Normalize(path) {
        NormalizeAlike(path, other);
      }
      ghost var t;
      var e;
      e, t := FindEntry(path);
      if e.None? || IsDirectory(e.value) { return None; }
      GatherFile(State(), t, e.value);
      r := ReadFileData(SlotCluster(e.value), SlotSize(e.value));
    }

    /** Allocates a chain for the bytes and writes them; with too few free clusters it leaves none free. */
    method StoreBytes(bytes: seq<nat>) returns (r: Option<nat>, ghost chain: seq<nat>)
      requires Valid()
      modifies `fats, `data
      ensures r.None? <==> |FreeSet(old(fats[0]))| < ClusterCount(|bytes|, spc * SECTOR)
      ensures r.None? ==> Unharmed(old(State()), State()) && FreeSet(fats[0]) == {}
      ensures r.Some? ==> Stored(old(View()), View(), chain, bytes) && r.value == chain[0]
      ensures r.Some? ==> |chain| == ClusterCount(|bytes|, spc * SECTOR) && |bytes| <= |chain| * (spc * SECTOR)
    {
      ghost var v := View();
      var count := ClusterCount(|bytes|, spc * SECTOR);
      ClusterCountHolds(|bytes|, spc * SECTOR);
      r, chain := AllocateClusters(count);
      if r.None? {
        MarkedPaths(v, View(), chains, below, chain);
        return;
      }
      NewOnDevice(v, fats[0], chain);
      WriteChain(r.value, bytes, chain);
    }

    /**
     Creates a file in the root directory; fails on an existing name, a full table or a full directory.
     A failure changes no file, but a full table ends with no free cluster and a full directory loses the chain.
     */
    method CreateFile(filename: Text, bytes: seq<nat>) returns (ok: bool, ghost k: nat, ghost chain: seq<nat>)
      requires Valid()
      modifies this
      ensures ok <==> FreshName(old(dir), Normalize(filename)) && HasVacant(old(dir))
                      && ClusterCount(|bytes|, spc * SECTOR) <= |FreeSet(old(fats[0]))|
      ensures !ok ==> Unharmed(old(State()), State())
      ensures !ok ==> CreateFailed(old(View()), View(), Normalize(filename), bytes, chain)
      ensures ok ==> Created(old(View()), View(), Normalize(filename), bytes, k, chain)
      ensures ok && Nameable(Normalize(filename)) && FreshName(old(dir), ShownName(Normalize(filename))) ==>
                Added(old(State()), State(), Normalize(filename), bytes, k, chain)
    {
      var name := Normalize(filename);
      k, chain := 0, [];
      var entries := ListRootDir();
      IsFresh(dir, name);
      if Find(entries, name).Some? { return false, k, chain; }
      ok, k, chain := StoreFile(name, bytes);
    }

    method StoreFile(name: Text, bytes: seq<nat>) returns (ok: bool, ghost k: nat, ghost chain: seq<nat>)
      requires Valid() && FreshName(dir, name)
      modifies this
      ensures ok <==> HasVacant(old(dir)) && ClusterCount(|bytes|, spc * SECTOR) <= |FreeSet(old(fats[0]))|
      ensures !ok ==> Unharmed(old(State()), State()) && CreateFailed(old(View()), View(), name, bytes, chain)
      ensures ok ==> Created(old(View()), View(), name, bytes, k, chain)
      ensures ok && Nameable(name) && FreshName(old(dir), ShownName(name)) ==>
                Added(old(State()), State(), name, bytes, k, chain)
    {
      ghost var f := State();
      k := 0;
      var first;
      first, chain := StoreBytes(bytes);
      if first.None? { return false, k, chain; }
      NewChainLost(f.vol.fats[0], fats[0], chain);
      ok, k := NameBytes(f, name, first.value, bytes, chain);
    }

    method NameBytes(ghost f: Files, name: Text, first: nat, bytes: seq<nat>, ghost chain: seq<nat>)
      returns (ok: bool, ghost k: nat)
      requires Sound(f) && chains == f.chains && below == f.below && dir == f.vol.dir
      requires Stored(f.vol, View(), chain, bytes) && first == chain[0] && |bytes| <= |chain| * (spc * SECTOR)
      modifies `dir, `chains
      ensures ok <==> HasVacant(f.vol.dir)
      ensures !ok ==> Unharmed(f, State())
      ensures ok ==> Created(f.vol, View(), name, bytes, k, chain)
      ensures ok && Nameable(name) && FreshName(f.vol.dir, ShownName(name)) ==> Added(f, State(), name, bytes, k, chain)
    {
      ghost var v1 := View();
      var place := AddRootDirEntry(name, first, |bytes|);
      k := 0;
      if place.None? {
        StoredPaths(f.vol, v1, chains, below, chain, bytes);
        return false, k;
      }
      k := place.value;
      if Nameable(name) && FreshName(f.vol.dir, ShownName(name)) {
        FileSlotFor(f.vol, chain, k, name, bytes);
        StoredSlotAdded(f.vol, chains, below, v1, chain, k, bytes, FileSlot(name, first, |bytes|));
        chains := chains[k := chain];
      }
      ok := true;
    }

    /** The first shown slot that deletion takes for this name. */
    method FindForDelete(name: Text) returns (r: Option<nat>)
      requires DirOk(dir)
      ensures r == DeleteTarget(dir, name, 0)
    {
      for i := 0 to |dir|
        invariant DeleteTarget(dir, name, 0) == DeleteTarget(dir, name, i)
      {
        if IsEnd(dir[i]) { return None; }
        if !IsDeleted(dir[i]) && !IsSkipped(dir[i]) && DeleteName(dir[i]) == name { return Some(i); }
      }
      r := None;
    }

    /** Deletes a file or directory of the root: frees its chain and marks its slot. */
    method DeleteFile(filename: Text) returns (r: Option<nat>)
      requires Valid()
      modifies this
      ensures Valid() && r == DeleteTarget(old(dir), Normalize(filename), 0)
      ensures r.None? ==> State() == old(State())
      ensures r.Some? ==> Removed(old(State()), State(), r.value)
    {
      DeleteTargetFinds(dir, Normalize(filename), 0);
      r := FindForDelete(Normalize(filename));
      if r.Some? { RemoveSlot(r.value); }
    }

    method RemoveSlot(i: nat)
      requires Valid() && Shown(dir, i)
      modifies this
      ensures Valid() && Removed(old(State()), State(), i)
    {
      ghost var f := State();
      FreeSlotChain(i);
      dir := dir[i := dir[i][0 := 0xE5]];
      chains, below := chains - {i}, below - {i};
      RemovalDone(f, State(), i);
    }

    /** Frees the clusters of a slot, if it has any. */
    method FreeSlotChain(i: nat)
      requires Valid() && Shown(dir, i)
      modifies `fats
      ensures ChainGone(old(View()), chains, fats, i) && |fats| == |old(fats)|
    {
      var first := SlotCluster(dir[i]);
      if first >= 2 {
        var freed := FreeClusterChain(first, chains[i]);
      }
    }

    /**
     Creating a file and reading the same path, in upper or lower case: the bytes come back exactly when the
     path's only part is the name the slot shows, if the path led nowhere before.
     */
    method CreateThenRead(filename: Text, again: Text, bytes: seq<nat>) returns (ok: bool, r: Option<seq<nat>>)
      requires Valid() && Nameable(Normalize(filename)) && FreshName(dir, ShownName(Normalize(filename)))
      requires CaseAlike(filename, again)
      modifies this
      ensures Valid()
      ensures ok && ReadFrom(old(State()), Normalize(filename)).None? ==>
                (r == Some(Sized(bytes))
                 <==> Parts(Normalize(filename)) == [ShownName(Normalize(filename))])
    {
      ghost var f, name := State(), Normalize(filename);
      ghost var k, chain;
      ok, k, chain := CreateFile(filename, bytes);
      r := None;
      if !ok { return; }
      NormalizeAlike(filename, again);
      r := ReadFile(again);
      AddedReadsBack(f, State(), name, bytes, k, chain);
    }

    /**
     Creating a file and deleting it by the same name, in upper or lower case, restores the table exactly when the
     name fits 8.3 and deletion takes no earlier slot for it; then every chain and every path is as before.
     */
    method CreateThenDelete(filename: Text, again: Text, bytes: seq<nat>)
      returns (ok: bool, r: Option<nat>, ghost k: nat)
      requires Valid() && Nameable(Normalize(filename)) && FreshName(dir, ShownName(Normalize(filename)))
      requires CaseAlike(filename, again)
      modifies this
      ensures Valid()
      ensures ok ==> FirstVacant(old(dir), k)
      ensures ok ==> (fats == old(fats) <==> Fits83(Normalize(filename)) && NotTaken(old(dir), Normalize(filename), k))
      ensures ok && fats == old(fats) ==> r == Some(k) && Restored(old(State()), State())
    {
      ghost var f := State();
      ghost var chain;
      ok, k, chain := CreateFile(filename, bytes);
      r := None;
      if !ok { return; }
      ghost var f1 := State();
      NormalizeAlike(filename, again);
      r := DeleteFile(again);
      CreateDeleteIff(f, f1, State(), Normalize(filename), bytes, k, chain, r);
    }
  }
}

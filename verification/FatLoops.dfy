/** What the loops over sectors, clusters and links keep. */
module FatLoops {
  import opened Options
  import opened FatNames
  import opened FatChains
  import opened FatData
  import opened FatModel

  function Min(a: nat, b: nat): nat {
    if a < b then a else b
  }

  /** A sector that starts with the bytes and is zero behind them. */
  function Filled(bytes: seq<nat>): (s: Sector)
    requires |bytes| <= SECTOR
    ensures |s| == SECTOR && bytes <= s
  {
    bytes + seq(SECTOR - |bytes|, _ => 0)
  }

  lemma RunPrefix(data: seq<Sector>, base: nat, j: nat, k: nat)
    requires IsArea(data) && j <= k && base + k <= |data|
    ensures Run(data, base, j) <= Run(data, base, k)
    decreases k
  {
    if j < k { RunPrefix(data, base, j, k - 1); }
  }

  lemma {:induction false} ZeroedNext(fat: Fat, fat': Fat, chain: seq<nat>, k: nat)
    requires k < |chain| && chain[k] < |fat| && Zeroed(fat, fat', chain[..k])
    ensures Zeroed(fat, fat'[chain[k] := 0], chain[..k + 1])
  {
    assert chain[..k + 1] == chain[..k] + [chain[k]];
  }

  /** After j sectors from base: rest is what is still to be written, all before it is on the device. */
  predicate Written(data: seq<Sector>, base: nat, j: nat, bytes: seq<nat>, rest: seq<nat>) {
    && IsArea(data) && base + j <= |data| && |rest| <= |bytes|
    && rest == bytes[|bytes| - |rest|..] && bytes[..|bytes| - |rest|] <= Run(data, base, j)
    && (if |bytes| <= j * SECTOR then rest == [] else |bytes| - |rest| == j * SECTOR)
  }

  lemma WriteStep(data: seq<Sector>, base: nat, j: nat, bytes: seq<nat>, rest: seq<nat>, m: nat)
    requires Written(data, base, j, bytes, rest) && rest != [] && m == Min(|rest|, SECTOR) && base + j < |data|
    ensures Written(data[base + j := Filled(rest[..m])], base, j + 1, bytes, rest[m..])
  {
    var data' := data[base + j := Filled(rest[..m])];
    var d := |bytes| - |rest|;
    RunSame(data, data', base, j);
    assert bytes[..d + m] == bytes[..d] + rest[..m];
    assert Run(data', base, j + 1) == Run(data, base, j) + Filled(rest[..m]);
    assert bytes[..d] == Run(data, base, j);
    assert rest[m..] == bytes[d + m..];
  }

  lemma WrittenDone(data: seq<Sector>, base: nat, j: nat, k: nat, bytes: seq<nat>, rest: seq<nat>)
    requires Written(data, base, j, bytes, rest) && j <= k && base + k <= |data| && (j == k || rest == [])
    ensures rest == bytes[Min(|bytes|, k * SECTOR)..] && bytes[..Min(|bytes|, k * SECTOR)] <= Run(data, base, k)
  {
    RunPrefix(data, base, j, k);
    assert |bytes| - |rest| == Min(|bytes|, k * SECTOR);
  }

  /** After i clusters of the chain: as Written, along the chain. */
  ghost predicate StoredUpto(data: seq<Sector>, spc: nat, chain: seq<nat>, i: nat, bytes: seq<nat>, rest: seq<nat>)
    requires IsArea(data) && AllOnDevice(data, spc, chain) && i <= |chain|
  {
    && |rest| <= |bytes| && rest == bytes[|bytes| - |rest|..]
    && AllOnDevice(data, spc, chain[..i]) && bytes[..|bytes| - |rest|] <= ChainBytes(data, spc, chain[..i])
    && (rest != [] ==> |bytes| - |rest| == |ChainBytes(data, spc, chain[..i])|)
  }

  lemma StoreStep(data: seq<Sector>, data': seq<Sector>, spc: nat, chain: seq<nat>, i: nat, bytes: seq<nat>,
                  rest: seq<nat>, rest': seq<nat>)
    requires IsArea(data) && IsArea(data') && AllOnDevice(data, spc, chain) && i < |chain| && NoRepeat(chain)
    requires (forall k | 0 <= k < |chain| :: chain[k] >= 2) && OnlyCluster(data, data', spc, chain[i])
    requires StoredUpto(data, spc, chain, i, bytes, rest) && rest != []
    requires rest' == rest[Min(|rest|, spc * SECTOR)..]
    requires rest[..Min(|rest|, spc * SECTOR)] <= ClusterBytes(data', spc, chain[i])
    ensures AllOnDevice(data', spc, chain) && StoredUpto(data', spc, chain, i + 1, bytes, rest')
  {
    var m, d := Min(|rest|, spc * SECTOR), |bytes| - |rest|;
    EarlierClusters(data, data', spc, chain, i);
    ChainBytesNext(data', spc, chain, i);
    assert bytes[..d + m] == bytes[..d] + rest[..m];
    assert rest' == bytes[d + m..];
  }

  /** Writing a later cluster of the chain leaves the earlier ones alone. */
  lemma EarlierClusters(data: seq<Sector>, data': seq<Sector>, spc: nat, chain: seq<nat>, i: nat)
    requires IsArea(data) && IsArea(data') && AllOnDevice(data, spc, chain) && i < |chain| && NoRepeat(chain)
    requires (forall k | 0 <= k < |chain| :: chain[k] >= 2) && OnlyCluster(data, data', spc, chain[i])
    ensures AllOnDevice(data, spc, chain[..i]) && AllOnDevice(data', spc, chain[..i])
    ensures ChainBytes(data', spc, chain[..i]) == ChainBytes(data, spc, chain[..i])
  {
    var one := [chain[i]];
    forall d: nat | d >= 2 && d !in one && OnDevice(data, spc, d)
      ensures ClusterBytes(data', spc, d) == ClusterBytes(data, spc, d)
    {
      assert chain[i] in one;
      OtherCluster(data, data', spc, chain[i], d);
    }
    OtherChain(data, data', spc, one, chain[..i]);
  }

  lemma NewOnDevice(v: Volume, fat: Fat, chain: seq<nat>)
    requires v.fats != [] && FreeOnDevice(v) && NewChain(v.fats[0], fat, chain)
    ensures AllOnDevice(v.data, v.spc, chain)
  {
    forall i | 0 <= i < |chain| ensures OnDevice(v.data, v.spc, chain[i]) {
      assert chain[i] in chain && chain[i] in FreeSet(v.fats[0]);
    }
  }

  lemma StoredAll(data: seq<Sector>, spc: nat, chain: seq<nat>, i: nat, bytes: seq<nat>, rest: seq<nat>)
    requires IsArea(data) && AllOnDevice(data, spc, chain) && i <= |chain|
    requires StoredUpto(data, spc, chain, i, bytes, rest)
    requires |bytes| <= |chain| * (spc * SECTOR) && (rest == [] || i == |chain|)
    ensures bytes <= ChainBytes(data, spc, chain)
  {
    ChainBytesLength(data, spc, chain);
    ChainBytesPrefix(data, spc, chain, i);
    if i == |chain| { assert chain[..i] == chain; }
    assert rest == [];
    assert bytes[..|bytes|] == bytes;
  }

  // ---------------------------------------------------------------
  // Reading along any links
  // ---------------------------------------------------------------

  /** The sectors of a cluster that hold the first want bytes. */
  function Sectors(spc: nat, want: nat): nat {
    Min(spc, (want + SECTOR - 1) / SECTOR)
  }

  /** The first want bytes of cluster c, or an error if they are not all on the device. */
  function ClusterFront(data: seq<Sector>, spc: nat, c: nat, want: nat): (r: Option<seq<nat>>)
    requires IsArea(data)
    ensures r.Some? ==> |r.value| == Min(want, spc * SECTOR)
  {
    var n := Sectors(spc, want);
    if Base(spc, c) + n > |data| then None
    else
      FrontLength(spc, want);
      Some(Run(data, Base(spc, c), n)[..Min(want, spc * SECTOR)])
  }

  lemma FrontLength(spc: nat, want: nat)
    ensures Min(want, spc * SECTOR) <= Sectors(spc, want) * SECTOR
  {
  }

  function Prepend(part: seq<nat>, rest: Option<seq<nat>>): Option<seq<nat>> {
    if rest.None? then None else Some(part + rest.value)
  }

  lemma PrependNothing(rest: Option<seq<nat>>)
    ensures Prepend([], rest) == rest
  {
    if rest.Some? { assert [] + rest.value == rest.value; }
  }

  lemma PrependTwice(a: seq<nat>, b: seq<nat>, rest: Option<seq<nat>>)
    ensures Prepend(a, Prepend(b, rest)) == Prepend(a + b, rest)
  {
    if rest.Some? { assert a + (b + rest.value) == a + b + rest.value; }
  }

  /**
   What following the links from cluster c gives, whether or not they form a chain: bytes until want is met or the
   links end, and an error where a cluster is off the device or has no entry in the table.
   */
  function Gather(fat: Fat, data: seq<Sector>, spc: nat, c: nat, want: nat): Option<seq<nat>>
    requires IsArea(data) && spc > 0
    decreases want
  {
    if c < 2 || c > 0xFFEF || want == 0 then Some([])
    else
      var part := ClusterFront(data, spc, c, want);
      if part.None? || c >= |fat| then None
      else Prepend(part.value, Gather(fat, data, spc, fat[c], want - |part.value|))
  }

  /** On a cluster of the device the front is the front of its bytes. */
  lemma WholeFront(data: seq<Sector>, spc: nat, c: nat, want: nat)
    requires IsArea(data) && OnDevice(data, spc, c)
    ensures ClusterFront(data, spc, c, want) == Some(ClusterBytes(data, spc, c)[..Min(want, spc * SECTOR)])
  {
    var base, n, m := Base(spc, c), Sectors(spc, want), Min(want, spc * SECTOR);
    FrontLength(spc, want);
    RunPrefix(data, base, n, spc);
    assert Run(data, base, n)[..m] == Run(data, base, spc)[..m];
  }

  lemma SectorsAre(spc: nat, want: nat, j: nat)
    requires 0 < j <= spc && (j - 1) * SECTOR < want && (want <= j * SECTOR || j == spc)
    ensures Sectors(spc, want) == j
  {
  }

  lemma SectorsExceed(spc: nat, want: nat, j: nat)
    requires j < spc && j * SECTOR < want
    ensures Sectors(spc, want) > j
  {
  }

  /** What reading j sectors has given is the front that was asked for. */
  lemma FrontRead(data: seq<Sector>, spc: nat, c: nat, want: nat, j: nat, bytes: seq<nat>)
    requires IsArea(data) && 0 < j <= spc && (j - 1) * SECTOR < want && Base(spc, c) + j <= |data|
    requires bytes <= Run(data, Base(spc, c), j)
    requires (|bytes| == want <= j * SECTOR) || (j == spc && |bytes| == j * SECTOR < want)
    ensures ClusterFront(data, spc, c, want) == Some(bytes)
  {
    SectorsAre(spc, want, j);
    FrontLength(spc, want);
    assert |bytes| == Min(want, spc * SECTOR);
    assert bytes == Run(data, Base(spc, c), j)[..|bytes|];
  }

  /** The bytes of cluster i of a chain. */
  lemma ChainSlice(data: seq<Sector>, spc: nat, chain: seq<nat>, i: nat)
    requires IsArea(data) && AllOnDevice(data, spc, chain) && i < |chain|
    ensures var b, l := ChainBytes(data, spc, chain), spc * SECTOR;
            && |b| == |chain| * l && 0 <= i * l <= i * l + l == (i + 1) * l <= |b|
            && b[i * l..i * l + l] == ClusterBytes(data, spc, chain[i])
  {
    var l := spc * SECTOR;
    ChainBytesLength(data, spc, chain);
    ChainBytesPrefix(data, spc, chain, i + 1);
    ChainBytesNext(data, spc, chain, i);
    ChainBytesLength(data, spc, chain[..i]);
    ChainBytesLength(data, spc, chain[..i + 1]);
  }

  /** Following a chain from cluster i on gives its bytes from there on. */
  lemma {:induction false} GatherFrom(fat: Fat, data: seq<Sector>, spc: nat, chain: seq<nat>, i: nat, want: nat)
    requires IsArea(data) && spc > 0 && IsChain(fat, chain) && AllOnDevice(data, spc, chain) && i <= |chain|
    ensures |ChainBytes(data, spc, chain)| == |chain| * (spc * SECTOR) && i * (spc * SECTOR) <= |chain| * (spc * SECTOR)
    ensures var b, c := ChainBytes(data, spc, chain), if i < |chain| then chain[i] else fat[chain[|chain| - 1]];
            var rest := b[i * (spc * SECTOR)..];
            Gather(fat, data, spc, c, want) == Some(rest[..Min(want, |rest|)])
    decreases |chain| - i
  {
    var b, l := ChainBytes(data, spc, chain), spc * SECTOR;
    ChainBytesLength(data, spc, chain);
    if i < |chain| {
      ChainSlice(data, spc, chain, i);
      if want > 0 {
        WholeFront(data, spc, chain[i], want);
        GatherFrom(fat, data, spc, chain, i + 1, want - Min(want, l));
        SliceJoin(b, i * l, l, want);
      }
    }
  }

  /** The front of a tail, taken in two parts. */
  lemma SliceJoin(b: seq<nat>, from: nat, l: nat, want: nat)
    requires from + l <= |b|
    ensures var rest, next := b[from..], b[from + l..];
            rest[..Min(want, |rest|)] ==
            b[from..from + l][..Min(want, l)] + next[..Min(want - Min(want, l), |next|)]
  {
  }

  /** After k clusters of the chain are freed, cluster is the next one, or an end mark. */
  ghost predicate Freeing(fat: Fat, fats: seq<Fat>, chain: seq<nat>, k: nat, cluster: nat) {
    && IsChain(fat, chain) && NoRepeat(chain) && Mirrored(fats) && k <= |chain|
    && Zeroed(fat, fats[0], chain[..k])
    && cluster == if k < |chain| then chain[k] else fat[chain[|chain| - 1]]
  }

  lemma FreeingStep(fat: Fat, fats: seq<Fat>, chain: seq<nat>, k: nat, cluster: nat)
    requires Freeing(fat, fats, chain, k, cluster) && IsData(cluster)
    ensures k < |chain| && cluster == chain[k] && cluster < |fats[0]| && cluster !in chain[..k]
    ensures fats[0][cluster] == if k + 1 < |chain| then chain[k + 1] else fat[chain[|chain| - 1]]
    ensures Zeroed(fat, fats[0][cluster := 0], chain[..k + 1])
  {
    assert chain[k] !in chain[..k];
    ZeroedNext(fat, fats[0], chain, k);
  }
}

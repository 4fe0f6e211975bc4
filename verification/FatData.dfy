/** The data area: clusters as runs of sectors, and the bytes along a chain. */
module FatData {
  import opened FatChains

  const SECTOR := 512

  type Sector = seq<nat>

  predicate IsArea(data: seq<Sector>) {
    forall i | 0 <= i < |data| :: |data[i]| == SECTOR
  }

  /** First sector of a cluster, counted from the start of the data area. */
  function Base(spc: nat, c: nat): nat {
    if c < 2 then 0 else (c - 2) * spc
  }

  /** The cluster lies on the device. */
  predicate OnDevice(data: seq<Sector>, spc: nat, c: nat) {
    Base(spc, c) + spc <= |data|
  }

  predicate AllOnDevice(data: seq<Sector>, spc: nat, chain: seq<nat>) {
    forall i | 0 <= i < |chain| :: OnDevice(data, spc, chain[i])
  }

  lemma Distribute(a: nat, k: nat, n: nat)
    ensures (a + 1 + k) * n == a * n + n + k * n && k * n >= 0
  {
  }

  lemma BasesApart(spc: nat, c: nat, d: nat)
    requires 2 <= c < d
    ensures Base(spc, c) + spc <= Base(spc, d)
  {
    Distribute(c - 2, d - c - 1, spc);
  }

  /** The bytes of k sectors from base on. */
  function Run(data: seq<Sector>, base: nat, k: nat): (r: seq<nat>)
    requires IsArea(data) && base + k <= |data|
    ensures |r| == k * SECTOR
    decreases k
  {
    if k == 0 then [] else Run(data, base, k - 1) + data[base + k - 1]
  }

  function ClusterBytes(data: seq<Sector>, spc: nat, c: nat): (r: seq<nat>)
    requires IsArea(data) && OnDevice(data, spc, c)
    ensures |r| == spc * SECTOR
  {
    Run(data, Base(spc, c), spc)
  }

  /** The bytes of the clusters of a chain, one after the other. */
  function ChainBytes(data: seq<Sector>, spc: nat, chain: seq<nat>): (r: seq<nat>)
    requires IsArea(data) && AllOnDevice(data, spc, chain)
    decreases |chain|
  {
    if chain == [] then []
    else ChainBytes(data, spc, chain[..|chain| - 1]) + ClusterBytes(data, spc, chain[|chain| - 1])
  }

  lemma {:induction false} ChainBytesLength(data: seq<Sector>, spc: nat, chain: seq<nat>)
    requires IsArea(data) && AllOnDevice(data, spc, chain)
    ensures |ChainBytes(data, spc, chain)| == |chain| * (spc * SECTOR)
    decreases |chain|
  {
    if chain != [] {
      ChainBytesLength(data, spc, chain[..|chain| - 1]);
      assert |chain| * (spc * SECTOR) == (|chain| - 1) * (spc * SECTOR) + spc * SECTOR;
    }
  }

  /** Appending a cluster appends its bytes. */
  lemma ChainBytesNext(data: seq<Sector>, spc: nat, chain: seq<nat>, i: nat)
    requires IsArea(data) && AllOnDevice(data, spc, chain) && i < |chain|
    ensures AllOnDevice(data, spc, chain[..i]) && AllOnDevice(data, spc, chain[..i + 1])
    ensures ChainBytes(data, spc, chain[..i + 1])
              == ChainBytes(data, spc, chain[..i]) + ClusterBytes(data, spc, chain[i])
  {
    assert chain[..i + 1][..i] == chain[..i];
  }

  lemma {:induction false} ChainBytesPrefix(data: seq<Sector>, spc: nat, chain: seq<nat>, i: nat)
    requires IsArea(data) && AllOnDevice(data, spc, chain) && i <= |chain|
    ensures AllOnDevice(data, spc, chain[..i]) && ChainBytes(data, spc, chain[..i]) <= ChainBytes(data, spc, chain)
    decreases |chain| - i
  {
    if i < |chain| {
      ChainBytesPrefix(data, spc, chain, i + 1);
      ChainBytesNext(data, spc, chain, i);
    } else {
      assert chain[..i] == chain;
    }
  }

  lemma {:induction false} RunAt(data: seq<Sector>, base: nat, n: nat, j: nat, b: nat)
    requires IsArea(data) && base + n <= |data| && j < n && b < 512
    ensures Run(data, base, n)[j * 512 + b] == data[base + j][b]
    decreases n
  {
    if j < n - 1 { RunAt(data, base, n - 1, j, b); }
  }

  /** Where byte b of sector j of the k-th cluster of a chain lies: cluster 2 is the first of the data area. */
  lemma ChainByteAt(data: seq<Sector>, spc: nat, chain: seq<nat>, k: nat, j: nat, b: nat)
    requires IsArea(data) && AllOnDevice(data, spc, chain) && k < |chain| && j < spc && b < 512 && chain[k] >= 2
    ensures (chain[k] - 2) * spc + j < |data|
    ensures var i := k * (spc * 512) + (j * 512 + b);
            i < |ChainBytes(data, spc, chain)|
            && ChainBytes(data, spc, chain)[i] == data[(chain[k] - 2) * spc + j][b]
  {
    ChainBytesNext(data, spc, chain, k);
    ChainBytesPrefix(data, spc, chain, k + 1);
    ChainBytesLength(data, spc, chain[..k]);
    RunAt(data, Base(spc, chain[k]), spc, j, b);
    assert OnDevice(data, spc, chain[k]);
  }

  // ---------------------------------------------------------------
  // Writes that stay inside a cluster or a chain
  // ---------------------------------------------------------------

  lemma {:induction false} RunSame(data: seq<Sector>, data': seq<Sector>, base: nat, k: nat)
    requires IsArea(data) && IsArea(data') && |data'| == |data| && base + k <= |data|
    requires forall s | base <= s < base + k :: data'[s] == data[s]
    ensures Run(data', base, k) == Run(data, base, k)
    decreases k
  {
    if k > 0 { RunSame(data, data', base, k - 1); }
  }

  /** Only sectors of cluster c changed. */
  predicate OnlyCluster(data: seq<Sector>, data': seq<Sector>, spc: nat, c: nat) {
    && |data'| == |data|
    && (forall s | 0 <= s < |data| && !(Base(spc, c) <= s < Base(spc, c) + spc) :: data'[s] == data[s])
  }

  lemma OtherCluster(data: seq<Sector>, data': seq<Sector>, spc: nat, c: nat, d: nat)
    requires IsArea(data) && IsArea(data') && OnlyCluster(data, data', spc, c)
    requires c >= 2 && d >= 2 && c != d && OnDevice(data, spc, d)
    ensures ClusterBytes(data', spc, d) == ClusterBytes(data, spc, d)
  {
    if c < d { BasesApart(spc, c, d); } else { BasesApart(spc, d, c); }
    RunSame(data, data', Base(spc, d), spc);
  }

  /** Only clusters of the chain changed: every other cluster has its bytes. */
  ghost predicate OnlyChain(data: seq<Sector>, data': seq<Sector>, spc: nat, chain: seq<nat>)
    requires IsArea(data) && IsArea(data')
  {
    && |data'| == |data|
    && (forall d: nat | d >= 2 && d !in chain && OnDevice(data, spc, d) ::
          ClusterBytes(data', spc, d) == ClusterBytes(data, spc, d))
  }

  lemma {:induction false} OtherChain(data: seq<Sector>, data': seq<Sector>, spc: nat, chain: seq<nat>, other: seq<nat>)
    requires IsArea(data) && IsArea(data') && OnlyChain(data, data', spc, chain)
    requires AllOnDevice(data, spc, other) && (forall i | 0 <= i < |other| :: other[i] >= 2 && other[i] !in chain)
    ensures AllOnDevice(data', spc, other) && ChainBytes(data', spc, other) == ChainBytes(data, spc, other)
    decreases |other|
  {
    if other != [] {
      OtherChain(data, data', spc, chain, other[..|other| - 1]);
      assert other[|other| - 1] !in chain;
    }
  }

  lemma OnlyChainStep(data: seq<Sector>, data1: seq<Sector>, data2: seq<Sector>, spc: nat, chain: seq<nat>, c: nat)
    requires IsArea(data) && IsArea(data1) && IsArea(data2) && OnlyChain(data, data1, spc, chain)
    requires OnlyCluster(data1, data2, spc, c) && c in chain && c >= 2
    ensures OnlyChain(data, data2, spc, chain)
  {
    forall d: nat | d >= 2 && d !in chain && OnDevice(data, spc, d)
      ensures ClusterBytes(data2, spc, d) == ClusterBytes(data, spc, d)
    {
      OtherCluster(data1, data2, spc, c, d);
    }
  }

  // ---------------------------------------------------------------
  // How many clusters a file needs
  // ---------------------------------------------------------------

  /** At least one cluster, else as many as hold the bytes. */
  function ClusterCount(size: nat, bytesPerCluster: nat): nat
    requires bytesPerCluster > 0
  {
    if size == 0 then 1 else (size + bytesPerCluster - 1) / bytesPerCluster
  }

  lemma ClusterCountHolds(size: nat, bytesPerCluster: nat)
    requires bytesPerCluster > 0
    ensures ClusterCount(size, bytesPerCluster) >= 1
    ensures size <= ClusterCount(size, bytesPerCluster) * bytesPerCluster
  {
    if size > 0 {
      var n, b := size + bytesPerCluster - 1, bytesPerCluster;
      var q := n / b;
      assert n == q * b + n % b;
    }
  }

  /** No smaller number of clusters holds the bytes. */
  lemma ClusterCountLeast(size: nat, bytesPerCluster: nat, n: nat)
    requires bytesPerCluster > 0 && n >= 1 && size <= n * bytesPerCluster
    ensures ClusterCount(size, bytesPerCluster) <= n
  {
    if size > 0 { QuotientLeast(size + bytesPerCluster - 1, bytesPerCluster, n); }
  }

  lemma QuotientLeast(x: nat, b: nat, n: nat)
    requires b > 0 && x < n * b + b
    ensures x / b <= n
  {
    var q := x / b;
    assert x == q * b + x % b;
    if q > n { Distribute(n, q - n - 1, b); }
  }
}

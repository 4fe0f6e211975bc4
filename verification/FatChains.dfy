/** Cluster chains in a file allocation table. */
module FatChains {

  /** Entry c holds the successor of cluster c, 0 if it is free, or an end mark. */
  type Fat = seq<nat>

  const END_MARK := 0xFFFF

  predicate IsData(c: nat) {
    2 <= c <= 0xFFEF
  }

  predicate Links(fat: Fat, chain: seq<nat>) {
    && (forall i | 0 <= i < |chain| :: IsData(chain[i]) && chain[i] < |fat|)
    && (forall i | 0 <= i < |chain| - 1 :: fat[chain[i]] == chain[i + 1])
  }

  /** A chain of data clusters that ends with an end mark. */
  predicate IsChain(fat: Fat, chain: seq<nat>) {
    chain != [] && Links(fat, chain) && fat[chain[|chain| - 1]] > 0xFFEF
  }

  predicate NoRepeat(s: seq<nat>) {
    forall i, j | 0 <= i < j < |s| :: s[i] != s[j]
  }

  predicate Disjoint(a: seq<nat>, b: seq<nat>) {
    forall c | c in a :: c !in b
  }

  /** The tail of a chain is a chain. */
  lemma ChainTail(fat: Fat, chain: seq<nat>, k: nat)
    requires IsChain(fat, chain) && k < |chain|
    ensures IsChain(fat, chain[k..])
  {
    var t := chain[k..];
    forall i | 0 <= i < |t| - 1 ensures fat[t[i]] == t[i + 1] { assert t[i] == chain[k + i]; }
  }

  lemma ChainHead(fat: Fat, chain: seq<nat>)
    requires IsChain(fat, chain)
    ensures if |chain| == 1 then fat[chain[0]] > 0xFFEF else fat[chain[0]] == chain[1]
  {
  }

  /** A table has one chain from each cluster. */
  lemma {:induction false} ChainUnique(fat: Fat, a: seq<nat>, b: seq<nat>)
    requires IsChain(fat, a) && IsChain(fat, b) && a[0] == b[0]
    ensures a == b
    decreases |a|
  {
    ChainHead(fat, a);
    ChainHead(fat, b);
    if |a| > 1 && |b| > 1 {
      ChainTail(fat, a, 1);
      ChainTail(fat, b, 1);
      ChainUnique(fat, a[1..], b[1..]);
      assert a == [a[0]] + a[1..] && b == [b[0]] + b[1..];
    }
  }

  /** A chain visits no cluster twice. */
  lemma ChainNoRepeat(fat: Fat, chain: seq<nat>)
    requires IsChain(fat, chain)
    ensures NoRepeat(chain)
  {
    forall i, j | 0 <= i < j < |chain| ensures chain[i] != chain[j] {
      if chain[i] == chain[j] {
        ChainTail(fat, chain, i);
        ChainTail(fat, chain, j);
        ChainUnique(fat, chain[i..], chain[j..]);
      }
    }
  }

  /** A chain depends on its own entries only. */
  lemma ChainKept(fat: Fat, fat': Fat, chain: seq<nat>)
    requires IsChain(fat, chain) && |fat'| == |fat| && (forall c | c in chain :: fat'[c] == fat[c])
    ensures IsChain(fat', chain)
  {
  }

  // ---------------------------------------------------------------
  // Free clusters
  // ---------------------------------------------------------------

  function FreeSet(fat: Fat): set<nat> {
    set c: nat | c < |fat| && IsData(c) && fat[c] == 0
  }

  function Elements(s: seq<nat>): set<nat> {
    set c | c in s
  }

  /** No free cluster below c. */
  predicate NoneFreeBelow(fat: Fat, c: nat) {
    forall x: nat | x < c && x < |fat| && IsData(x) :: fat[x] != 0
  }

  /** The first k clusters found, still to be linked: each carries an end mark. */
  predicate Marked(fat: Fat, fat': Fat, found: seq<nat>) {
    && |fat'| == |fat| && NoRepeat(found)
    && (forall c | c in found :: c < |fat| && IsData(c) && fat[c] == 0 && fat'[c] == END_MARK)
    && (forall c: nat | c < |fat| && c !in found :: fat'[c] == fat[c])
  }

  lemma MarkNext(fat: Fat, fat': Fat, found: seq<nat>, c: nat)
    requires Marked(fat, fat', found) && c < |fat'| && IsData(c) && fat'[c] == 0
    ensures Marked(fat, fat'[c := END_MARK], found + [c])
  {
  }

  lemma {:induction false} MarkedFree(fat: Fat, fat': Fat, found: seq<nat>)
    requires Marked(fat, fat', found)
    ensures FreeSet(fat') == FreeSet(fat) - Elements(found)
    ensures |FreeSet(fat')| == |FreeSet(fat)| - |found|
  {
    assert Elements(found) <= FreeSet(fat);
    NoRepeatCount(found);
  }

  lemma {:induction false} NoRepeatCount(s: seq<nat>)
    requires NoRepeat(s)
    ensures |Elements(s)| == |s|
    decreases |s|
  {
    if s == [] {
      assert Elements(s) == {};
    } else {
      var n := |s| - 1;
      NoRepeatCount(s[..n]);
      assert s == s[..n] + [s[n]];
      assert Elements(s) == Elements(s[..n]) + {s[n]};
      assert s[n] !in Elements(s[..n]);
    }
  }

  predicate InTable(fat: Fat, found: seq<nat>) {
    forall c | c in found :: c < |fat| && IsData(c)
  }

  /** The first k of the marked clusters are linked to their successors. */
  predicate Linking(fat: Fat, fat': Fat, found: seq<nat>, k: nat) {
    && |fat'| == |fat| && k < |found| && InTable(fat, found)
    && (forall i | 0 <= i < k :: found[i] in found && fat'[found[i]] == found[i + 1])
    && (forall i | k <= i < |found| :: found[i] in found && fat'[found[i]] == END_MARK)
    && (forall c: nat | c < |fat| && c !in found :: fat'[c] == fat[c])
  }

  /** Chain of formerly free clusters; every other entry is as before. */
  predicate NewChain(fat: Fat, fat': Fat, chain: seq<nat>) {
    && |fat'| == |fat| && IsChain(fat', chain)
    && (forall c | c in chain :: c < |fat| && fat[c] == 0)
    && (forall c: nat | c < |fat| && c !in chain :: fat'[c] == fat[c])
  }

  lemma LinkNext(fat: Fat, fat': Fat, found: seq<nat>, k: nat)
    requires InTable(fat, found) && NoRepeat(found) && |fat'| == |fat| && Linking(fat, fat', found, k)
    requires k + 1 < |found|
    ensures Linking(fat, fat'[found[k] := found[k + 1]], found, k + 1)
  {
  }

  lemma Linked(fat: Fat, fat': Fat, found: seq<nat>)
    requires found != [] && InTable(fat, found) && (forall c | c in found :: fat[c] == 0)
    requires Linking(fat, fat', found, |found| - 1)
    ensures NewChain(fat, fat', found)
  {
    forall i | 0 <= i < |found| ensures IsData(found[i]) && found[i] < |fat'| { assert found[i] in found; }
  }

  /** Other chains do not meet a new chain, and survive it. */
  lemma NewChainKeeps(fat: Fat, fat': Fat, chain: seq<nat>, other: seq<nat>)
    requires NewChain(fat, fat', chain) && IsChain(fat, other)
    ensures Disjoint(other, chain) && IsChain(fat', other)
  {
    forall c | c in other ensures c !in chain {
      var i :| 0 <= i < |other| && other[i] == c;
      assert i < |other| - 1 ==> fat[c] == other[i + 1];
    }
  }

  // ---------------------------------------------------------------
  // Freeing a chain
  // ---------------------------------------------------------------

  /** fat' is fat with the chain's entries set to 0. */
  predicate Zeroed(fat: Fat, fat': Fat, chain: seq<nat>) {
    && |fat'| == |fat|
    && (forall c: nat | c < |fat| :: fat'[c] == if c in chain then 0 else fat[c])
  }

  /** Allocating a chain and freeing it restores the table. */
  lemma AllocateFreeRestores(fat: Fat, fat': Fat, fat'': Fat, chain: seq<nat>)
    requires NewChain(fat, fat', chain) && Zeroed(fat', fat'', chain)
    ensures fat'' == fat
  {
    forall c: nat | c < |fat| ensures fat''[c] == fat[c] {}
  }

  /** Freeing one chain keeps every chain that does not meet it, and frees exactly its clusters. */
  lemma ZeroedKeeps(fat: Fat, fat': Fat, chain: seq<nat>, other: seq<nat>)
    requires Zeroed(fat, fat', chain) && IsChain(fat, other) && Disjoint(other, chain)
    ensures IsChain(fat', other)
  {
    ChainKept(fat, fat', other);
  }

  lemma ZeroedFree(fat: Fat, fat': Fat, chain: seq<nat>)
    requires IsChain(fat, chain) && Zeroed(fat, fat', chain)
    ensures FreeSet(fat') == FreeSet(fat) + Elements(chain)
  {
    forall c | c in chain ensures c < |fat| && IsData(c) {
      var i :| 0 <= i < |chain| && chain[i] == c;
    }
  }

  /** Entries in use; freeing a cluster of a table in any state lowers their number. */
  function UsedSet(fat: Fat): set<nat> {
    set c: nat | c < |fat| && fat[c] != 0
  }

  lemma UsedShrinks(fat: Fat, c: nat)
    requires c < |fat| && fat[c] != 0
    ensures |UsedSet(fat[c := 0])| == |UsedSet(fat)| - 1
  {
    assert UsedSet(fat[c := 0]) == UsedSet(fat) - {c};
  }
}

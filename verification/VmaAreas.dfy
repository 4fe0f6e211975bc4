/** A process's virtual memory areas: a sorted list of disjoint intervals. */
module VmaAreas {
  import opened Options

  datatype Prot = Prot(read: bool, write: bool, execute: bool)

  datatype Kind = Anonymous | Elf | Stack

  datatype Vma = Vma(start: nat, end: nat, prot: Prot, kind: Kind, name: string) {
    predicate Holds(x: nat) { start <= x < end }
  }

  /** Nonempty areas in ascending order, none reaching into the next. */
  predicate Sorted(vmas: seq<Vma>) {
    && (forall i | 0 <= i < |vmas| :: vmas[i].start < vmas[i].end)
    && (forall i, j | 0 <= i < j < |vmas| :: vmas[i].end <= vmas[j].start)
  }

  predicate Overlaps(a: Vma, b: Vma) {
    a.start < b.end && b.start < a.end
  }

  /** Protection, kind and name of the area around x. */
  datatype Attr = Attr(prot: Prot, kind: Kind, name: string)

  function AttrOf(v: Vma): Attr {
    Attr(v.prot, v.kind, v.name)
  }

  /** What the list says about address x. */
  function At(vmas: seq<Vma>, x: nat): Option<Attr> {
    if vmas == [] then None
    else if vmas[|vmas| - 1].Holds(x) then Some(AttrOf(vmas[|vmas| - 1]))
    else At(vmas[..|vmas| - 1], x)
  }

  lemma {:induction false} AtSome(vmas: seq<Vma>, i: nat, x: nat)
    requires Sorted(vmas) && i < |vmas| && vmas[i].Holds(x)
    ensures At(vmas, x) == Some(AttrOf(vmas[i]))
    decreases |vmas|
  {
    var n := |vmas| - 1;
    if i < n {
      assert vmas[i].end <= vmas[n].start;
      AtSome(vmas[..n], i, x);
    }
  }

  lemma {:induction false} AtNone(vmas: seq<Vma>, x: nat)
    requires forall i | 0 <= i < |vmas| :: !vmas[i].Holds(x)
    ensures At(vmas, x) == None
    decreases |vmas|
  {
    if vmas != [] { AtNone(vmas[..|vmas| - 1], x); }
  }

  lemma {:induction false} AtJoin(a: seq<Vma>, b: seq<Vma>, x: nat)
    ensures At(a + b, x) == if At(b, x).Some? then At(b, x) else At(a, x)
    decreases |b|
  {
    if b == [] {
      assert a + b == a;
    } else {
      assert (a + b)[..|a + b| - 1] == a + b[..|b| - 1];
      AtJoin(a, b[..|b| - 1], x);
    }
  }

  // ---------------------------------------------------------------
  // Insert
  // ---------------------------------------------------------------

  /** The place before the first area that does not start below v. */
  predicate IsPlace(vmas: seq<Vma>, v: Vma, k: nat) {
    && k <= |vmas|
    && (forall i | 0 <= i < k :: vmas[i].start < v.start)
    && (forall i | k <= i < |vmas| :: v.start <= vmas[i].start)
  }

  function InsertAt(vmas: seq<Vma>, v: Vma, k: nat): seq<Vma>
    requires k <= |vmas|
  {
    vmas[..k] + [v] + vmas[k..]
  }

  /** The list stays sorted exactly when the new area is not empty. */
  lemma InsertSorted(vmas: seq<Vma>, v: Vma, k: nat)
    requires Sorted(vmas) && IsPlace(vmas, v, k)
    requires forall i | 0 <= i < |vmas| :: !Overlaps(v, vmas[i])
    ensures Sorted(InsertAt(vmas, v, k)) <==> v.start < v.end
  {
    assert InsertAt(vmas, v, k)[k] == v;
  }

  /** The new area covers its addresses, all others are as before. */
  lemma InsertMap(vmas: seq<Vma>, v: Vma, k: nat, x: nat)
    requires Sorted(vmas) && k <= |vmas| && (forall i | 0 <= i < |vmas| :: !Overlaps(v, vmas[i]))
    ensures At(InsertAt(vmas, v, k), x) == if v.Holds(x) then Some(AttrOf(v)) else At(vmas, x)
  {
    var a, b := vmas[..k], vmas[k..];
    assert vmas == a + b;
    AtOne(v, x);
    Between(a, v, b, x);
    if v.Holds(x) { AtNone(b, x); }
  }

  /** What the list says when one area stands between two parts. */
  lemma Between(a: seq<Vma>, v: Vma, b: seq<Vma>, x: nat)
    ensures At(a + b, x) == if At(b, x).Some? then At(b, x) else At(a, x)
    ensures At(a + [v] + b, x)
            == if At(b, x).Some? then At(b, x) else if At([v], x).Some? then At([v], x) else At(a, x)
  {
    AtJoin(a + [v], b, x);
    AtJoin(a, [v], x);
    AtJoin(a, b, x);
  }

  // ---------------------------------------------------------------
  // Free regions
  // ---------------------------------------------------------------

  predicate Free(vmas: seq<Vma>, a: nat, size: nat) {
    forall i | 0 <= i < |vmas| :: vmas[i].end <= a || a + size <= vmas[i].start
  }

  /** A place for size bytes between base and limit. */
  predicate Fits(vmas: seq<Vma>, size: nat, base: nat, limit: nat, a: nat) {
    base <= a && a + size <= limit && Free(vmas, a, size)
  }

  /** Every address from base up to candidate meets an area among the first k. */
  predicate Blocked(vmas: seq<Vma>, k: nat, size: nat, base: nat, candidate: nat)
    requires k <= |vmas|
  {
    forall a: nat | base <= a < candidate :: !Free(vmas[..k], a, size)
  }

  lemma BlockedMore(vmas: seq<Vma>, k: nat, size: nat, base: nat, candidate: nat)
    requires Sorted(vmas) && k < |vmas| && size > 0 && Blocked(vmas, k, size, base, candidate) && base <= candidate
    requires vmas[k].start < candidate + size && candidate < vmas[k].end
    ensures Blocked(vmas, k + 1, size, base, vmas[k].end)
  {
    var more := vmas[..k + 1];
    forall a: nat | base <= a < vmas[k].end ensures !Free(more, a, size) {
      if a < candidate {
        assert !Free(vmas[..k], a, size);
        var i :| 0 <= i < k && !(vmas[..k][i].end <= a || a + size <= vmas[..k][i].start);
        assert vmas[..k + 1][i] == vmas[..k][i];
      } else {
        assert vmas[..k + 1][k] == vmas[k];
      }
    }
  }

  lemma BlockedStays(vmas: seq<Vma>, k: nat, size: nat, base: nat, candidate: nat)
    requires k < |vmas| && Blocked(vmas, k, size, base, candidate)
    ensures Blocked(vmas, k + 1, size, base, candidate)
  {
    var more := vmas[..k + 1];
    forall a: nat | base <= a < candidate ensures !Free(more, a, size) {
      assert !Free(vmas[..k], a, size);
      var i :| 0 <= i < k && !(vmas[..k][i].end <= a || a + size <= vmas[..k][i].start);
      assert vmas[..k + 1][i] == vmas[..k][i];
    }
  }

  lemma BlockedAll(vmas: seq<Vma>, k: nat, size: nat, base: nat, candidate: nat, a: nat)
    requires k <= |vmas| && Blocked(vmas, k, size, base, candidate) && base <= a < candidate
    ensures !Free(vmas, a, size)
  {
    assert !Free(vmas[..k], a, size);
    var i :| 0 <= i < k && !(vmas[..k][i].end <= a || a + size <= vmas[..k][i].start);
    assert vmas[..k][i] == vmas[i];
  }

  // ---------------------------------------------------------------
  // Removing a range
  // ---------------------------------------------------------------

  /** What is left of one area outside [start, end). */
  function Trimmed(v: Vma, start: nat, end: nat): seq<Vma> {
    if v.end <= start || v.start >= end then [v]
    else if v.start >= start && v.end <= end then []
    else if v.start < start && v.end > end then [v.(end := start), v.(start := end)]
    else if v.start < start then [v.(end := start)]
    else [v.(start := end)]
  }

  function TrimmedAll(vmas: seq<Vma>, start: nat, end: nat): seq<Vma> {
    if vmas == [] then [] else TrimmedAll(vmas[..|vmas| - 1], start, end) + Trimmed(vmas[|vmas| - 1], start, end)
  }

  predicate Touches(v: Vma, start: nat, end: nat) {
    v.start < end && start < v.end
  }

  /** The areas that lose something. */
  function Affected(vmas: seq<Vma>, start: nat, end: nat): seq<Vma> {
    if vmas == [] then [] else
      Affected(vmas[..|vmas| - 1], start, end)
      + if Touches(vmas[|vmas| - 1], start, end) then [vmas[|vmas| - 1]] else []
  }

  /** Exactly the areas with an address in common with the range. */
  lemma {:induction false} AffectedIs(vmas: seq<Vma>, start: nat, end: nat, v: Vma)
    ensures v in Affected(vmas, start, end) <==> v in vmas && v.start < end && start < v.end
  {
    if vmas != [] {
      var n := |vmas| - 1;
      AffectedIs(vmas[..n], start, end, v);
      assert vmas == vmas[..n] + [vmas[n]];
    }
  }

  predicate EndBy(vmas: seq<Vma>, limit: nat) {
    forall i | 0 <= i < |vmas| :: vmas[i].end <= limit
  }

  predicate StartFrom(vmas: seq<Vma>, limit: nat) {
    forall i | 0 <= i < |vmas| :: limit <= vmas[i].start
  }

  lemma SortedJoin(a: seq<Vma>, b: seq<Vma>, limit: nat)
    requires Sorted(a) && Sorted(b) && EndBy(a, limit) && StartFrom(b, limit)
    ensures Sorted(a + b)
  {
  }

  /** Without an area that touches the range, the list stays as it is. */
  lemma {:induction false} TrimmedNone(vmas: seq<Vma>, start: nat, end: nat)
    requires forall i | 0 <= i < |vmas| :: !Touches(vmas[i], start, end)
    ensures TrimmedAll(vmas, start, end) == vmas
    decreases |vmas|
  {
    if vmas != [] {
      TrimmedNone(vmas[..|vmas| - 1], start, end);
    }
  }

  /** A range that ends before it starts leaves two overlapping pieces of every area it touches. */
  lemma {:induction false} TrimmedOverlap(vmas: seq<Vma>, start: nat, end: nat, i: nat)
    requires end < start && i < |vmas| && vmas[i].start < vmas[i].end && Touches(vmas[i], start, end)
    ensures !Sorted(TrimmedAll(vmas, start, end))
    decreases |vmas|
  {
    var n := |vmas| - 1;
    var front, back := TrimmedAll(vmas[..n], start, end), Trimmed(vmas[n], start, end);
    if i == n {
      assert (front + back)[|front|] == back[0] && (front + back)[|front| + 1] == back[1];
    } else {
      TrimmedOverlap(vmas[..n], start, end, i);
      SortedFront(front, back);
    }
  }

  lemma SortedFront(a: seq<Vma>, b: seq<Vma>)
    ensures Sorted(a + b) ==> Sorted(a)
  {
    assert forall i | 0 <= i < |a| :: (a + b)[i] == a[i];
  }

  lemma TrimmedPieces(v: Vma, start: nat, end: nat)
    requires start <= end && v.start < v.end
    ensures Sorted(Trimmed(v, start, end)) && EndBy(Trimmed(v, start, end), v.end)
    ensures StartFrom(Trimmed(v, start, end), v.start)
  {
  }

  lemma {:induction false} TrimmedSorted(vmas: seq<Vma>, start: nat, end: nat, limit: nat)
    requires Sorted(vmas) && start <= end && EndBy(vmas, limit)
    ensures Sorted(TrimmedAll(vmas, start, end)) && EndBy(TrimmedAll(vmas, start, end), limit)
    decreases |vmas|
  {
    if vmas != [] {
      var n := |vmas| - 1;
      TrimmedSorted(vmas[..n], start, end, vmas[n].start);
      TrimmedPieces(vmas[n], start, end);
      SortedJoin(TrimmedAll(vmas[..n], start, end), Trimmed(vmas[n], start, end), vmas[n].start);
    }
  }

  lemma TrimmedSortedIff(vmas: seq<Vma>, start: nat, end: nat)
    requires Sorted(vmas)
    ensures Sorted(TrimmedAll(vmas, start, end))
            <==> start <= end || forall i | 0 <= i < |vmas| :: !Touches(vmas[i], start, end)
  {
    if start <= end {
      TrimmedSorted(vmas, start, end, if vmas == [] then 0 else vmas[|vmas| - 1].end);
    } else if forall i | 0 <= i < |vmas| :: !Touches(vmas[i], start, end) {
      TrimmedNone(vmas, start, end);
    } else {
      var i :| 0 <= i < |vmas| && Touches(vmas[i], start, end);
      TrimmedOverlap(vmas, start, end, i);
    }
  }

  /** Exactly the addresses of [start, end) disappear from the map. */
  lemma {:induction false} TrimmedMap(vmas: seq<Vma>, start: nat, end: nat, x: nat)
    requires Sorted(vmas)
    ensures At(TrimmedAll(vmas, start, end), x) == if start <= x < end then None else At(vmas, x)
    decreases |vmas|
  {
    if vmas != [] {
      var n := |vmas| - 1;
      TrimmedMap(vmas[..n], start, end, x);
      AtJoin(TrimmedAll(vmas[..n], start, end), Trimmed(vmas[n], start, end), x);
      TrimmedOne(vmas[n], start, end, x);
    }
  }

  lemma TrimmedOne(v: Vma, start: nat, end: nat, x: nat)
    requires v.start < v.end
    ensures At(Trimmed(v, start, end), x) == if v.Holds(x) && !(start <= x < end) then Some(AttrOf(v)) else None
  {
    var t := Trimmed(v, start, end);
    if |t| == 2 {
      assert t == [t[0]] + [t[1]];
      AtJoin([t[0]], [t[1]], x);
      AtOne(t[0], x);
      AtOne(t[1], x);
    } else if |t| == 1 {
      AtOne(t[0], x);
    }
  }

  lemma AtOne(v: Vma, x: nat)
    ensures At([v], x) == if v.Holds(x) then Some(AttrOf(v)) else None
  {
    assert [v][..0] == [];
  }

  class VmaList {
    var vmas: seq<Vma>

    predicate Valid()
      reads this
    {
      Sorted(vmas)
    }

    constructor ()
      ensures Valid() && vmas == []
    {
      vmas := [];
    }

    /** Inserts an area; fails if it overlaps one of the list. An empty area is accepted and spoils the order. */
    method Insert(v: Vma) returns (ok: bool)
      requires Valid()
      modifies this
      ensures ok ==> (Valid() <==> v.start < v.end)
      ensures ok <==> forall i | 0 <= i < |old(vmas)| :: v.end <= old(vmas)[i].start || old(vmas)[i].end <= v.start
      ensures !ok ==> vmas == old(vmas)
      ensures ok ==> forall x: nat :: At(vmas, x) == if v.Holds(x) then Some(AttrOf(v)) else At(old(vmas), x)
    {
      for i := 0 to |vmas|
        invariant vmas == old(vmas) && forall j | 0 <= j < i :: !Overlaps(v, vmas[j])
      {
        if Overlaps(v, vmas[i]) { return false; }
      }
      var k := PartitionPoint(vmas, v);
      InsertSorted(vmas, v, k);
      forall x: nat ensures At(InsertAt(vmas, v, k), x) == if v.Holds(x) then Some(AttrOf(v)) else At(vmas, x) {
        InsertMap(vmas, v, k, x);
      }
      vmas := InsertAt(vmas, v, k);
      ok := true;
    }

    /** The lowest place for size bytes in [base, limit), or none if there is none; for no bytes, some place. */
    method FindFreeRegion(size: nat, base: nat, limit: nat) returns (r: Option<nat>)
      requires Valid()
      ensures r.Some? ==> Fits(vmas, size, base, limit, r.value)
      ensures r.None? && size > 0 ==> forall a: nat :: !Fits(vmas, size, base, limit, a)
      ensures r.Some? && size > 0 ==> forall a: nat | a < r.value :: !Fits(vmas, size, base, limit, a)
    {
      var candidate := base;
      var i := 0;
      while i < |vmas|
        invariant i <= |vmas| && base <= candidate && (size > 0 ==> Blocked(vmas, i, size, base, candidate))
        invariant forall j | 0 <= j < i :: vmas[j].end <= candidate
      {
        var v := vmas[i];
        if v.end <= base {
          if size > 0 { BlockedStays(vmas, i, size, base, candidate); }
        } else {
          if v.start >= limit { break; }
          if v.start > candidate && v.start - candidate >= size {
            forall a: nat | a < candidate && size > 0 ensures !Fits(vmas, size, base, limit, a) {
              if base <= a { BlockedAll(vmas, i, size, base, candidate, a); }
            }
            return Some(candidate);
          }
          if v.end > candidate {
            if size > 0 { BlockedMore(vmas, i, size, base, candidate); }
            candidate := v.end;
          } else if size > 0 {
            BlockedStays(vmas, i, size, base, candidate);
          }
        }
        i := i + 1;
      }
      forall a: nat | a < candidate && size > 0 ensures !Fits(vmas, size, base, limit, a) {
        if base <= a { BlockedAll(vmas, i, size, base, candidate, a); }
      }
      r := if candidate + size <= limit then Some(candidate) else None;
    }

    /**
     Removes [start, end) from the map and returns the areas that lost something. A range that ends before it
     starts removes nothing, but spoils the order when an area reaches across it.
     */
    method RemoveRange(start: nat, end: nat) returns (removed: seq<Vma>)
      requires Valid()
      modifies this
      ensures Valid() <==> start <= end || forall i | 0 <= i < |old(vmas)| :: !Touches(old(vmas)[i], start, end)
      ensures forall x: nat :: At(vmas, x) == if start <= x < end then None else At(old(vmas), x)
      ensures removed == Affected(old(vmas), start, end)
      ensures forall v :: v in removed <==> v in old(vmas) && v.start < end && start < v.end
    {
      removed := [];
      var kept: seq<Vma> := [];
      for i := 0 to |vmas|
        invariant vmas == old(vmas) && kept == TrimmedAll(vmas[..i], start, end)
        invariant removed == Affected(vmas[..i], start, end)
      {
        var v := vmas[i];
        assert vmas[..i + 1][..i] == vmas[..i];
        kept := kept + Trimmed(v, start, end);
        if !(v.end <= start || v.start >= end) { removed := removed + [v]; }
      }
      assert vmas[..|vmas|] == vmas;
      forall v ensures v in removed <==> v in vmas && v.start < end && start < v.end {
        AffectedIs(vmas, start, end, v);
      }
      TrimmedSortedIff(vmas, start, end);
      forall x: nat ensures At(kept, x) == if start <= x < end then None else At(vmas, x) {
        TrimmedMap(vmas, start, end, x);
      }
      vmas := kept;
    }
  }

  /** The number of areas that start below v. */
  method PartitionPoint(vmas: seq<Vma>, v: Vma) returns (k: nat)
    requires Sorted(vmas)
    ensures IsPlace(vmas, v, k)
  {
    var lo, hi := 0, |vmas|;
    while lo < hi
      invariant 0 <= lo <= hi <= |vmas|
      invariant forall i | 0 <= i < lo :: vmas[i].start < v.start
      invariant forall i | hi <= i < |vmas| :: v.start <= vmas[i].start
    {
      var mid := (lo + hi) / 2;
      if vmas[mid].start < v.start { lo := mid + 1; } else { hi := mid; }
    }
    k := lo;
  }
}

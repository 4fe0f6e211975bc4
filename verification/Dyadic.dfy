/** Powers of two, aligned blocks, exclusive or and machine-word bits, all by halving. */
module Dyadic {

  /** q * 2^k */
  function Shift(q: nat, k: nat): nat {
    if k == 0 then q else 2 * Shift(q, k - 1)
  }

  function Pow2(k: nat): (p: nat)
    ensures p >= 1
  {
    if k == 0 then 1 else 2 * Pow2(k - 1)
  }

  lemma {:induction false} Pow2Monotone(j: nat, k: nat)
    requires j <= k
    ensures Pow2(j) <= Pow2(k)
  {
    if j < k { Pow2Monotone(j, k - 1); }
  }

  lemma Pow2Byte(k: nat)
    ensures Pow2(k + 8) == 256 * Pow2(k)
  {
    assert Pow2(k + 2) == 4 * Pow2(k);
    assert Pow2(k + 4) == 4 * Pow2(k + 2);
    assert Pow2(k + 6) == 4 * Pow2(k + 4);
  }

  // ---------------------------------------------------------------
  // Aligned blocks
  // ---------------------------------------------------------------

  /** 2^k divides o. */
  ghost predicate Aligned(k: nat, o: nat) {
    exists q :: Shift(q, k) == o
  }

  /** f is one of the 2^k frames that start at o. */
  predicate Inside(k: nat, o: nat, f: nat) {
    o <= f < o + Pow2(k)
  }

  /** Start of the block of size 2^(k+1) that a block of size 2^k at o belongs to. */
  ghost function Parent(k: nat, o: nat): nat {
    if Aligned(k + 1, o) || o < Pow2(k) then o else o - Pow2(k)
  }

  /** o can be halved k times. */
  predicate Halvable(k: nat, o: nat) {
    k == 0 || (o % 2 == 0 && Halvable(k - 1, o / 2))
  }

  lemma DoubleHalvable(k: nat, o: nat)
    requires Halvable(k, o)
    ensures Halvable(k + 1, 2 * o)
  {
    assert (2 * o) / 2 == o;
  }

  lemma {:induction false} ShiftHalvable(q: nat, k: nat)
    ensures Halvable(k, Shift(q, k))
  {
    if k > 0 {
      ShiftHalvable(q, k - 1);
      DoubleHalvable(k - 1, Shift(q, k - 1));
    }
  }

  lemma {:induction false} HalvableShift(k: nat, o: nat) returns (q: nat)
    requires Halvable(k, o)
    ensures Shift(q, k) == o
  {
    if k == 0 { q := o; } else { q := HalvableShift(k - 1, o / 2); }
  }

  lemma AlignedIsHalvable(k: nat, o: nat)
    ensures Aligned(k, o) <==> Halvable(k, o)
  {
    if q :| Shift(q, k) == o { ShiftHalvable(q, k); }
    if Halvable(k, o) { var q := HalvableShift(k, o); }
  }

  lemma {:induction false} HalvableIsMod(k: nat, o: nat)
    ensures Halvable(k, o) <==> o % Pow2(k) == 0
  {
    if k > 0 {
      HalvableIsMod(k - 1, o / 2);
      HalfMod(o, Pow2(k - 1));
    }
  }

  lemma AlignedIsMod(k: nat, o: nat)
    ensures Aligned(k, o) <==> o % Pow2(k) == 0
  {
    AlignedIsHalvable(k, o);
    HalvableIsMod(k, o);
  }

  lemma HalfMod(o: nat, p: nat)
    requires p >= 1
    ensures o % (2 * p) == 0 <==> o % 2 == 0 && (o / 2) % p == 0
  {
    if o % (2 * p) == 0 {
      var q := o / (2 * p);
      assert o == 2 * p * q == 2 * (p * q);
      assert o / 2 == p * q;
      MultipleMod(p, q);
    }
    if o % 2 == 0 && (o / 2) % p == 0 {
      var q := (o / 2) / p;
      assert o == 2 * (p * q) == (2 * p) * q;
      MultipleMod(2 * p, q);
    }
  }

  lemma MultipleMod(p: nat, q: nat)
    requires p >= 1
    ensures (p * q) % p == 0
  {
    var d, r := (p * q) / p, (p * q) % p;
    assert p * q == p * d + r;
    assert p * (q - d) == r;
    MultipleGap(p, q - d);
  }

  lemma MultipleGap(p: nat, m: int)
    ensures m >= 1 ==> p * m >= p
    ensures m <= -1 ==> p * m <= 0 - p
  {
    if m >= 1 {
      assert p * m == p + p * (m - 1);
    } else if m <= -1 {
      assert p * m == p * (m + 1) - p;
    }
  }

  lemma {:induction false} ShiftCoarser(q: nat, j: nat, k: nat)
    requires j <= k
    ensures Shift(Shift(q, k - j), j) == Shift(q, k)
  {
    if j > 0 { ShiftCoarser(q, j - 1, k - 1); }
  }

  lemma AlignedCoarser(j: nat, k: nat, o: nat)
    requires j <= k && Aligned(k, o)
    ensures Aligned(j, o)
  {
    var q :| Shift(q, k) == o;
    ShiftCoarser(q, j, k);
  }

  lemma AnyAligned(o: nat)
    ensures Aligned(0, o)
  {
    assert Shift(o, 0) == o;
  }

  lemma ZeroAligned(k: nat)
    ensures Aligned(k, 0)
  {
    ShiftZero(k);
  }

  lemma {:induction false} ShiftZero(k: nat)
    ensures Shift(0, k) == 0
  {
    if k > 0 { ShiftZero(k - 1); }
  }

  lemma {:induction false} HalvableLaminar(j: nat, p: nat, k: nat, o: nat, f: nat)
    requires j <= k && Halvable(j, p) && Halvable(k, o)
    requires Inside(j, p, f) && Inside(k, o, f)
    ensures o <= p && p + Pow2(j) <= o + Pow2(k)
    ensures j == k ==> p == o
  {
    if j > 0 { HalvableLaminar(j - 1, p / 2, k - 1, o / 2, f / 2); }
  }

  /** Aligned blocks are laminar: a smaller block that meets a larger one lies inside it. */
  lemma Laminar(j: nat, p: nat, k: nat, o: nat, f: nat)
    requires j <= k && Aligned(j, p) && Aligned(k, o)
    requires Inside(j, p, f) && Inside(k, o, f)
    ensures o <= p && p + Pow2(j) <= o + Pow2(k)
    ensures j == k ==> p == o
  {
    AlignedIsHalvable(j, p);
    AlignedIsHalvable(k, o);
    HalvableLaminar(j, p, k, o, f);
  }

  lemma {:induction false} HalvableHalves(k: nat, o: nat)
    requires Halvable(k, o)
    ensures !Halvable(k + 1, o) ==> o >= Pow2(k) && Halvable(k + 1, o - Pow2(k))
  {
    if k > 0 {
      HalvableHalves(k - 1, o / 2);
      if !Halvable(k + 1, o) { DoubleHalvable(k, o / 2 - Pow2(k - 1)); }
    } else {
      DoubleHalvable(0, o / 2);
      assert Pow2(0) == 1 && o == 2 * (o / 2) + o % 2;
    }
  }

  lemma ParentCases(k: nat, o: nat)
    requires Aligned(k, o)
    ensures Aligned(k + 1, Parent(k, o))
    ensures Parent(k, o) == if Aligned(k + 1, o) then o else o - Pow2(k)
    ensures Parent(k, o) <= o && o + Pow2(k) <= Parent(k, o) + Pow2(k + 1)
  {
    AlignedIsHalvable(k, o);
    AlignedIsHalvable(k + 1, o);
    HalvableHalves(k, o);
    if !Aligned(k + 1, o) { AlignedIsHalvable(k + 1, o - Pow2(k)); }
  }

  lemma ParentUnique(k: nat, q: nat, o: nat)
    requires Aligned(k, o) && Aligned(k + 1, q) && Inside(k + 1, q, o)
    ensures Parent(k, o) == q
  {
    ParentCases(k, o);
    Laminar(k + 1, Parent(k, o), k + 1, q, o);
  }

  lemma {:induction false} HalvesAligned(k: nat, q: nat)
    requires Aligned(k + 1, q)
    ensures Aligned(k, q) && Aligned(k, q + Pow2(k))
  {
    AlignedCoarser(k, k + 1, q);
    var s :| Shift(s, k) == q;
    ShiftNext(s, k);
  }

  lemma {:induction false} ShiftNext(s: nat, k: nat)
    ensures Shift(s + 1, k) == Shift(s, k) + Pow2(k)
  {
    if k > 0 { ShiftNext(s, k - 1); }
  }

  // ---------------------------------------------------------------
  // Exclusive or
  // ---------------------------------------------------------------

  /** Bitwise exclusive or of two unsigned words. */
  function Xor(a: nat, b: nat): nat {
    if a == 0 then b
    else if b == 0 then a
    else 2 * Xor(a / 2, b / 2) + (a % 2 + b % 2) % 2
  }

  lemma {:induction false} HalvableXor(k: nat, o: nat)
    requires Halvable(k, o)
    ensures Xor(o, Pow2(k)) == if o == 0 || Halvable(k + 1, o) then o + Pow2(k) else o - Pow2(k)
  {
    if o > 0 && k > 0 { HalvableXor(k - 1, o / 2); }
  }

  /**
   On an aligned block, xor with the block size yields the buddy: the two are the two
   aligned halves of their common parent.
   */
  lemma BuddyShape(k: nat, o: nat)
    requires Aligned(k, o)
    ensures var d := Xor(o, Pow2(k));
            && (d == o + Pow2(k) || d == o - Pow2(k))
            && Aligned(k, d) && Parent(k, d) == Parent(k, o)
            && Parent(k, o) == if o < d then o else d
  {
    var d := Xor(o, Pow2(k));
    AlignedIsHalvable(k, o);
    AlignedIsHalvable(k + 1, o);
    HalvableXor(k, o);
    if o == 0 { ZeroAligned(k + 1); }
    ParentCases(k, o);
    HalvesAligned(k, Parent(k, o));
    ParentUnique(k, Parent(k, o), d);
  }

  // ---------------------------------------------------------------
  // Bits of a word
  // ---------------------------------------------------------------

  /** (w >> b) & 1 == 1 */
  predicate Bit(w: nat, b: nat) {
    if b == 0 then w % 2 == 1 else Bit(w / 2, b - 1)
  }

  /** w | (1 << b) */
  function SetBit(w: nat, b: nat): nat {
    if b == 0 then (w / 2) * 2 + 1 else 2 * SetBit(w / 2, b - 1) + w % 2
  }

  /** w & !(1 << b) */
  function ClearBit(w: nat, b: nat): nat {
    if b == 0 then (w / 2) * 2 else 2 * ClearBit(w / 2, b - 1) + w % 2
  }

  lemma {:induction false} SetBitAt(w: nat, b: nat, c: nat)
    ensures Bit(SetBit(w, b), c) == (b == c || Bit(w, c))
  {
    if b > 0 && c > 0 { SetBitAt(w / 2, b - 1, c - 1); }
  }

  lemma {:induction false} ClearBitAt(w: nat, b: nat, c: nat)
    ensures Bit(ClearBit(w, b), c) == (b != c && Bit(w, c))
  {
    if b > 0 && c > 0 { ClearBitAt(w / 2, b - 1, c - 1); }
  }

  lemma {:induction false} BitOpsInRange(w: nat, b: nat, n: nat)
    requires w < Pow2(n) && b < n
    ensures SetBit(w, b) < Pow2(n) && ClearBit(w, b) < Pow2(n)
  {
    assert Pow2(n) == 2 * Pow2(n - 1);
    if b == 0 {
      assert SetBit(w, b) == w / 2 * 2 + 1 && ClearBit(w, b) == w / 2 * 2;
    } else {
      BitOpsInRange(w / 2, b - 1, n - 1);
      assert SetBit(w, b) == 2 * SetBit(w / 2, b - 1) + w % 2 && ClearBit(w, b) == 2 * ClearBit(w / 2, b - 1) + w % 2;
    }
  }

  predicate NoBits(w: nat, n: nat) {
    forall b | 0 <= b < n :: !Bit(w, b)
  }

  /** A word is zero exactly when all its bits are. */
  lemma {:induction false} ZeroWord(w: nat, n: nat)
    requires w < Pow2(n)
    ensures w == 0 <==> NoBits(w, n)
  {
    if n > 0 {
      ZeroWord(w / 2, n - 1);
      if NoBits(w, n) {
        assert !Bit(w, 0);
        forall b | 0 <= b < n - 1 ensures !Bit(w / 2, b) {
          assert !Bit(w, b + 1);
        }
      }
      if NoBits(w / 2, n - 1) && w % 2 == 0 {
        forall b | 0 <= b < n ensures !Bit(w, b) {
          if b > 0 { assert !Bit(w / 2, b - 1); }
        }
      }
    }
  }
}

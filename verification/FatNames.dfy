/** 8.3 names and 32-byte directory slots. Names are sequences of ASCII codes. */
module FatNames {

  type Text = seq<nat>

  const DOT := 46
  const SPACE := 32

  predicate IsAscii(t: Text) {
    forall i | 0 <= i < |t| :: t[i] < 128
  }

  /** The ASCII white space that trimming removes. */
  predicate IsSpace(c: nat) {
    c == 32 || 9 <= c <= 13
  }

  function TrimEnd(t: Text): Text {
    if t != [] && IsSpace(t[|t| - 1]) then TrimEnd(t[..|t| - 1]) else t
  }

  function Spaces(n: nat): (t: Text)
    ensures |t| == n && forall i | 0 <= i < n :: t[i] == SPACE
  {
    if n == 0 then [] else Spaces(n - 1) + [SPACE]
  }

  /** The text cut or padded with spaces to n bytes. */
  function Pad(t: Text, n: nat): Text {
    if |t| >= n then t[..n] else t + Spaces(n - |t|)
  }

  predicate NoTrail(t: Text) {
    t == [] || !IsSpace(t[|t| - 1])
  }

  lemma {:induction false} TrimSpaces(t: Text, n: nat)
    requires NoTrail(t)
    ensures TrimEnd(t + Spaces(n)) == t
    decreases n
  {
    if n == 0 {
      assert t + Spaces(0) == t;
    } else {
      assert t + Spaces(n) == (t + Spaces(n - 1)) + [SPACE];
      assert (t + Spaces(n))[..|t| + n - 1] == t + Spaces(n - 1);
      TrimSpaces(t, n - 1);
    }
  }

  /** Trimming leaves no trailing white space. */
  lemma {:induction false} TrimEndNoTrail(t: Text)
    ensures NoTrail(TrimEnd(t)) && |TrimEnd(t)| <= |t|
    decreases |t|
  {
    if t != [] && IsSpace(t[|t| - 1]) { TrimEndNoTrail(t[..|t| - 1]); }
  }

  lemma PadTrim(t: Text, n: nat)
    ensures |Pad(t, n)| == n
    ensures |t| <= n && NoTrail(t) <==> TrimEnd(Pad(t, n)) == t
  {
    if |t| <= n && NoTrail(t) {
      TrimSpaces(t, n - |t|);
      if |t| == n { assert t + Spaces(0) == t && t[..n] == t; }
    }
    TrimEndNoTrail(Pad(t, n));
  }

  // ---------------------------------------------------------------
  // Splitting and joining
  // ---------------------------------------------------------------

  /** Index of the last dot, or |t| if there is none. */
  function LastDot(t: Text): (k: nat)
    ensures k <= |t|
    ensures k < |t| ==> t[k] == DOT && forall i | k < i < |t| :: t[i] != DOT
    ensures k == |t| ==> forall i | 0 <= i < |t| :: t[i] != DOT
  {
    if t == [] then 0
    else if t[|t| - 1] == DOT then |t| - 1
    else var k := LastDot(t[..|t| - 1]); if k == |t| - 1 then |t| else k
  }

  function Cut(t: Text, n: nat): Text {
    if |t| <= n then t else t[..n]
  }

  /** Name and extension of a file name, cut to 8 and 3. */
  function SplitName(name: Text): (Text, Text) {
    var k := LastDot(name);
    if k < |name| then (Cut(name[..k], 8), Cut(name[k + 1..], 3)) else (Cut(name, 8), [])
  }

  /** The name a slot spells from its two fields. */
  function JoinName(base: Text, ext: Text): Text {
    if ext == [] then base else base + [DOT] + ext
  }

  function FormatName(name: Text): (field: Text)
    ensures |field| == 11
  {
    PadTrim(SplitName(name).0, 8);
    PadTrim(SplitName(name).1, 3);
    Pad(SplitName(name).0, 8) + Pad(SplitName(name).1, 3)
  }

  /** What the 11 name bytes of a slot mean; a field that is not ASCII reads as question marks. */
  function ParseName(field: Text): Text
    requires |field| == 11
  {
    var base := if IsAscii(field[..8]) then TrimEnd(field[..8]) else [63, 63, 63, 63, 63, 63, 63, 63];
    var ext := if IsAscii(field[8..]) then TrimEnd(field[8..]) else [63, 63, 63];
    JoinName(base, ext)
  }

  /** The name that the slot written for a name shows. */
  function ShownName(name: Text): Text {
    ParseName(FormatName(name))
  }

  /** A name that fits 8.3: no trailing space in either part and no empty extension after a dot. */
  predicate Fits83(name: Text) {
    var k := LastDot(name);
    if k < |name| then k <= 8 && 1 <= |name| - k - 1 <= 3 && NoTrail(name[..k]) && NoTrail(name[k + 1..])
    else |name| <= 8 && NoTrail(name)
  }

  lemma PadAscii(t: Text, n: nat)
    requires IsAscii(t)
    ensures IsAscii(Pad(t, n))
  {
  }

  lemma FormatAscii(name: Text)
    requires IsAscii(name)
    ensures IsAscii(FormatName(name))
  {
    PadAscii(SplitName(name).0, 8);
    PadAscii(SplitName(name).1, 3);
  }

  lemma FormatParts(name: Text)
    requires IsAscii(name)
    ensures ShownName(name) == JoinName(TrimEnd(Pad(SplitName(name).0, 8)), TrimEnd(Pad(SplitName(name).1, 3)))
  {
    var (base, ext) := SplitName(name);
    PadTrim(base, 8);
    PadTrim(ext, 3);
    PadAscii(base, 8);
    PadAscii(ext, 3);
    var f := FormatName(name);
    assert f[..8] == Pad(base, 8) && f[8..] == Pad(ext, 3);
  }

  lemma FitsRoundTrips(name: Text)
    requires IsAscii(name) && Fits83(name)
    ensures JoinName(TrimEnd(Pad(SplitName(name).0, 8)), TrimEnd(Pad(SplitName(name).1, 3))) == name
  {
    var k := LastDot(name);
    PadTrim(SplitName(name).0, 8);
    PadTrim(SplitName(name).1, 3);
    if k < |name| {
      assert SplitName(name) == (name[..k], name[k + 1..]);
      assert name == name[..k] + [DOT] + name[k + 1..];
    } else {
      assert SplitName(name) == (name, []);
    }
  }

  /** Writing a name into a slot and reading it back gives the name exactly when it fits 8.3. */
  lemma NameRoundTrip(name: Text)
    requires IsAscii(name)
    ensures ShownName(name) == name <==> Fits83(name)
  {
    FormatParts(name);
    if Fits83(name) {
      FitsRoundTrips(name);
    } else if ShownName(name) == name {
      RoundTripFits(name, TrimEnd(Pad(SplitName(name).0, 8)), TrimEnd(Pad(SplitName(name).1, 3)));
    }
  }

  lemma RoundTripFits(name: Text, b: Text, e: Text)
    requires IsAscii(name) && JoinName(b, e) == name
    requires b == TrimEnd(Pad(SplitName(name).0, 8)) && e == TrimEnd(Pad(SplitName(name).1, 3))
    ensures Fits83(name)
  {
    var (base, ext) := SplitName(name);
    FieldBack(base, 8);
    FieldBack(ext, 3);
    if e == [] { WholeFits(name, b); } else { SplitFits(name, b, e); }
  }

  /** What padding and trimming make of a field: no longer than it, no trailing space, a front of its padding. */
  lemma FieldBack(t: Text, n: nat)
    ensures |TrimEnd(Pad(t, n))| <= |t| && |TrimEnd(Pad(t, n))| <= n && NoTrail(TrimEnd(Pad(t, n)))
    ensures TrimEnd(Pad(t, n)) <= Pad(t, n)
  {
    PadTrim(t, n);
    TrimEndNoTrail(Pad(t, n));
    TrimPad(t, n);
    TrimPrefix(Pad(t, n));
  }

  lemma WholeFits(name: Text, b: Text)
    requires name == b && NoTrail(b) && |b| <= |SplitName(name).0| && |b| <= 8
    ensures Fits83(name)
  {
  }

  lemma SplitFits(name: Text, b: Text, e: Text)
    requires e != [] && name == b + [DOT] + e && NoTrail(b) && NoTrail(e) && |b| <= 8 && |e| <= 3
    requires |e| <= |SplitName(name).1| && e <= Pad(SplitName(name).1, 3)
    ensures Fits83(name)
  {
    var k, ext := LastDot(name), SplitName(name).1;
    forall i | 0 <= i < |e| ensures e[i] != DOT {
      assert e[i] == Pad(ext, 3)[i] && Pad(ext, 3)[i] == ext[i];
      ExtNoDot(name, i);
    }
    DotAt(name, b, e);
  }

  lemma ExtNoDot(name: Text, i: nat)
    requires i < |SplitName(name).1|
    ensures SplitName(name).1[i] != DOT
  {
    var k := LastDot(name);
    assert SplitName(name).1[i] == name[k + 1..][i];
  }

  lemma DotAt(name: Text, b: Text, e: Text)
    requires name == b + [DOT] + e && (forall i | 0 <= i < |e| :: e[i] != DOT)
    ensures LastDot(name) == |b| && name[..|b|] == b && name[|b| + 1..] == e
  {
    assert name[|b|] == DOT;
    assert forall i | |b| < i < |name| :: name[i] == e[i - |b| - 1];
  }

  /** Padding is trimmed away again. */
  lemma {:induction false} TrimPad(t: Text, n: nat)
    ensures |TrimEnd(Pad(t, n))| <= |t|
  {
    if |t| >= n {
      TrimEndNoTrail(t[..n]);
    } else {
      TrimEndSpaces(t, n - |t|);
    }
  }

  lemma {:induction false} TrimEndSpaces(t: Text, n: nat)
    ensures |TrimEnd(t + Spaces(n))| <= |t|
    decreases n
  {
    if n == 0 {
      assert t + Spaces(0) == t;
      TrimEndNoTrail(t);
    } else {
      assert t + Spaces(n) == (t + Spaces(n - 1)) + [SPACE];
      assert (t + Spaces(n))[..|t| + n - 1] == t + Spaces(n - 1);
      TrimEndSpaces(t, n - 1);
    }
  }

  lemma {:induction false} TrimPrefix(t: Text)
    ensures TrimEnd(t) <= t
    decreases |t|
  {
    if t != [] && IsSpace(t[|t| - 1]) {
      TrimPrefix(t[..|t| - 1]);
    }
  }

  // ---------------------------------------------------------------
  // Directory slots
  // ---------------------------------------------------------------

  /** 32 bytes: name, attribute, reserved, first cluster and size, little endian. */
  type Slot = seq<nat>

  /** The slot ends the directory. */
  predicate IsEnd(s: Slot)
    requires |s| == 32
  {
    s[0] == 0
  }

  predicate IsDeleted(s: Slot)
    requires |s| == 32
  {
    s[0] == 0xE5
  }

  /** A long-name or volume-label slot, which listings skip. */
  predicate IsSkipped(s: Slot)
    requires |s| == 32
  {
    s[11] == 0x0F || s[11] / 8 % 2 == 1
  }

  /** A slot that listings show. */
  predicate IsShown(s: Slot)
    requires |s| == 32
  {
    !IsEnd(s) && !IsDeleted(s) && !IsSkipped(s)
  }

  predicate IsDirectory(s: Slot)
    requires |s| == 32
  {
    s[11] / 16 % 2 == 1
  }

  /** What slots mean by their first byte and the values that attribute bytes take. */
  lemma SlotKinds(s: Slot)
    requires |s| == 32
    ensures s[0] == 0 || s[0] == 0xE5 || s[11] in {0x08, 0x0F, 0x18, 0x28} ==> !IsShown(s)
    ensures s[0] != 0 && s[0] != 0xE5 && s[11] in {0x00, 0x01, 0x06, 0x20} ==> IsShown(s) && !IsDirectory(s)
    ensures s[0] != 0 && s[0] != 0xE5 && s[11] in {0x10, 0x12, 0x30} ==> IsShown(s) && IsDirectory(s)
  {
  }

  function SlotName(s: Slot): Text
    requires |s| == 32
  {
    ParseName(s[..11])
  }

  function SlotCluster(s: Slot): nat
    requires |s| == 32
  {
    s[26] + 256 * s[27]
  }

  function SlotSize(s: Slot): nat
    requires |s| == 32
  {
    s[28] + 0x100 * s[29] + 0x1_0000 * s[30] + 0x100_0000 * s[31]
  }

  /** The slot of a regular file. */
  function FileSlot(name: Text, cluster: nat, size: nat): Slot {
    FormatName(name) + [0] + [0, 0, 0, 0, 0, 0, 0, 0, 0, 0, 0, 0, 0, 0] + [cluster % 256, cluster / 256 % 256]
    + [size % 0x100, size / 0x100 % 0x100, size / 0x1_0000 % 0x100, size / 0x100_0000 % 0x100]
  }

  /** A file slot reads back as the file it was written for, under the name it shows. */
  lemma SlotRoundTrip(name: Text, cluster: nat, size: nat)
    requires IsAscii(name) && cluster < 0x1_0000
    ensures |FileSlot(name, cluster, size)| == 32 && SlotName(FileSlot(name, cluster, size)) == ShownName(name)
    ensures SlotCluster(FileSlot(name, cluster, size)) == cluster
    ensures SlotSize(FileSlot(name, cluster, size)) == size % 0x1_0000_0000
    ensures !IsDirectory(FileSlot(name, cluster, size)) && !IsSkipped(FileSlot(name, cluster, size))
    ensures IsShown(FileSlot(name, cluster, size)) <==> name == [] || name[0] != 0
  {
    SlotNameBack(name, cluster, size);
    SlotNumbers(name, cluster, size);
    SlotKind(name, cluster, size);
  }

  lemma SlotNameBack(name: Text, cluster: nat, size: nat)
    ensures |FileSlot(name, cluster, size)| == 32 && SlotName(FileSlot(name, cluster, size)) == ShownName(name)
  {
    FileSlotFields(name, cluster, size);
  }

  lemma SlotKind(name: Text, cluster: nat, size: nat)
    requires IsAscii(name)
    ensures |FileSlot(name, cluster, size)| == 32
    ensures !IsDirectory(FileSlot(name, cluster, size)) && !IsSkipped(FileSlot(name, cluster, size))
    ensures IsShown(FileSlot(name, cluster, size)) <==> name == [] || name[0] != 0
  {
    FileSlotFields(name, cluster, size);
    FirstByte(name);
  }

  lemma SlotNumbers(name: Text, cluster: nat, size: nat)
    requires cluster < 0x1_0000
    ensures |FileSlot(name, cluster, size)| == 32 && SlotCluster(FileSlot(name, cluster, size)) == cluster
    ensures SlotSize(FileSlot(name, cluster, size)) == size % 0x1_0000_0000
  {
    FileSlotFields(name, cluster, size);
    SizeBytes(size);
    LowBytes2(cluster);
  }

  lemma FileSlotFields(name: Text, cluster: nat, size: nat)
    ensures var s := FileSlot(name, cluster, size);
            && |s| == 32 && s[..11] == FormatName(name) && s[0] == FormatName(name)[0] && s[11] == 0
            && s[26] == cluster % 256 && s[27] == cluster / 256 % 256
            && s[28] == size % 0x100 && s[29] == size / 0x100 % 0x100
            && s[30] == size / 0x1_0000 % 0x100 && s[31] == size / 0x100_0000 % 0x100
  {
  }

  /**
   The name bytes of a slot, for a name given by its parts around the last dot, or without a dot: 8 and 3 bytes,
   cut or filled with spaces.
   */
  lemma FileSlotName(base: Text, ext: Text, dotted: bool, cluster: nat, size: nat)
    requires 46 !in ext && (dotted || (ext == [] && 46 !in base))
    ensures var s := FileSlot(if dotted then base + [46] + ext else base, cluster, size);
            && |s| == 32
            && (forall j | 0 <= j < 8 :: s[j] == if j < |base| then base[j] else 32)
            && (forall j | 0 <= j < 3 :: s[8 + j] == if j < |ext| then ext[j] else 32)
  {
    NameField(base, ext, dotted);
    NameBytes(if dotted then base + [46] + ext else base, cluster, size);
  }

  lemma NameBytes(name: Text, cluster: nat, size: nat)
    ensures |FileSlot(name, cluster, size)| == 32
    ensures forall j | 0 <= j < 11 :: FileSlot(name, cluster, size)[j] == FormatName(name)[j]
  {
    FileSlotFields(name, cluster, size);
    var s := FileSlot(name, cluster, size);
    assert forall j | 0 <= j < 11 :: s[j] == s[..11][j];
  }

  /** After the name: 15 zeroes, then the cluster in two bytes and the size in four, low byte first. */
  lemma FileSlotNumbers(name: Text, cluster: nat, size: nat)
    requires cluster < 0x1_0000
    ensures var s := FileSlot(name, cluster, size);
            && |s| == 32 && (forall j | 11 <= j < 26 :: s[j] == 0) && (forall j | 26 <= j < 32 :: s[j] < 256)
            && s[26] + 256 * s[27] == cluster
            && s[28] + 0x100 * s[29] + 0x1_0000 * s[30] + 0x100_0000 * s[31] == size % 0x1_0000_0000
  {
    FileSlotFields(name, cluster, size);
    SizeBytes(size);
    LowBytes2(cluster);
  }

  lemma NameField(base: Text, ext: Text, dotted: bool)
    requires 46 !in ext && (dotted || (ext == [] && 46 !in base))
    ensures var field := FormatName(if dotted then base + [46] + ext else base);
            && (forall j | 0 <= j < 8 :: field[j] == if j < |base| then base[j] else 32)
            && (forall j | 0 <= j < 3 :: field[8 + j] == if j < |ext| then ext[j] else 32)
  {
    NameParts(base, ext, dotted);
    PadBytes(Cut(base, 8), 8);
    PadBytes(Cut(ext, 3), 3);
  }

  lemma NameParts(base: Text, ext: Text, dotted: bool)
    requires 46 !in ext && (dotted || (ext == [] && 46 !in base))
    ensures SplitName(if dotted then base + [46] + ext else base) == (Cut(base, 8), Cut(ext, 3))
  {
    if dotted {
      var name := base + [46] + ext;
      assert name[|base|] == 46;
      assert LastDot(name) == |base|;
      assert name[..|base|] == base && name[|base| + 1..] == ext;
    } else {
      assert LastDot(base) == |base|;
    }
  }

  lemma PadBytes(t: Text, n: nat)
    requires |t| <= n
    ensures |Pad(t, n)| == n && forall j | 0 <= j < n :: Pad(t, n)[j] == if j < |t| then t[j] else 32
  {
  }

  lemma SizeBytes(size: nat)
    ensures size % 0x100 + 0x100 * (size / 0x100 % 0x100) + 0x1_0000 * (size / 0x1_0000 % 0x100)
            + 0x100_0000 * (size / 0x100_0000 % 0x100) == size % 0x1_0000_0000
  {
    LowBytes2(size);
    LowBytes3(size);
    LowBytes4(size);
  }

  lemma LowBytes2(x: nat)
    ensures x % 0x1_0000 == x % 0x100 + 0x100 * (x / 0x100 % 0x100)
  {
    var a, r := x / 0x100, x % 0x100;
    var b, d := a / 0x100, a % 0x100;
    assert x == b * 0x1_0000 + (d * 0x100 + r);
  }

  lemma LowBytes3(x: nat)
    ensures x % 0x100_0000 == x % 0x1_0000 + 0x1_0000 * (x / 0x1_0000 % 0x100)
  {
    var a, r := x / 0x1_0000, x % 0x1_0000;
    var b, d := a / 0x100, a % 0x100;
    assert x == b * 0x100_0000 + (d * 0x1_0000 + r);
  }

  lemma LowBytes4(x: nat)
    ensures x % 0x1_0000_0000 == x % 0x100_0000 + 0x100_0000 * (x / 0x100_0000 % 0x100)
  {
    var a, r := x / 0x100_0000, x % 0x100_0000;
    var b, d := a / 0x100, a % 0x100;
    assert x == b * 0x1_0000_0000 + (d * 0x100_0000 + r);
  }

  lemma FirstByte(name: Text)
    requires IsAscii(name)
    ensures FormatName(name)[0] != 0xE5
    ensures FormatName(name)[0] == 0 <==> name != [] && name[0] == 0
  {
    var (base, ext) := SplitName(name);
    PadTrim(base, 8);
    if base == [] {
      assert Pad(base, 8) == Spaces(8);
      if name != [] { assert LastDot(name) == 0; }
    } else {
      assert Pad(base, 8)[0] == base[0] && base[0] == name[0];
    }
  }
}

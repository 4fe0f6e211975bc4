/** The initial user stack: argument and environment strings, their pointer arrays, and their reader. */
module ArgStack {

  type Bytes = seq<nat>

  // ---------------------------------------------------------------
  // Little-endian words
  // ---------------------------------------------------------------

  function LeBytes(v: nat, n: nat): (b: Bytes)
    ensures |b| == n && forall i | 0 <= i < n :: b[i] < 256
  {
    if n == 0 then [] else [v % 256] + LeBytes(v / 256, n - 1)
  }

  function LeValue(b: Bytes): nat {
    if b == [] then 0 else b[0] + 256 * LeValue(b[1..])
  }

  function Pow256(n: nat): nat {
    if n == 0 then 1 else 256 * Pow256(n - 1)
  }

  lemma {:induction false} LeRoundTrip(v: nat, n: nat)
    requires v < Pow256(n)
    ensures LeValue(LeBytes(v, n)) == v
    decreases n
  {
    if n > 0 {
      LeRoundTrip(v / 256, n - 1);
      assert LeBytes(v, n)[1..] == LeBytes(v / 256, n - 1);
    }
  }

  /** The value of eight bytes, the lowest first. */
  lemma WordDigits(b: Bytes)
    requires |b| == 8
    ensures LeValue(b) == b[0] + 0x100 * b[1] + 0x1_0000 * b[2] + 0x100_0000 * b[3] + 0x1_0000_0000 * b[4]
                          + 0x100_0000_0000 * b[5] + 0x1_0000_0000_0000 * b[6] + 0x100_0000_0000_0000 * b[7]
  {
    HalfDigits(b[4..]);
    HalfDigits(b[..4]);
    assert b == b[..4] + b[4..];
    ValueJoin(b[..4], b[4..]);
    assert Pow256(4) == 0x1_0000_0000 by { assert Pow256(2) == 0x1_0000; }
  }

  lemma HalfDigits(b: Bytes)
    requires |b| == 4
    ensures LeValue(b) == b[0] + 0x100 * b[1] + 0x1_0000 * b[2] + 0x100_0000 * b[3]
  {
    assert b[1..][1..] == b[2..] && b[2..][1..] == b[3..];
    assert LeValue(b[3..]) == b[3] && LeValue(b[2..]) == b[2] + 0x100 * b[3];
  }

  lemma {:induction false} ValueJoin(a: Bytes, b: Bytes)
    ensures LeValue(a + b) == LeValue(a) + Pow256(|a|) * LeValue(b)
  {
    if a == [] {
      assert a + b == b;
    } else {
      assert (a + b)[1..] == a[1..] + b;
      ValueJoin(a[1..], b);
    }
  }

  // ---------------------------------------------------------------
  // What lies where
  // ---------------------------------------------------------------

  predicate NulFree(s: Bytes) {
    forall i | 0 <= i < |s| :: s[i] != 0
  }

  /** The string and its terminating zero start at offset o. */
  predicate StrAt(stack: Bytes, o: nat, s: Bytes) {
    o + |s| < |stack| && stack[o..o + |s|] == s && stack[o + |s|] == 0
  }

  predicate WordAt(stack: Bytes, o: nat, v: int) {
    o + 8 <= |stack| && LeValue(stack[o..o + 8]) == v
  }

  /** Everything from offset c on is the same. */
  predicate SameFrom(a: Bytes, b: Bytes, c: nat) {
    |a| == |b| && c <= |a| && a[c..] == b[c..]
  }

  lemma StrKept(a: Bytes, b: Bytes, c: nat, o: nat, s: Bytes)
    requires SameFrom(a, b, c) && c <= o && StrAt(a, o, s)
    ensures StrAt(b, o, s)
  {
    assert forall i | c <= i < |a| :: a[i] == a[c..][i - c] && b[i] == b[c..][i - c];
  }

  lemma WordKept(a: Bytes, b: Bytes, c: nat, o: nat, v: int)
    requires SameFrom(a, b, c) && c <= o && WordAt(a, o, v)
    ensures WordAt(b, o, v)
  {
    assert forall i | c <= i < |a| :: a[i] == a[c..][i - c] && b[i] == b[c..][i - c];
    assert a[o..o + 8] == b[o..o + 8];
  }

  lemma SameFromTrans(a: Bytes, b: Bytes, d: Bytes, c: nat, c': nat)
    requires SameFrom(a, b, c) && SameFrom(b, d, c') && c' <= c
    ensures SameFrom(a, d, c)
  {
    assert b[c..] == b[c'..][c - c'..] && d[c..] == d[c'..][c - c'..];
  }

  /** The addresses are those of the strings. */
  predicate StringsAt(stack: Bytes, base: nat, addrs: seq<int>, strs: seq<Bytes>) {
    |addrs| == |strs| && forall j | 0 <= j < |strs| :: addrs[j] >= base && StrAt(stack, addrs[j] - base, strs[j])
  }

  /** The words start at offset o, eight bytes each. */
  predicate WordsAt(stack: Bytes, o: nat, words: seq<int>) {
    forall j | 0 <= j < |words| :: WordAt(stack, o + 8 * j, words[j])
  }

  /** A pointer array at address p: one pointer per string, then a null pointer. */
  ghost predicate Laid(stack: Bytes, base: nat, p: int, strs: seq<Bytes>) {
    p >= base && exists addrs :: PointerArray(stack, base, p, addrs, strs)
  }

  ghost predicate PointerArray(stack: Bytes, base: nat, p: int, addrs: seq<int>, strs: seq<Bytes>)
    requires p >= base
  {
    StringsAt(stack, base, addrs, strs) && WordsAt(stack, p - base, addrs + [0])
  }

  predicate AllFrom(addrs: seq<int>, low: int) {
    forall j | 0 <= j < |addrs| :: low <= addrs[j]
  }

  predicate AllTo(addrs: seq<int>, high: int) {
    forall j | 0 <= j < |addrs| :: addrs[j] <= high
  }

  lemma StringsCons(stack: Bytes, base: nat, addr: int, s: Bytes, addrs: seq<int>, strs: seq<Bytes>, high: int)
    requires base <= addr <= high && StrAt(stack, addr - base, s) && StringsAt(stack, base, addrs, strs)
    requires AllFrom(addrs, high)
    ensures StringsAt(stack, base, [addr] + addrs, [s] + strs) && AllFrom([addr] + addrs, addr)
  {
  }

  lemma StringsKept(a: Bytes, b: Bytes, c: nat, base: nat, addrs: seq<int>, strs: seq<Bytes>)
    requires SameFrom(a, b, c) && StringsAt(a, base, addrs, strs) && AllFrom(addrs, base + c)
    ensures StringsAt(b, base, addrs, strs)
  {
    forall j | 0 <= j < |strs| ensures StrAt(b, addrs[j] - base, strs[j]) {
      StrKept(a, b, c, addrs[j] - base, strs[j]);
    }
  }

  lemma WordsKept(a: Bytes, b: Bytes, c: nat, o: nat, words: seq<int>)
    requires SameFrom(a, b, c) && c <= o && WordsAt(a, o, words)
    ensures WordsAt(b, o, words)
  {
    forall j | 0 <= j < |words| ensures WordAt(b, o + 8 * j, words[j]) {
      WordKept(a, b, c, o + 8 * j, words[j]);
    }
  }

  // ---------------------------------------------------------------
  // How much room the layout takes
  // ---------------------------------------------------------------

  function Size(strs: seq<Bytes>): nat {
    if strs == [] then 0 else |strs[0]| + 1 + Size(strs[1..])
  }

  /** Strings and, below them from a multiple of 8 on, both pointer arrays fit between base and top. */
  predicate Fits(base: nat, top: nat, args: seq<Bytes>, envs: seq<Bytes>) {
    && base + Size(args) + Size(envs) <= top
    && base + 8 * (|envs| + 1) + 8 * (|args| + 1) <= (top - Size(args) - Size(envs)) / 8 * 8
  }

  lemma SizeStep(strs: seq<Bytes>, i: nat)
    requires i < |strs|
    ensures Size(strs[i..]) == |strs[i]| + 1 + Size(strs[i + 1..])
  {
    assert strs[i..][0] == strs[i] && strs[i..][1..] == strs[i + 1..];
  }

  // ---------------------------------------------------------------
  // Building the stack
  // ---------------------------------------------------------------

  /** Addresses from addr on, n of them, lie on the stack. */
  predicate OnStack(stack: Bytes, base: nat, addr: int, n: nat) {
    base <= addr && addr - base + n <= |stack|
  }

  /** Writes bytes at an address, one by one; a byte whose address is not on the stack is dropped. */
  method WriteToStack(stack: Bytes, base: nat, addr: int, bytes: Bytes) returns (r: Bytes)
    ensures |r| == |stack|
    ensures OnStack(stack, base, addr, |bytes|) ==>
              && r[addr - base..addr - base + |bytes|] == bytes && SameFrom(stack, r, addr - base + |bytes|)
              && r[..addr - base] == stack[..addr - base]
  {
    r := stack;
    var o := addr - base;
    for i := 0 to |bytes|
      invariant |r| == |stack| && (forall j | 0 <= j < i && 0 <= o + j < |stack| :: r[o + j] == bytes[j])
      invariant forall j | 0 <= j < |stack| && !(o <= j < o + i) :: r[j] == stack[j]
    {
      if 0 <= o + i < |stack| { r := r[o + i := bytes[i]]; }
    }
  }

  /** Writes one string and its terminating zero right below the cursor. */
  method PushString(stack: Bytes, base: nat, cursor: int, s: Bytes) returns (r: Bytes, addr: int)
    requires cursor - base <= |stack|
    ensures addr == cursor - (|s| + 1) && |r| == |stack|
    ensures base <= addr ==> StrAt(r, addr - base, s) && SameFrom(stack, r, cursor - base)
  {
    addr := cursor - (|s| + 1);
    r := WriteToStack(stack, base, addr, s);
    ghost var r1 := r;
    r := WriteToStack(r, base, addr + |s|, [0]);
    if base <= addr { StringWritten(stack, r1, r, addr - base, s); }
  }

  lemma StringWritten(stack: Bytes, r1: Bytes, r: Bytes, o: nat, s: Bytes)
    requires |r1| == |stack| && |r| == |stack| && o + |s| < |stack|
    requires r1[o..o + |s|] == s && SameFrom(stack, r1, o + |s|)
    requires r[o + |s|..o + |s| + 1] == [0] && SameFrom(r1, r, o + |s| + 1) && r[..o + |s|] == r1[..o + |s|]
    ensures StrAt(r, o, s) && SameFrom(stack, r, o + |s| + 1)
  {
    assert r[o..o + |s|] == r1[o..o + |s|] by {
      assert forall i | 0 <= i < o + |s| :: r[i] == r[..o + |s|][i] && r1[i] == r1[..o + |s|][i];
    }
    assert r[o + |s|] == r[o + |s|..o + |s| + 1][0];
    assert stack[o + |s| + 1..] == stack[o + |s|..][1..] && r1[o + |s| + 1..] == r1[o + |s|..][1..];
  }

  /** What pushing strings promises while the cursor has not left the stack. */
  predicate Pushed(stack: Bytes, r: Bytes, base: nat, top: int, low: int, addrs: seq<int>, strs: seq<Bytes>) {
    && |r| == |stack| && |addrs| == |strs| && low <= top
    && (base <= low ==> StringsAt(r, base, addrs, strs) && SameFrom(stack, r, top - base)
                        && AllFrom(addrs, low) && AllTo(addrs, top))
  }

  /** Writes the strings from the last to the first and returns their addresses in order. */
  method PushStrings(stack: Bytes, base: nat, cursor: int, strs: seq<Bytes>)
    returns (r: Bytes, low: int, addrs: seq<int>)
    requires cursor - base <= |stack|
    ensures low == cursor - Size(strs) && Pushed(stack, r, base, cursor, low, addrs, strs)
  {
    r, low, addrs := stack, cursor, [];
    var i := |strs|;
    assert strs[i..] == [];
    while i > 0
      invariant 0 <= i <= |strs| && low == cursor - Size(strs[i..])
      invariant Pushed(stack, r, base, cursor, low, addrs, strs[i..])
    {
      i := i - 1;
      SizeStep(strs, i);
      assert strs[i..] == [strs[i]] + strs[i + 1..];
      ghost var r1, high := r, low;
      r, low := PushString(r, base, low, strs[i]);
      PushedFront(stack, r1, r, base, cursor, high, low, addrs, strs[i], strs[i + 1..]);
      addrs := [low] + addrs;
    }
    assert strs[0..] == strs;
  }

  lemma PushedFront(stack: Bytes, r1: Bytes, r: Bytes, base: nat, top: int, high: int, low: int, addrs: seq<int>,
                    s: Bytes, strs: seq<Bytes>)
    requires Pushed(stack, r1, base, top, high, addrs, strs) && low == high - (|s| + 1) && |r| == |r1|
    requires base <= low ==> StrAt(r, low - base, s) && SameFrom(r1, r, high - base)
    ensures Pushed(stack, r, base, top, low, [low] + addrs, [s] + strs)
  {
    if base <= low {
      SameFromTrans(stack, r1, r, top - base, high - base);
      StringsKept(r1, r, high - base, base, addrs, strs);
      StringsCons(r, base, low, s, addrs, strs, high);
    }
  }

  predicate AllWords(words: seq<int>) {
    forall j | 0 <= j < |words| :: 0 <= words[j] < Pow256(8)
  }

  /** The eight bytes of a word. A negative address, possible only where the layout does not fit, counts as 0. */
  function WordBytes(w: int): Bytes {
    LeBytes(if 0 <= w then w else 0, 8)
  }

  /** Writes the words from the last to the first, each right below the one before. */
  method PushWords(stack: Bytes, base: nat, cursor: int, words: seq<int>) returns (r: Bytes, low: int)
    requires cursor - base <= |stack|
    ensures low == cursor - 8 * |words| && |r| == |stack|
    ensures base <= low && AllWords(words) ==> WordsAt(r, low - base, words) && SameFrom(stack, r, cursor - base)
  {
    r, low := stack, cursor;
    var i := |words|;
    while i > 0
      invariant 0 <= i <= |words| && low == cursor - 8 * (|words| - i) && |r| == |stack|
      invariant base <= low && AllWords(words) ==>
                WordsAt(r, low - base, words[i..]) && SameFrom(stack, r, cursor - base)
    {
      i := i - 1;
      ghost var r1 := r;
      low := low - 8;
      r := WriteToStack(r, base, low, WordBytes(words[i]));
      if base <= low && AllWords(words) { WordsFront(stack, r1, r, low - base, cursor - base, words, i); }
    }
    assert words[0..] == words;
  }

  lemma WordsFront(stack: Bytes, r1: Bytes, r: Bytes, o: nat, c: nat, words: seq<int>, i: nat)
    requires i < |words| && AllWords(words) && o + 8 <= c && |r| == |r1|
    requires WordsAt(r1, o + 8, words[i + 1..]) && SameFrom(stack, r1, c) && SameFrom(r1, r, o + 8)
    requires o + 8 <= |r| && r[o..o + 8] == WordBytes(words[i])
    ensures WordsAt(r, o, words[i..]) && SameFrom(stack, r, c)
  {
    SameFromTrans(stack, r1, r, c, o + 8);
    LeRoundTrip(words[i], 8);
    WordsKept(r1, r, o + 8, o + 8, words[i + 1..]);
    forall j | 0 <= j < |words[i..]| ensures WordAt(r, o + 8 * j, words[i..][j]) {
      if j > 0 { assert WordAt(r, o + 8 + 8 * (j - 1), words[i + 1..][j - 1]); }
    }
  }

  /** Both pointer arrays with their null pointers, the environment's above the arguments'. */
  method PushArrays(stack: Bytes, base: nat, cursor: int, args: seq<int>, envs: seq<int>)
    returns (r: Bytes, sp: int, argv: int, envp: int)
    requires cursor - base <= |stack|
    ensures envp == cursor - 8 * (|envs| + 1) && argv == envp - 8 * (|args| + 1) && |r| == |stack|
    ensures base <= argv && AllWords(args) && AllWords(envs) ==>
              && WordsAt(r, argv - base, args + [0]) && WordsAt(r, envp - base, envs + [0])
              && SameFrom(stack, r, cursor - base)
    ensures sp % 16 == 0 && sp <= argv < sp + 16
  {
    r, envp := PushWords(stack, base, cursor, envs + [0]);
    ghost var r1 := r;
    r, argv := PushWords(r, base, envp, args + [0]);
    NullEnded(args);
    NullEnded(envs);
    if base <= argv && AllWords(args) && AllWords(envs) {
      WordsKept(r1, r, envp - base, envp - base, envs + [0]);
      SameFromTrans(stack, r1, r, cursor - base, envp - base);
    }
    sp := argv / 16 * 16;
  }

  lemma NullEnded(words: seq<int>)
    ensures AllWords(words) ==> AllWords(words + [0])
  {
  }

  /**
   Builds the initial stack; sp is 16-aligned and at or below the argument array. Bytes that do not fit are
   dropped, so both arrays and all their strings are there exactly when the layout fits.
   */
  method SetupUserStackArgs(stack: Bytes, base: nat, top: nat, args: seq<Bytes>, envs: seq<Bytes>)
    returns (r: Bytes, sp: int, argc: nat, argv: int, envp: int)
    requires 0 < base && base <= top <= base + |stack| && top < Pow256(8)
    ensures Laid(r, base, argv, args) && Laid(r, base, envp, envs) <==> Fits(base, top, args, envs)
    ensures Fits(base, top, args, envs) ==> SameFrom(stack, r, top - base)
    ensures argc == |args| && sp % 16 == 0 && sp <= argv < sp + 16 && argv + 8 * (argc + 1) == envp <= top
  {
    var low, cursor, argAddrs, envAddrs;
    r, low, argAddrs := PushStrings(stack, base, top, args);
    ghost var r0 := r;
    r, cursor, envAddrs := PushStrings(r, base, low, envs);
    ghost var r1, end := r, cursor;
    cursor := cursor / 8 * 8;
    r, sp, argv, envp := PushArrays(r, base, cursor, argAddrs, envAddrs);
    argc := |args|;
    FitsIff(base, top, args, envs, end, argv);
    if base <= argv {
      BothPushed(stack, r0, r1, base, top, low, end, argAddrs, envAddrs, args, envs);
      AllBuilt(stack, r1, r, base, top, end, cursor, argv, envp, argAddrs, envAddrs, args, envs);
    }
  }

  /** The layout fits exactly when the argument array starts on the stack. */
  lemma FitsIff(base: nat, top: nat, args: seq<Bytes>, envs: seq<Bytes>, end: int, argv: int)
    requires end == top - Size(args) - Size(envs) && argv == end / 8 * 8 - 8 * (|envs| + 1) - 8 * (|args| + 1)
    ensures Fits(base, top, args, envs) <==> base <= argv
  {
  }

  lemma BothPushed(stack: Bytes, r0: Bytes, r1: Bytes, base: nat, top: nat, low: int, end: int, argAddrs: seq<int>,
                   envAddrs: seq<int>, args: seq<Bytes>, envs: seq<Bytes>)
    requires Pushed(stack, r0, base, top, low, argAddrs, args) && Pushed(r0, r1, base, low, end, envAddrs, envs)
    requires base <= end && top < Pow256(8)
    ensures StringsAt(r1, base, argAddrs, args) && StringsAt(r1, base, envAddrs, envs)
    ensures AllFrom(argAddrs, end) && AllFrom(envAddrs, end) && AllWords(argAddrs) && AllWords(envAddrs)
    ensures SameFrom(stack, r1, top - base)
  {
    StringsKept(r0, r1, low - base, base, argAddrs, args);
    SameFromTrans(stack, r0, r1, top - base, low - base);
  }

  lemma AllBuilt(stack: Bytes, r1: Bytes, r: Bytes, base: nat, top: nat, end: int, cursor: int, argv: int, envp: int,
                 argAddrs: seq<int>, envAddrs: seq<int>, args: seq<Bytes>, envs: seq<Bytes>)
    requires base <= argv <= envp <= cursor <= end <= top && SameFrom(r1, r, cursor - base)
    requires StringsAt(r1, base, argAddrs, args) && StringsAt(r1, base, envAddrs, envs)
    requires AllFrom(argAddrs, end) && AllFrom(envAddrs, end) && SameFrom(stack, r1, top - base)
    requires WordsAt(r, argv - base, argAddrs + [0]) && WordsAt(r, envp - base, envAddrs + [0])
    ensures Laid(r, base, argv, args) && Laid(r, base, envp, envs) && SameFrom(stack, r, top - base)
  {
    StringsKept(r1, r, cursor - base, base, argAddrs, args);
    StringsKept(r1, r, cursor - base, base, envAddrs, envs);
    SameFromTrans(stack, r1, r, top - base, cursor - base);
    assert PointerArray(r, base, argv, argAddrs, args) && PointerArray(r, base, envp, envAddrs, envs);
  }

  // ---------------------------------------------------------------
  // Reading the arguments back
  // ---------------------------------------------------------------

  /** A string up to its first zero. */
  function CStr(s: Bytes): (r: Bytes)
    ensures NulFree(r) && r <= s && (|r| < |s| ==> s[|r|] == 0)
  {
    if s == [] then []
    else
      var r := CStr(s[..|s| - 1]);
      if |r| < |s| - 1 || s[|s| - 1] == 0 then r else s
  }

  /** Only one prefix ends just before the first zero. */
  lemma CStrUnique(s: Bytes, r: Bytes)
    requires NulFree(r) && r <= s && (|r| < |s| ==> s[|r|] == 0)
    ensures r == CStr(s)
  {
    var c := CStr(s);
    assert forall i | 0 <= i < |r| :: s[i] == r[i] && r[i] != 0;
    assert forall i | 0 <= i < |c| :: s[i] == c[i] && c[i] != 0;
    assert r == s[..|r|] && c == s[..|c|];
  }

  function CStrs(args: seq<Bytes>): (r: seq<Bytes>)
    ensures |r| == |args| && forall j | 0 <= j < |args| :: r[j] == CStr(args[j])
  {
    seq(|args|, j requires 0 <= j < |args| => CStr(args[j]))
  }

  /** Cutting changes nothing exactly when there is no zero byte. */
  lemma CStrsSame(args: seq<Bytes>)
    ensures CStrs(args) == args <==> forall j | 0 <= j < |args| :: NulFree(args[j])
  {
    forall j | 0 <= j < |args| ensures CStr(args[j]) == args[j] <==> NulFree(args[j]) {
      if NulFree(args[j]) { CStrUnique(args[j], args[j]); }
    }
    if CStrs(args) == args {
      forall j | 0 <= j < |args| ensures NulFree(args[j]) {
        assert CStrs(args)[j] == args[j];
      }
    }
  }

  /** The bytes from offset o up to the first zero. */
  method ReadCStr(stack: Bytes, o: nat, ghost s: Bytes) returns (r: Bytes)
    requires StrAt(stack, o, s)
    ensures r == CStr(s)
  {
    r := [];
    var i := o;
    while stack[i] != 0
      invariant o <= i <= o + |s| && r == s[..i - o] && NulFree(r)
      decreases o + |s| - i
    {
      assert stack[i] == stack[o..o + |s|][i - o];
      r := r + [stack[i]];
      i := i + 1;
    }
    assert i < o + |s| ==> stack[i] == stack[o..o + |s|][i - o];
    CStrUnique(s, r);
  }

  /** The argument list as the runtime reads it from argc and argv: each string ends at its first zero. */
  method Args(stack: Bytes, base: nat, argc: nat, argv: int, ghost args: seq<Bytes>) returns (r: seq<Bytes>)
    requires 0 < base && Laid(stack, base, argv, args) && argc == |args|
    ensures r == CStrs(args)
  {
    ghost var addrs :| PointerArray(stack, base, argv, addrs, args);
    r := [];
    var i := 0;
    while i < argc
      invariant i <= argc && r == CStrs(args)[..i]
    {
      var o := argv - base + 8 * i;
      assert WordAt(stack, o, (addrs + [0])[i]) && StrAt(stack, addrs[i] - base, args[i]);
      var p := LeValue(stack[o..o + 8]);
      if p == 0 { break; }
      var s := ReadCStr(stack, p - base, args[i]);
      r := r + [s];
      i := i + 1;
    }
  }

  /** Building the stack and reading it back gives the arguments exactly when none contains a zero byte. */
  method RoundTrip(stack: Bytes, base: nat, top: nat, args: seq<Bytes>, envs: seq<Bytes>) returns (r: seq<Bytes>)
    requires 0 < base && base <= top <= base + |stack| && top < Pow256(8) && Fits(base, top, args, envs)
    ensures r == CStrs(args)
    ensures r == args <==> forall j | 0 <= j < |args| :: NulFree(args[j])
  {
    var built, sp, argc, argv, envp := SetupUserStackArgs(stack, base, top, args, envs);
    r := Args(built, base, argc, argv, args);
    CStrsSame(args);
  }
}

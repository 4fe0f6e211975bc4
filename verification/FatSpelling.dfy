/** How the driver reads the names and paths that callers give it. */
module FatSpelling {
  import opened FatNames

  function TrimStart(t: Text): Text {
    if t != [] && IsSpace(t[0]) then TrimStart(t[1..]) else t
  }

  function StripSlashes(t: Text): Text {
    if t != [] && t[0] == 47 then StripSlashes(t[1..]) else t
  }

  function Upper(t: Text): Text {
    seq(|t|, i requires 0 <= i < |t| => if 97 <= t[i] <= 122 then t[i] - 32 else t[i])
  }

  /** Trimmed, without leading slashes, in upper case. */
  function Normalize(t: Text): Text {
    Upper(StripSlashes(TrimStart(TrimEnd(t))))
  }

  // ---------------------------------------------------------------
  // What spelling means, without the functions above
  // ---------------------------------------------------------------

  /** Codes 65 to 90 are the capital letters, and 32 more is the small one. */
  predicate SameLetter(c: nat, d: nat) {
    c == d || (65 <= c <= 90 && d == c + 32) || (65 <= d <= 90 && c == d + 32)
  }

  /** The texts differ at most in the case of ASCII letters. */
  predicate CaseAlike(a: Text, b: Text) {
    |a| == |b| && forall i | 0 <= i < |a| :: SameLetter(a[i], b[i])
  }

  predicate NoSmallLetter(t: Text) {
    forall i | 0 <= i < |t| :: t[i] < 97 || t[i] > 122
  }

  /** A space, or one of the codes from tab to carriage return. */
  predicate Blank(c: nat) {
    c == 32 || 9 <= c <= 13
  }

  predicate White(t: Text) {
    forall i | 0 <= i < |t| :: Blank(t[i])
  }

  predicate Slashes(t: Text) {
    forall i | 0 <= i < |t| :: t[i] == 47
  }

  /** No white space at either end and no slash in front. */
  predicate Plain(t: Text) {
    t != [] ==> !Blank(t[0]) && t[0] != 47 && !Blank(t[|t| - 1])
  }

  /** White space, slashes, the name or path itself, white space. */
  function Dressed(front: Text, slashes: Text, core: Text, back: Text): Text {
    front + slashes + core + back
  }

  // ---------------------------------------------------------------
  // White space and slashes
  // ---------------------------------------------------------------

  lemma {:induction false} TrimEndWhite(t: Text, back: Text)
    requires NoTrail(t) && White(back)
    ensures TrimEnd(t + back) == t
    decreases |back|
  {
    var n := |back| - 1;
    if back == [] {
      assert t + back == t;
    } else {
      assert (t + back)[..|t| + n] == t + back[..n];
      TrimEndWhite(t, back[..n]);
    }
  }

  lemma {:induction false} TrimStartWhite(front: Text, t: Text)
    requires White(front) && (t == [] || !IsSpace(t[0]))
    ensures TrimStart(front + t) == t
    decreases |front|
  {
    if front == [] {
      assert front + t == t;
    } else {
      assert (front + t)[1..] == front[1..] + t;
      TrimStartWhite(front[1..], t);
    }
  }

  lemma {:induction false} StripAllSlashes(slashes: Text, t: Text)
    requires Slashes(slashes) && (t == [] || t[0] != 47)
    ensures StripSlashes(slashes + t) == t
    decreases |slashes|
  {
    if slashes == [] {
      assert slashes + t == t;
    } else {
      assert (slashes + t)[1..] == slashes[1..] + t;
      StripAllSlashes(slashes[1..], t);
    }
  }

  /** Only the core of a text counts. */
  lemma NormalizeDressed(front: Text, slashes: Text, core: Text, back: Text)
    requires White(front) && Slashes(slashes) && Plain(core) && White(back)
    ensures Normalize(Dressed(front, slashes, core, back)) == Upper(core)
  {
    var inner := slashes + core;
    assert Dressed(front, slashes, core, back) == front + inner + back;
    if inner == [] {
      assert front + inner + back == [] + (front + back);
      TrimEndWhite([], front + back);
    } else {
      assert NoTrail(front + inner);
      TrimEndWhite(front + inner, back);
      TrimStartWhite(front, inner);
      StripAllSlashes(slashes, core);
    }
  }

  /** White space around a text and slashes in front of it make no difference. */
  lemma NormalizeIgnores(front: Text, slashes: Text, core: Text, back: Text)
    requires White(front) && Slashes(slashes) && Plain(core) && White(back)
    ensures Normalize(front + slashes + core + back) == Normalize(core)
  {
    NormalizeDressed(front, slashes, core, back);
    NormalizeDressed([], [], core, []);
    assert Dressed([], [], core, []) == core;
  }

  // ---------------------------------------------------------------
  // Letters
  // ---------------------------------------------------------------

  /** A plain text keeps its length and its letters, and only their case can change: to capitals. */
  lemma NormalizePlain(t: Text)
    requires Plain(t)
    ensures CaseAlike(t, Normalize(t)) && NoSmallLetter(Normalize(t))
  {
    NormalizeDressed([], [], t, []);
    assert Dressed([], [], t, []) == t;
  }

  /** A plain text in capitals is its own normal form. */
  lemma NormalizeFixes(t: Text)
    requires Plain(t) && NoSmallLetter(t)
    ensures Normalize(t) == t
  {
    NormalizePlain(t);
  }

  lemma NormalizeNoSmallLetter(t: Text)
    ensures NoSmallLetter(Normalize(t))
  {
  }

  lemma {:induction false} TrimEndAlike(a: Text, b: Text)
    requires CaseAlike(a, b)
    ensures CaseAlike(TrimEnd(a), TrimEnd(b))
  {
    if a != [] && IsSpace(a[|a| - 1]) { TrimEndAlike(a[..|a| - 1], b[..|b| - 1]); }
  }

  lemma {:induction false} TrimStartAlike(a: Text, b: Text)
    requires CaseAlike(a, b)
    ensures CaseAlike(TrimStart(a), TrimStart(b))
  {
    if a != [] && IsSpace(a[0]) { TrimStartAlike(a[1..], b[1..]); }
  }

  lemma {:induction false} StripAlike(a: Text, b: Text)
    requires CaseAlike(a, b)
    ensures CaseAlike(StripSlashes(a), StripSlashes(b))
  {
    if a != [] && a[0] == 47 { StripAlike(a[1..], b[1..]); }
  }

  /** The case of ASCII letters makes no difference. */
  lemma NormalizeAlike(a: Text, b: Text)
    requires CaseAlike(a, b)
    ensures Normalize(a) == Normalize(b)
  {
    TrimEndAlike(a, b);
    TrimStartAlike(TrimEnd(a), TrimEnd(b));
    StripAlike(TrimStart(TrimEnd(a)), TrimStart(TrimEnd(b)));
  }

  /** Nothing else is forgotten: plain texts have one normal form exactly when only the case of letters differs. */
  lemma NormalizeTells(a: Text, b: Text)
    requires Plain(a) && Plain(b)
    ensures Normalize(a) == Normalize(b) <==> CaseAlike(a, b)
  {
    if CaseAlike(a, b) { NormalizeAlike(a, b); }
    NormalizePlain(a);
    NormalizePlain(b);
  }
}

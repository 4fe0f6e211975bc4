/** Capability handles and pipes on values: tokens, rights, reference counts and byte streams. */
module HandleModel {
  import opened Options

  // ---------------------------------------------------------------
  // Tokens
  // ---------------------------------------------------------------

  const WORD := 0x1_0000_0000_0000_0000
  const MIX := 0x9E37_79B9_7F4A_7C15
  const UNMIX := 0xF1DE_83E1_9937_733D

  /** The token of the n-th handle: multiplication by an odd constant, modulo 2^64. */
  function Token(n: nat): nat {
    n * MIX % WORD
  }

  /** The multiplier is invertible, so different counter values below 2^64 give different tokens. */
  lemma TokenInjective(n: nat, m: nat)
    requires n < WORD && m < WORD && Token(n) == Token(m)
    ensures n == m
  {
    var k := n * MIX / WORD - m * MIX / WORD;
    assert (n - m) * MIX == k * WORD;
    Invert(n - m, k);
  }

  lemma Invert(d: int, k: int)
    requires d * MIX == k * WORD && -WORD < d < WORD
    ensures d == 0
  {
    var q := 10771413168148108919;
    assert MIX * UNMIX == 1 + q * WORD;
    var t := k * UNMIX - d * q;
    assert d * (MIX * UNMIX) == (d * MIX) * UNMIX;
    assert d + d * q * WORD == k * WORD * UNMIX;
    assert d == t * WORD;
  }

  // ---------------------------------------------------------------
  // Tables
  // ---------------------------------------------------------------

  datatype Kind = File | Directory | PipeRead | PipeWrite

  /** Rights are sets of bit numbers; pipe is the pipe's index for pipe ends. */
  datatype Entry = Entry(token: nat, rights: set<nat>, kind: Kind, pipe: nat)

  datatype Handle = Handle(id: nat, token: nat)

  datatype Pipe = Pipe(buf: seq<nat>, writers: nat, readerClosed: bool)

  const READ := 0
  const WRITE := 1

  type Handles = seq<Option<Entry>>

  type Pipes = seq<Option<Pipe>>

  predicate Live(hs: Handles, i: nat) {
    i < |hs| && hs[i].Some?
  }

  /** The entry a handle names, if its token is right. */
  function Find(hs: Handles, h: Handle): Option<Entry> {
    if Live(hs, h.id) && hs[h.id].value.token == h.token then hs[h.id] else None
  }

  function PipeAt(ps: Pipes, p: nat): Option<Pipe> {
    if p < |ps| then ps[p] else None
  }

  /** The slot is replaced, or appended at the end. */
  function Put<T>(s: seq<Option<T>>, i: nat, x: Option<T>): seq<Option<T>>
    requires i <= |s|
  {
    if i < |s| then s[i := x] else s + [x]
  }

  /** The first empty slot, or the end. */
  predicate FirstEmpty<T(!new)>(s: seq<Option<T>>, i: nat) {
    i <= |s| && (i < |s| ==> s[i].None?) && forall j | 0 <= j < i :: s[j].Some?
  }

  lemma FirstEmptyUnique<T(!new)>(s: seq<Option<T>>, i: nat, k: nat)
    requires FirstEmpty(s, i) && FirstEmpty(s, k)
    ensures i == k
  {
  }

  // ---------------------------------------------------------------
  // Counting pipe ends
  // ---------------------------------------------------------------

  predicate IsEnd(x: Option<Entry>, kind: Kind, p: nat) {
    x.Some? && x.value.kind == kind && x.value.pipe == p
  }

  function Count(hs: Handles, kind: Kind, p: nat): nat {
    if hs == [] then 0
    else Count(hs[..|hs| - 1], kind, p) + if IsEnd(hs[|hs| - 1], kind, p) then 1 else 0
  }

  function One(x: Option<Entry>, kind: Kind, p: nat): nat {
    if IsEnd(x, kind, p) then 1 else 0
  }

  lemma {:induction false} CountUpdate(hs: Handles, i: nat, x: Option<Entry>, kind: Kind, p: nat)
    requires i < |hs|
    ensures Count(hs[i := x], kind, p) + One(hs[i], kind, p) == Count(hs, kind, p) + One(x, kind, p)
    decreases |hs|
  {
    var n := |hs| - 1;
    if i < n {
      assert hs[i := x][..n] == hs[..n][i := x];
      CountUpdate(hs[..n], i, x, kind, p);
    } else {
      assert hs[i := x][..n] == hs[..n];
    }
  }

  /** Filling an empty or new slot adds one end, clearing a slot takes one away. */
  lemma CountPut(hs: Handles, i: nat, x: Option<Entry>, kind: Kind, p: nat)
    requires i <= |hs|
    ensures Count(Put(hs, i, x), kind, p) + (if i < |hs| then One(hs[i], kind, p) else 0)
              == Count(hs, kind, p) + One(x, kind, p)
  {
    if i < |hs| {
      CountUpdate(hs, i, x, kind, p);
    } else {
      assert (hs + [x])[..|hs|] == hs;
    }
  }

  lemma {:induction false} CountPositive(hs: Handles, i: nat, kind: Kind, p: nat)
    requires i < |hs| && IsEnd(hs[i], kind, p)
    ensures Count(hs, kind, p) >= 1
    decreases |hs|
  {
    if i < |hs| - 1 { CountPositive(hs[..|hs| - 1], i, kind, p); }
  }

  // ---------------------------------------------------------------
  // The invariant
  // ---------------------------------------------------------------

  /** All bytes written to a pipe since it was created, and all bytes read from it. */
  datatype Stream = Stream(written: seq<nat>, delivered: seq<nat>)

  /**
   What has happened so far: the serial number of each live slot's handle, the rights each
   serial's chain of duplicates started with, the serial of each closed handle, and the streams.
   */
  datatype Past = Past(serials: map<nat, nat>, origin: map<nat, set<nat>>, dead: map<Handle, nat>,
                       streams: map<nat, Stream>)

  ghost predicate SlotOk(e: Entry, i: nat, counter: nat, past: Past) {
    && i in past.serials && past.serials[i] < counter && e.token == Token(past.serials[i])
    && past.serials[i] in past.origin && e.rights <= past.origin[past.serials[i]]
  }

  ghost predicate TokensOk(hs: Handles, counter: nat, past: Past) {
    && counter <= WORD && (forall n | n in past.origin :: n < counter)
    && (forall i: nat | Live(hs, i) :: SlotOk(hs[i].value, i, counter, past))
    && (forall i: nat, j: nat | i != j && Live(hs, i) && Live(hs, j) && i in past.serials && j in past.serials ::
          past.serials[i] != past.serials[j])
  }

  ghost predicate DeadOk(hs: Handles, counter: nat, past: Past) {
    && (forall h | h in past.dead :: h.token == Token(past.dead[h]) && past.dead[h] < counter)
    && (forall h, i: nat | h in past.dead && Live(hs, i) && i in past.serials :: past.serials[i] != past.dead[h])
  }

  /** Reference counts are the numbers of live pipe ends, and a pipe lives as long as one of its ends. */
  predicate Balanced(hs: Handles, ps: Pipes, p: nat) {
    var w, r := Count(hs, PipeWrite, p), Count(hs, PipeRead, p);
    match PipeAt(ps, p)
    case None => w == 0 && r == 0
    case Some(pipe) => pipe.writers == w && (pipe.readerClosed <==> r == 0) && r <= 1 && (w > 0 || r > 0)
  }

  ghost predicate PipesOk(hs: Handles, ps: Pipes) {
    forall p: nat :: Balanced(hs, ps, p)
  }

  /** What is in the buffer is what was written and not yet delivered. */
  ghost predicate StreamsOk(ps: Pipes, past: Past) {
    forall p: nat | PipeAt(ps, p).Some? ::
      p in past.streams && past.streams[p].written == past.streams[p].delivered + PipeAt(ps, p).value.buf
  }

  /** What holds in every state: capabilities and streams are sound, whatever the reference counts say. */
  ghost predicate Sound(hs: Handles, ps: Pipes, counter: nat, past: Past) {
    TokensOk(hs, counter, past) && DeadOk(hs, counter, past) && StreamsOk(ps, past)
  }

  ghost predicate Ok(hs: Handles, ps: Pipes, counter: nat, past: Past) {
    Sound(hs, ps, counter, past) && PipesOk(hs, ps)
  }

  /** Closed handles stay closed and chains of rights keep what they began with. */
  ghost predicate Continues(past: Past, past': Past) {
    && (forall n | n in past.origin :: n in past'.origin && past'.origin[n] == past.origin[n])
    && (forall h | h in past.dead :: h in past'.dead && past'.dead[h] == past.dead[h])
  }

  /** A closed handle names nothing, whatever now lives in its slot. */
  lemma DeadRejected(hs: Handles, counter: nat, past: Past, h: Handle)
    requires TokensOk(hs, counter, past) && DeadOk(hs, counter, past) && h in past.dead
    ensures Find(hs, h).None?
  {
    if Live(hs, h.id) && hs[h.id].value.token == h.token {
      assert SlotOk(hs[h.id].value, h.id, counter, past);
      TokenInjective(past.serials[h.id], past.dead[h]);
    }
  }

  /** Reads so far are a prefix of writes so far. */
  lemma ReadsArePrefix(ps: Pipes, past: Past, p: nat)
    requires StreamsOk(ps, past) && PipeAt(ps, p).Some?
    ensures past.streams[p].delivered <= past.streams[p].written
  {
  }

  // ---------------------------------------------------------------
  // Steps on tokens
  // ---------------------------------------------------------------

  /** A new handle in slot i with the next serial and the given origin. */
  function Issued(past: Past, i: nat, n: nat, origin: set<nat>): Past {
    past.(serials := past.serials[i := n], origin := past.origin[n := origin])
  }

  lemma IssueOk(hs: Handles, counter: nat, past: Past, i: nat, e: Entry, origin: set<nat>)
    requires TokensOk(hs, counter, past) && DeadOk(hs, counter, past) && counter < WORD
    requires i <= |hs| && !Live(hs, i) && e.token == Token(counter) && e.rights <= origin
    ensures TokensOk(Put(hs, i, Some(e)), counter + 1, Issued(past, i, counter, origin))
    ensures DeadOk(Put(hs, i, Some(e)), counter + 1, Issued(past, i, counter, origin))
  {
    var hs', past' := Put(hs, i, Some(e)), Issued(past, i, counter, origin);
    forall j: nat | Live(hs', j) ensures SlotOk(hs'[j].value, j, counter + 1, past') {
      if j != i { assert Live(hs, j) && SlotOk(hs[j].value, j, counter, past); }
    }
    forall j: nat, k: nat | j != k && Live(hs', j) && Live(hs', k) && j in past'.serials && k in past'.serials
      ensures past'.serials[j] != past'.serials[k]
    {
      if j != i { assert Live(hs, j) && SlotOk(hs[j].value, j, counter, past); }
      if k != i { assert Live(hs, k) && SlotOk(hs[k].value, k, counter, past); }
    }
  }

  /** Closing the handle in slot i. */
  function Buried(past: Past, h: Handle, n: nat): Past {
    past.(dead := past.dead[h := n])
  }

  lemma BuryOk(hs: Handles, counter: nat, past: Past, h: Handle)
    requires TokensOk(hs, counter, past) && DeadOk(hs, counter, past) && Find(hs, h).Some?
    ensures h.id in past.serials
    ensures TokensOk(Put(hs, h.id, None), counter, Buried(past, h, past.serials[h.id]))
    ensures DeadOk(Put(hs, h.id, None), counter, Buried(past, h, past.serials[h.id]))
  {
    assert SlotOk(hs[h.id].value, h.id, counter, past);
    var hs', past' := Put(hs, h.id, None), Buried(past, h, past.serials[h.id]);
    forall j: nat | Live(hs', j) ensures Live(hs, j) && hs'[j] == hs[j] && j != h.id {}
    forall j: nat | Live(hs', j) ensures SlotOk(hs'[j].value, j, counter, past') {
      assert SlotOk(hs[j].value, j, counter, past);
    }
  }

  // ---------------------------------------------------------------
  // Steps on pipes
  // ---------------------------------------------------------------

  predicate IsPipeEnd(e: Entry) {
    e.kind == PipeRead || e.kind == PipeWrite
  }

  /** Handles that are no pipe ends do not touch the balance. */
  lemma PlainPutOk(hs: Handles, ps: Pipes, i: nat, x: Option<Entry>)
    requires PipesOk(hs, ps) && i <= |hs| && (x.Some? ==> !IsPipeEnd(x.value))
    requires i < |hs| && hs[i].Some? ==> !IsPipeEnd(hs[i].value)
    ensures PipesOk(Put(hs, i, x), ps)
  {
    forall p: nat ensures Balanced(Put(hs, i, x), ps, p) {
      assert Balanced(hs, ps, p);
      CountPut(hs, i, x, PipeWrite, p);
      CountPut(hs, i, x, PipeRead, p);
    }
  }

  /** A new pipe with one reader and one writer. */
  lemma OpenOk(hs: Handles, ps: Pipes, p: nat, i: nat, r: Entry, j: nat, w: Entry)
    requires PipesOk(hs, ps) && p <= |ps| && PipeAt(ps, p).None?
    requires i <= |hs| && !Live(hs, i) && r.kind == PipeRead && r.pipe == p
    requires j <= |Put(hs, i, Some(r))| && !Live(Put(hs, i, Some(r)), j) && w.kind == PipeWrite && w.pipe == p
    ensures PipesOk(Put(Put(hs, i, Some(r)), j, Some(w)), Put(ps, p, Some(Pipe([], 1, false))))
  {
    var hs1 := Put(hs, i, Some(r));
    var hs2, ps' := Put(hs1, j, Some(w)), Put(ps, p, Some(Pipe([], 1, false)));
    forall q: nat ensures Balanced(hs2, ps', q) {
      assert Balanced(hs, ps, q);
      CountPut(hs, i, Some(r), PipeWrite, q);
      CountPut(hs, i, Some(r), PipeRead, q);
      CountPut(hs1, j, Some(w), PipeWrite, q);
      CountPut(hs1, j, Some(w), PipeRead, q);
    }
  }

  /** One more write end, counted. */
  lemma AddWriterOk(hs: Handles, ps: Pipes, i: nat, w: Entry)
    requires PipesOk(hs, ps) && i <= |hs| && !Live(hs, i) && w.kind == PipeWrite && PipeAt(ps, w.pipe).Some?
    ensures var pipe := ps[w.pipe].value;
            PipesOk(Put(hs, i, Some(w)), ps[w.pipe := Some(pipe.(writers := pipe.writers + 1))])
  {
    var pipe := ps[w.pipe].value;
    var hs', ps' := Put(hs, i, Some(w)), ps[w.pipe := Some(pipe.(writers := pipe.writers + 1))];
    forall q: nat ensures Balanced(hs', ps', q) {
      assert Balanced(hs, ps, q);
      CountPut(hs, i, Some(w), PipeWrite, q);
      CountPut(hs, i, Some(w), PipeRead, q);
    }
  }

  /** A copy of a live pipe end that the pipe does not count upsets the balance. */
  lemma UncountedBreaks(hs: Handles, ps: Pipes, h: nat, i: nat, e: Entry)
    requires PipesOk(hs, ps) && Live(hs, h) && i <= |hs| && !Live(hs, i) && IsPipeEnd(e)
    requires e.kind == hs[h].value.kind && e.pipe == hs[h].value.pipe
    ensures !PipesOk(Put(hs, i, Some(e)), ps)
  {
    CountPositive(hs, h, e.kind, e.pipe);
    CountPut(hs, i, Some(e), e.kind, e.pipe);
    assert Balanced(hs, ps, e.pipe);
    assert !Balanced(Put(hs, i, Some(e)), ps, e.pipe);
  }

  /** The pipe after one write end is closed: gone with its last end. */
  function WriterClosed(pipe: Pipe): Option<Pipe> {
    var n := if pipe.writers > 0 then pipe.writers - 1 else 0;
    if n == 0 && pipe.readerClosed then None else Some(pipe.(writers := n))
  }

  function ReaderClosed(pipe: Pipe): Option<Pipe> {
    if pipe.writers == 0 then None else Some(pipe.(readerClosed := true))
  }

  /** The pipe table after entry e is closed: nothing happens for files and for a pipe that is gone. */
  function EndClosed(ps: Pipes, e: Entry): Pipes {
    if !IsPipeEnd(e) || PipeAt(ps, e.pipe).None? then ps
    else ps[e.pipe := if e.kind == PipeWrite then WriterClosed(ps[e.pipe].value) else ReaderClosed(ps[e.pipe].value)]
  }

  lemma CloseEndOk(hs: Handles, ps: Pipes, i: nat)
    requires PipesOk(hs, ps) && Live(hs, i)
    ensures PipesOk(Put(hs, i, None), EndClosed(ps, hs[i].value))
  {
    var e := hs[i].value;
    if IsPipeEnd(e) {
      CountPositive(hs, i, e.kind, e.pipe);
      assert Balanced(hs, ps, e.pipe);
    }
    var hs', ps' := Put(hs, i, None), EndClosed(ps, e);
    forall q: nat ensures Balanced(hs', ps', q) {
      assert Balanced(hs, ps, q);
      CountPut(hs, i, None, PipeWrite, q);
      CountPut(hs, i, None, PipeRead, q);
    }
  }

  /** Changing a buffer does not touch the balance. */
  lemma BufferOk(hs: Handles, ps: Pipes, p: nat, buf: seq<nat>)
    requires PipesOk(hs, ps) && PipeAt(ps, p).Some?
    ensures PipesOk(hs, ps[p := Some(ps[p].value.(buf := buf))])
  {
    var ps' := ps[p := Some(ps[p].value.(buf := buf))];
    forall q: nat ensures Balanced(hs, ps', q) {
      assert Balanced(hs, ps, q);
    }
  }

  /** A live pipe end has a pipe. */
  lemma EndHasPipe(hs: Handles, ps: Pipes, i: nat)
    requires PipesOk(hs, ps) && Live(hs, i) && IsPipeEnd(hs[i].value)
    ensures PipeAt(ps, hs[i].value.pipe).Some?
  {
    CountPositive(hs, i, hs[i].value.kind, hs[i].value.pipe);
    assert Balanced(hs, ps, hs[i].value.pipe);
  }

  /** Two handles issued one after the other. */
  lemma IssueTwoOk(hs: Handles, n: nat, past: Past, i: nat, a: Entry, j: nat, b: Entry)
    requires TokensOk(hs, n, past) && DeadOk(hs, n, past) && n + 1 < WORD
    requires i <= |hs| && !Live(hs, i) && a.token == Token(n)
    requires j <= |Put(hs, i, Some(a))| && !Live(Put(hs, i, Some(a)), j) && b.token == Token(n + 1)
    ensures var past2 := Issued(Issued(past, i, n, a.rights), j, n + 1, b.rights);
            && TokensOk(Put(Put(hs, i, Some(a)), j, Some(b)), n + 2, past2)
            && DeadOk(Put(Put(hs, i, Some(a)), j, Some(b)), n + 2, past2)
  {
    IssueOk(hs, n, past, i, a, a.rights);
    IssueOk(Put(hs, i, Some(a)), n + 1, Issued(past, i, n, a.rights), j, b, b.rights);
  }

  /** Streams only matter to pipes. */
  lemma StreamsOnly(hs: Handles, n: nat, past: Past, streams: map<nat, Stream>)
    requires TokensOk(hs, n, past) && DeadOk(hs, n, past)
    ensures TokensOk(hs, n, past.(streams := streams)) && DeadOk(hs, n, past.(streams := streams))
  {
    forall i: nat | Live(hs, i) ensures SlotOk(hs[i].value, i, n, past.(streams := streams)) {
      assert SlotOk(hs[i].value, i, n, past);
    }
  }

  lemma StreamOpened(ps: Pipes, past: Past, p: nat)
    requires StreamsOk(ps, past) && p <= |ps| && PipeAt(ps, p).None?
    ensures StreamsOk(Put(ps, p, Some(Pipe([], 1, false))), past.(streams := past.streams[p := Stream([], [])]))
  {
    var ps' := Put(ps, p, Some(Pipe([], 1, false)));
    forall q: nat | q != p && PipeAt(ps', q).Some? ensures PipeAt(ps, q) == PipeAt(ps', q) {}
  }

  /** The pipe of an end changes, keeping its buffer, or goes away. */
  lemma StreamKept(ps: Pipes, past: Past, p: nat, x: Option<Pipe>)
    requires StreamsOk(ps, past) && PipeAt(ps, p).Some? && (x.Some? ==> x.value.buf == ps[p].value.buf)
    ensures StreamsOk(ps[p := x], past)
  {
    forall q: nat | q != p && PipeAt(ps[p := x], q).Some? ensures PipeAt(ps, q) == PipeAt(ps[p := x], q) {}
  }
}

/** Runs over the handle table: what every sequence of operations keeps, and what uncounted copies lead to. */
module HandleRuns {
  import opened Options
  import opened HandleModel
  import opened Handles

  datatype Op =
    | Create(kind: Kind, rights: set<nat>)
    | OpenPipe
    | Duplicate(h: Handle)
    | Restrict(h: Handle, keep: set<nat>)
    | Read(h: Handle, want: nat)
    | Write(h: Handle, bytes: seq<nat>)
    | CloseHandle(h: Handle)

  /** The copy of a pipe end that its pipe would not count. */
  predicate Uncounted(hs: HandleModel.Handles, op: Op) {
    match op
    case Duplicate(h) => Find(hs, h).Some? && Find(hs, h).value.kind == PipeRead
    case Restrict(h, keep) => Find(hs, h).Some? && keep <= Find(hs, h).value.rights && IsPipeEnd(Find(hs, h).value)
    case _ => false
  }

  lemma ContinuesTrans(a: Past, b: Past, c: Past)
    requires Continues(a, b) && Continues(b, c)
    ensures Continues(a, c)
  {
  }

  // ---------------------------------------------------------------
  // What happened to the pipes
  // ---------------------------------------------------------------

  /** A new pipe, or bytes that went out of or into one through the handle with this serial. */
  datatype Event = Opened(pipe: nat) | Got(serial: nat, pipe: nat, bytes: seq<nat>)
                 | Sent(serial: nat, pipe: nat, bytes: seq<nat>)

  /** The streams after one event. */
  ghost function After(streams: map<nat, Stream>, e: Event): map<nat, Stream> {
    match e
    case Opened(p) => streams[p := Stream([], [])]
    case Got(_, p, bytes) =>
      if p in streams then streams[p := streams[p].(delivered := streams[p].delivered + bytes)] else streams
    case Sent(_, p, bytes) =>
      if p in streams then streams[p := streams[p].(written := streams[p].written + bytes)] else streams
  }

  ghost function Replay(streams: map<nat, Stream>, log: seq<Event>): map<nat, Stream> {
    if log == [] then streams else After(Replay(streams, log[..|log| - 1]), log[|log| - 1])
  }

  /** Bytes go out only along chains of copies that began with bit 0 (read), and in only with bit 1 (write). */
  ghost predicate Permitted(past: Past, e: Event) {
    match e
    case Opened(_) => true
    case Got(n, _, _) => n in past.origin && 0 in past.origin[n]
    case Sent(n, _, _) => n in past.origin && 1 in past.origin[n]
  }

  ghost predicate AllPermitted(past: Past, log: seq<Event>) {
    forall i | 0 <= i < |log| :: Permitted(past, log[i])
  }

  /** The step is explained by at most one permitted event. */
  ghost predicate Explains(past: Past, past': Past, e: Option<Event>) {
    match e
    case None => past'.streams == past.streams
    case Some(e) => past'.streams == After(past.streams, e) && Permitted(past', e)
  }

  lemma LogGrows(start: map<nat, Stream>, past: Past, past': Past, log: seq<Event>, e: Option<Event>)
    requires past.streams == Replay(start, log) && AllPermitted(past, log)
    requires Explains(past, past', e) && Continues(past, past')
    ensures var log' := log + if e.Some? then [e.value] else [];
            past'.streams == Replay(start, log') && AllPermitted(past', log')
  {
    forall i | 0 <= i < |log| ensures Permitted(past', log[i]) {
      assert Permitted(past, log[i]);
    }
    match e
    case None => assert log + [] == log;
    case Some(x) => assert (log + [x])[..|log|] == log;
  }

  // ---------------------------------------------------------------
  // Runs
  // ---------------------------------------------------------------

  /** A read, and the event it is. */
  method DoRead(t: Tables, h: Handle, want: nat) returns (ghost e: Option<Event>)
    requires t.Guarded()
    modifies t
    ensures t.Guarded() && Continues(old(t.past), t.past) && t.counter == old(t.counter)
    ensures old(t.Valid()) ==> t.Valid()
    ensures Explains(old(t.past), t.past, e)
  {
    ghost var past, p := t.past, EndOf(t.handles, h);
    var r := t.ReadPipe(h, want);
    if r.Err? { return None; }
    assert SlotOk(t.handles[h.id].value, h.id, t.counter, past);
    e := Some(Got(past.serials[h.id], p, r.value));
  }

  method DoWrite(t: Tables, h: Handle, bytes: seq<nat>) returns (ghost e: Option<Event>)
    requires t.Guarded()
    modifies t
    ensures t.Guarded() && Continues(old(t.past), t.past) && t.counter == old(t.counter)
    ensures old(t.Valid()) ==> t.Valid()
    ensures Explains(old(t.past), t.past, e)
  {
    ghost var past, p := t.past, EndOf(t.handles, h);
    var r := t.WritePipe(h, bytes);
    if r.Err? { return None; }
    assert SlotOk(t.handles[h.id].value, h.id, t.counter, past);
    e := Some(Sent(past.serials[h.id], p, bytes));
  }

  /** One operation, whatever the table is like. Handles other than files are made by OpenPipe. */
  method Do(t: Tables, op: Op) returns (ghost e: Option<Event>)
    requires t.Guarded() && t.counter + 1 < WORD
    modifies t
    ensures t.Guarded() && Continues(old(t.past), t.past) && t.counter <= old(t.counter) + 2
    ensures old(t.Valid()) ==> (t.Valid() <==> !Uncounted(old(t.handles), op))
    ensures op.CloseHandle? && Find(old(t.handles), op.h).Some? ==> op.h in t.past.dead
    ensures Explains(old(t.past), t.past, e)
  {
    e := None;
    match op {
      case Create(kind, rights) =>
        if kind == File || kind == Directory {
          var h := t.CreateHandle(kind, rights);
        }
      case OpenPipe =>
        ghost var p;
        var r, w;
        r, w, p := t.CreatePipeHandles();
        e := Some(Opened(p));
      case Duplicate(h) =>
        var d := t.DuplicateHandle(h);
      case Restrict(h, keep) =>
        var d := t.RestrictRights(h, keep);
      case Read(h, want) =>
        e := DoRead(t, h, want);
      case Write(h, bytes) =>
        e := DoWrite(t, h, bytes);
      case CloseHandle(h) =>
        if h in t.past.dead { DeadRejected(t.handles, t.counter, t.past, h); }
        var done := t.Close(h);
    }
  }

  /**
   Every run: handles closed before it stay rejected, handles closed in it are rejected at its end, and no live
   handle has more rights than its chain of copies began with, however long the chain and whatever became of pipes.
   All that was read and written in the run is the log, and each of its entries was permitted.
   */
  method Run(t: Tables, ops: seq<Op>) returns (ghost log: seq<Event>)
    requires t.Guarded() && t.counter + 2 * |ops| < WORD
    modifies t
    ensures t.Guarded() && Continues(old(t.past), t.past)
    ensures forall h | h in t.past.dead :: Find(t.handles, h).None?
    ensures forall i: nat | Live(t.handles, i) ::
              i in t.past.serials && t.past.serials[i] in t.past.origin
              && t.handles[i].value.rights <= t.past.origin[t.past.serials[i]]
    ensures t.past.streams == Replay(old(t.past).streams, log) && AllPermitted(t.past, log)
  {
    log := [];
    for i := 0 to |ops|
      invariant t.Guarded() && Continues(old(t.past), t.past) && t.counter <= old(t.counter) + 2 * i
      invariant t.past.streams == Replay(old(t.past).streams, log) && AllPermitted(t.past, log)
    {
      ghost var past := t.past;
      ghost var e := Do(t, ops[i]);
      ContinuesTrans(old(t.past), past, t.past);
      LogGrows(old(t.past).streams, past, t.past, log, e);
      log := log + if e.Some? then [e.value] else [];
    }
    forall h | h in t.past.dead ensures Find(t.handles, h).None? {
      DeadRejected(t.handles, t.counter, t.past, h);
    }
    forall i: nat | Live(t.handles, i) ensures SlotOk(t.handles[i].value, i, t.counter, t.past) {}
  }

  /** A closed handle is rejected after any further run. */
  method CloseThenRun(t: Tables, h: Handle, ops: seq<Op>)
    requires t.Guarded() && Find(t.handles, h).Some? && t.counter + 2 * |ops| < WORD
    modifies t
    ensures t.Guarded() && Find(t.handles, h).None?
  {
    var r := t.Close(h);
    ghost var log := Run(t, ops);
  }

  // ---------------------------------------------------------------
  // A copied read end
  // ---------------------------------------------------------------

  const END := Pipe([], 1, false)

  /** A pipe and a copy of its read end. */
  method OpenAndCopy() returns (t: Tables, r: Handle, w: Handle, d: Handle)
    ensures fresh(t) && t.Guarded() && t.counter == 4 && t.pipes == [Some(END)]
    ensures r.id == 0 && w.id == 1 && d.id == 2
    ensures t.handles == [Some(Entry(r.token, {READ}, PipeRead, 0)), Some(Entry(w.token, {WRITE}, PipeWrite, 0)),
                          Some(Entry(d.token, {READ}, PipeRead, 0))]
  {
    t := new Tables();
    ghost var p;
    r, w, p := t.CreatePipeHandles();
    var copied := t.DuplicateHandle(r);
    d := copied.value;
  }

  /** Both counted ends are closed: the pipe is gone while the copy lives. */
  method Orphan() returns (t: Tables, d: Handle)
    ensures fresh(t) && t.Guarded() && t.counter == 4 && t.pipes == [None] && d.id == 2
    ensures t.handles == [None, None, Some(Entry(d.token, {READ}, PipeRead, 0))]
  {
    var r, w;
    t, r, w, d := OpenAndCopy();
    var closed := t.Close(r);
    assert t.pipes == [Some(END.(readerClosed := true))];
    closed := t.Close(w);
  }

  /**
   The next pipe takes the place of the one that is gone, and the copy reads what is written to that one, though
   it was made for another pipe.
   */
  method StaleReader(bytes: seq<nat>) returns (t: Tables, d: Handle, got: Result<seq<nat>>)
    requires bytes != []
    ensures fresh(t) && t.Guarded() && d.id == 2 && got == Ok(bytes)
  {
    t, d := Orphan();
    var w := Reopen(t, d);
    var sent := t.WritePipe(w, bytes);
    assert [] + bytes == bytes;
    assert t.pipes == [Some(END.(buf := bytes))];
    assert bytes[..|bytes|] == bytes;
    got := t.ReadPipe(d, |bytes|);
  }

  method Reopen(t: Tables, ghost d: Handle) returns (w: Handle)
    requires t.Guarded() && t.counter == 4 && t.pipes == [None] && d.id == 2
    requires t.handles == [None, None, Some(Entry(d.token, {READ}, PipeRead, 0))]
    modifies t
    ensures t.Guarded() && t.pipes == [Some(END)]
    ensures Find(t.handles, d) == Some(Entry(d.token, {READ}, PipeRead, 0))
    ensures Find(t.handles, w) == Some(Entry(w.token, {WRITE}, PipeWrite, 0))
  {
    ghost var p;
    var r;
    r, w, p := t.CreatePipeHandles();
    FirstEmptyUnique(old(t.pipes), p, 0);
    FirstEmptyUnique(old(t.handles), r.id, 0);
    FirstEmptyUnique(Put(old(t.handles), 0, Some(Entry(r.token, {READ}, PipeRead, 0))), w.id, 1);
  }
}

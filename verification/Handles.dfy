/** The global handle and pipe tables and their operations. */
module Handles {
  import opened Options
  import opened HandleModel

  /** FileAccess stands for reading or writing the bytes of a file, which is not modelled. */
  datatype Error = InvalidHandle | PermissionDenied | NotSupported | WouldBlock | BrokenPipe | Other | FileAccess

  datatype Result<T> = Ok(value: T) | Err(error: Error)

  class Tables {
    var handles: HandleModel.Handles
    var pipes: Pipes
    var counter: nat
    ghost var past: Past

    /** Every live slot has its serial's token and no more rights than its chain began with; streams are in order. */
    ghost predicate Guarded()
      reads this
    {
      Sound(handles, pipes, counter, past)
    }

    /** In addition each pipe counts exactly its live ends. */
    ghost predicate Valid()
      reads this
    {
      HandleModel.Ok(handles, pipes, counter, past)
    }

    constructor ()
      ensures Valid() && handles == [] && pipes == [] && counter == 1 && past == Past(map[], map[], map[], map[])
    {
      handles, pipes, counter := [], [], 1;
      past := Past(map[], map[], map[], map[]);
    }

    /** The next token; the counter does not run past 2^64. */
    method NextToken() returns (token: nat)
      requires counter < WORD
      modifies `counter
      ensures token == Token(old(counter)) && counter == old(counter) + 1
    {
      token := counter * MIX % WORD;
      counter := counter + 1;
    }

    /** Stores an entry in the first empty slot. */
    method InsertEntry(e: Entry) returns (h: Handle)
      modifies `handles
      ensures FirstEmpty(old(handles), h.id) && h.token == e.token && handles == Put(old(handles), h.id, Some(e))
    {
      for i := 0 to |handles|
        invariant handles == old(handles) && forall j | 0 <= j < i :: handles[j].Some?
      {
        if handles[i].None? {
          handles := handles[i := Some(e)];
          return Handle(i, e.token);
        }
      }
      h := Handle(|handles|, e.token);
      handles := handles + [Some(e)];
    }

    /** A new file or directory handle: the start of a chain of rights. */
    method CreateHandle(kind: Kind, rights: set<nat>) returns (h: Handle)
      requires Guarded() && counter < WORD && (kind == File || kind == Directory)
      modifies this
      ensures Guarded() && (old(Valid()) ==> Valid())
      ensures counter == old(counter) + 1 && pipes == old(pipes)
      ensures Inserted(old(handles), handles, h, Entry(h.token, rights, kind, 0))
      ensures past == Issued(old(past), h.id, old(counter), rights)
    {
      ghost var hs, n := handles, counter;
      var token := NextToken();
      h := InsertEntry(Entry(token, rights, kind, 0));
      CreateOk(hs, pipes, n, past, h, Entry(token, rights, kind, 0), handles);
      past := Issued(past, h.id, n, rights);
    }

    /** Reuses the first empty slot of the pipe table. */
    method CreatePipe() returns (p: nat)
      modifies `pipes
      ensures FirstEmpty(old(pipes), p) && pipes == Put(old(pipes), p, Some(Pipe([], 1, false)))
    {
      for i := 0 to |pipes|
        invariant pipes == old(pipes) && forall j | 0 <= j < i :: pipes[j].Some?
      {
        if pipes[i].None? {
          pipes := pipes[i := Some(Pipe([], 1, false))];
          return i;
        }
      }
      p := |pipes|;
      pipes := pipes + [Some(Pipe([], 1, false))];
    }

    /** A new pipe and its two ends. */
    method CreatePipeHandles() returns (r: Handle, w: Handle, ghost p: nat)
      requires Guarded() && counter + 1 < WORD
      modifies this
      ensures Guarded() && (old(Valid()) ==> Valid())
      ensures counter == old(counter) + 2
      ensures FirstEmpty(old(pipes), p) && pipes == Put(old(pipes), p, Some(Pipe([], 1, false)))
      ensures PipeOpened(old(handles), handles, r, w, p) && past == OpenedPast(old(past), r.id, w.id, old(counter), p)
    {
      ghost var hs, ps, n, before := handles, pipes, counter, past;
      var pipe := CreatePipe();
      p := pipe;
      var readToken := NextToken();
      r := InsertEntry(Entry(readToken, {READ}, PipeRead, pipe));
      var writeToken := NextToken();
      w := InsertEntry(Entry(writeToken, {WRITE}, PipeWrite, pipe));
      past := OpenedPast(before, r.id, w.id, n, p);
      OpenedOk(hs, ps, n, before, r, w, p);
    }

    /** A second handle with the same rights. A copied write end is counted; a copied read end is not. */
    method DuplicateHandle(h: Handle) returns (r: Result<Handle>)
      requires Guarded() && counter < WORD
      modifies this
      ensures Guarded()
      ensures r.Ok? <==> Find(old(handles), h).Some?
      ensures old(Valid()) ==> (Valid() <==> r.Err? || Find(old(handles), h).value.kind != PipeRead)
      ensures r.Err? ==> r.error == InvalidHandle && handles == old(handles) && pipes == old(pipes)
      ensures r.Err? ==> past == old(past) && counter == old(counter)
      ensures r.Ok? ==> var e := Find(old(handles), h).value.(token := r.value.token);
                        Inserted(old(handles), handles, r.value, e) && pipes == Counted(old(pipes), e)
      ensures r.Ok? ==> Derived(old(past), past, h, r.value, old(counter)) && counter == old(counter) + 1
    {
      var found := Find(handles, h);
      if found.None? { return Err(InvalidHandle); }
      var d := CopyEntry(h, found.value);
      r := Ok(d);
    }

    method CopyEntry(ghost h: Handle, entry: Entry) returns (d: Handle)
      requires Guarded() && counter < WORD && Find(handles, h) == Some(entry)
      modifies this
      ensures Guarded() && (old(Valid()) ==> (Valid() <==> entry.kind != PipeRead))
      ensures Inserted(old(handles), handles, d, entry.(token := d.token)) && counter == old(counter) + 1
      ensures pipes == Counted(old(pipes), entry) && Derived(old(past), past, h, d, old(counter))
    {
      ghost var hs, ps, n := handles, pipes, counter;
      assert SlotOk(hs[h.id].value, h.id, n, past);
      var token := NextToken();
      d := StoreCopy(entry.(token := token));
      ghost var past' := Issued(past, d.id, n, past.origin[past.serials[h.id]]);
      DuplicateOk(hs, ps, n, past, h, d, entry.(token := token), handles, pipes, past');
      past := past';
    }

    /** Counts a copied write end and stores the copy. */
    method StoreCopy(e: Entry) returns (d: Handle)
      modifies `handles, `pipes
      ensures pipes == Counted(old(pipes), e)
      ensures FirstEmpty(old(handles), d.id) && d.token == e.token && handles == Put(old(handles), d.id, Some(e))
    {
      if e.kind == PipeWrite { AddWriter(e.pipe); }
      d := InsertEntry(e);
    }

    /** One more writer, if the pipe is there. */
    method AddWriter(p: nat)
      modifies `pipes
      ensures pipes == Counted(old(pipes), Entry(0, {}, PipeWrite, p))
    {
      if p < |pipes| && pipes[p].Some? {
        pipes := pipes[p := Some(pipes[p].value.(writers := pipes[p].value.writers + 1))];
      }
    }

    /** A new handle with fewer rights; more rights are refused. A pipe does not count the copy of its end. */
    method RestrictRights(h: Handle, rights: set<nat>) returns (r: Result<Handle>)
      requires Guarded() && counter < WORD
      modifies this
      ensures Guarded() && pipes == old(pipes)
      ensures r.Ok? <==> Find(old(handles), h).Some? && rights <= Find(old(handles), h).value.rights
      ensures old(Valid()) ==> (Valid() <==> r.Err? || !IsPipeEnd(Find(old(handles), h).value))
      ensures r.Err? ==> handles == old(handles) && past == old(past) && counter == old(counter)
      ensures r.Err? ==> r.error == if Find(old(handles), h).None? then InvalidHandle else PermissionDenied
      ensures r.Ok? ==> var e := Find(old(handles), h).value.(token := r.value.token, rights := rights);
                        Inserted(old(handles), handles, r.value, e)
      ensures r.Ok? ==> Derived(old(past), past, h, r.value, old(counter)) && counter == old(counter) + 1
    {
      var found := Find(handles, h);
      if found.None? { return Err(InvalidHandle); }
      if rights - found.value.rights != {} { return Err(PermissionDenied); }
      assert forall x | x in rights :: x !in rights - found.value.rights;
      var d := StoreRestricted(h, found.value, rights);
      r := Ok(d);
    }

    method StoreRestricted(ghost h: Handle, entry: Entry, rights: set<nat>) returns (d: Handle)
      requires Guarded() && counter < WORD && Find(handles, h) == Some(entry) && rights <= entry.rights
      modifies `handles, `counter, `past
      ensures Guarded() && (old(Valid()) ==> (Valid() <==> !IsPipeEnd(entry))) && counter == old(counter) + 1
      ensures Inserted(old(handles), handles, d, entry.(token := d.token, rights := rights))
      ensures Derived(old(past), past, h, d, old(counter))
    {
      assert SlotOk(handles[h.id].value, h.id, counter, past);
      ghost var hs, origin := handles, past.origin[past.serials[h.id]];
      var token := NextToken();
      var e := entry.(token := token, rights := entry.rights * rights);
      assert e.rights == rights;
      d := InsertEntry(e);
      IssueOk(hs, old(counter), past, d.id, e, origin);
      if old(Valid()) { RestrictBalance(hs, pipes, h, d, e); }
      past := Issued(past, d.id, old(counter), origin);
    }

    /** Reads up to want bytes from a pipe's read end; the right is bit 0. A pipe that is gone is an error. */
    method ReadPipe(h: Handle, want: nat) returns (r: Result<seq<nat>>)
      requires Guarded()
      modifies `pipes, `past
      ensures Guarded() && (old(Valid()) ==> Valid())
      ensures r == ReadOutcome(handles, old(pipes), h, want)
      ensures Checked(r, handles, h, 0, PipeRead)
      ensures r.Ok? ==> TakenOff(old(pipes), pipes, EndOf(handles, h), r.value, want)
      ensures r.Err? ==> pipes == old(pipes) && past == old(past)
      ensures r.Ok? ==> PipeAt(old(pipes), EndOf(handles, h)).Some? && |r.value| <= want
                        && pipes == Drained(old(pipes), EndOf(handles, h), |r.value|)
      ensures r.Ok? ==> Delivered(old(past), past, EndOf(handles, h), r.value)
      ensures r.Ok? ==> var s := past.streams[EndOf(handles, h)]; s.delivered <= s.written
      ensures r.Ok? && want > 0 && r.value == [] ==> AllDelivered(old(past), EndOf(handles, h))
      ensures old(Valid()) && r.Ok? && want > 0 && r.value == [] ==> Count(handles, PipeWrite, EndOf(handles, h)) == 0
      ensures old(Valid()) && Reads(handles, h) ==>
                (r == Err(WouldBlock) <==> AllDelivered(old(past), EndOf(handles, h))
                                           && Count(handles, PipeWrite, EndOf(handles, h)) > 0)
      ensures old(Valid()) ==> r != Err(Other)
    {
      var found := Find(handles, h);
      if found.None? { return Err(InvalidHandle); }
      if READ !in found.value.rights { return Err(PermissionDenied); }
      if found.value.kind != PipeRead { return Err(if found.value.kind == File then FileAccess else NotSupported); }
      if old(Valid()) { EndBalanced(handles, pipes, h.id); }
      r := ReadEnd(found.value.pipe, want);
    }

    /** Reads from pipe p: the front of its buffer, nothing once no writer is counted, or the error. */
    method ReadEnd(p: nat, want: nat) returns (r: Result<seq<nat>>)
      requires Guarded()
      modifies `pipes, `past
      ensures Guarded() && (old(Valid()) ==> Valid())
      ensures r == PipeOutcome(old(pipes), p, want)
      ensures r.Err? ==> pipes == old(pipes) && past == old(past)
      ensures r.Ok? ==> PipeAt(old(pipes), p).Some? && TakenOff(old(pipes), pipes, p, r.value, want)
                        && pipes == Drained(old(pipes), p, |r.value|)
      ensures r.Ok? ==> Delivered(old(past), past, p, r.value)
      ensures r.Ok? ==> var s := past.streams[p]; s.delivered <= s.written
      ensures PipeAt(old(pipes), p).Some? ==> (AllDelivered(old(past), p) <==> old(pipes)[p].value.buf == [])
    {
      if p >= |pipes| || pipes[p].None? { return Err(Other); }
      var pipe := pipes[p].value;
      if pipe.buf == [] && pipe.writers > 0 { return Err(WouldBlock); }
      var bytes := TakeFront(p, if want < |pipe.buf| then want else |pipe.buf|);
      ReadsArePrefix(pipes, past, p);
      r := Ok(bytes);
    }

    /** Takes n bytes from the front of a pipe's buffer. */
    method TakeFront(p: nat, n: nat) returns (bytes: seq<nat>)
      requires Guarded() && PipeAt(pipes, p).Some? && n <= |pipes[p].value.buf|
      modifies `pipes, `past
      ensures Guarded() && (old(Valid()) ==> Valid())
      ensures bytes == old(pipes)[p].value.buf[..n] && pipes == Drained(old(pipes), p, n)
      ensures Delivered(old(past), past, p, bytes)
    {
      var pipe := pipes[p].value;
      ghost var s := past.streams[p];
      bytes := pipe.buf[..n];
      StreamsOnly(handles, counter, past, past.streams[p := s.(delivered := s.delivered + bytes)]);
      if old(Valid()) { BufferOk(handles, pipes, p, pipe.buf[n..]); }
      pipes := pipes[p := Some(pipe.(buf := pipe.buf[n..]))];
      past := past.(streams := past.streams[p := s.(delivered := s.delivered + bytes)]);
      assert s.delivered + pipe.buf == s.delivered + bytes + pipe.buf[n..];
    }

    /** Appends bytes to a pipe through one of its write ends; the right is bit 1. A pipe that is gone is an error. */
    method WritePipe(h: Handle, bytes: seq<nat>) returns (r: Result<nat>)
      requires Guarded()
      modifies `pipes, `past
      ensures Guarded() && (old(Valid()) ==> Valid())
      ensures r == WriteOutcome(handles, old(pipes), h, bytes)
      ensures Checked(r, handles, h, 1, PipeWrite) && (r.Ok? ==> r.value == |bytes|)
      ensures r.Err? ==> pipes == old(pipes) && past == old(past)
      ensures r.Ok? ==> PipeAt(old(pipes), EndOf(handles, h)).Some?
                        && pipes == Filled(old(pipes), EndOf(handles, h), bytes)
      ensures r.Ok? ==> Written(old(past), past, EndOf(handles, h), bytes)
      ensures old(Valid()) && Writes(handles, h) ==>
                (r == Err(BrokenPipe) <==> Count(handles, PipeRead, EndOf(handles, h)) == 0)
      ensures old(Valid()) ==> r != Err(Other)
    {
      var found := Find(handles, h);
      if found.None? { return Err(InvalidHandle); }
      if WRITE !in found.value.rights { return Err(PermissionDenied); }
      if found.value.kind != PipeWrite { return Err(if found.value.kind == File then FileAccess else NotSupported); }
      var p := found.value.pipe;
      if old(Valid()) { EndBalanced(handles, pipes, h.id); }
      if p >= |pipes| || pipes[p].None? { return Err(Other); }
      if pipes[p].value.readerClosed { return Err(BrokenPipe); }
      Append(p, bytes);
      r := Ok(|bytes|);
    }

    method Append(p: nat, bytes: seq<nat>)
      requires Guarded() && PipeAt(pipes, p).Some?
      modifies `pipes, `past
      ensures Guarded() && (old(Valid()) ==> Valid())
      ensures pipes == Filled(old(pipes), p, bytes) && Written(old(past), past, p, bytes)
    {
      var pipe := pipes[p].value;
      ghost var s := past.streams[p];
      StreamsOnly(handles, counter, past, past.streams[p := s.(written := s.written + bytes)]);
      if old(Valid()) { BufferOk(handles, pipes, p, pipe.buf + bytes); }
      pipes := pipes[p := Some(pipe.(buf := pipe.buf + bytes))];
      past := past.(streams := past.streams[p := s.(written := s.written + bytes)]);
      assert s.written + bytes == s.delivered + (pipe.buf + bytes);
    }

    /** Closes a handle; a pipe goes with its last end. Writing back file data is not modelled. */
    method Close(h: Handle) returns (r: Result<()>)
      requires Guarded()
      modifies this
      ensures Guarded() && (old(Valid()) ==> Valid()) && counter == old(counter)
      ensures r.Ok? <==> Find(old(handles), h).Some?
      ensures r.Err? ==> r.error == InvalidHandle && handles == old(handles) && pipes == old(pipes) && past == old(past)
      ensures r.Ok? ==> handles == Put(old(handles), h.id, None)
                        && pipes == EndClosed(old(pipes), Find(old(handles), h).value)
      ensures r.Ok? ==> h.id in old(past).serials && past == Buried(old(past), h, old(past).serials[h.id])
    {
      var found := Find(handles, h);
      if found.None? { return Err(InvalidHandle); }
      BuryOk(handles, counter, past, h);
      if old(Valid()) { CloseEndOk(handles, pipes, h.id); }
      ClosePipeEnd(found.value);
      handles := handles[h.id := None];
      past := Buried(past, h, past.serials[h.id]);
      r := Ok(());
    }

    method ClosePipeEnd(e: Entry)
      requires StreamsOk(pipes, past)
      modifies `pipes
      ensures pipes == EndClosed(old(pipes), e) && StreamsOk(pipes, past)
    {
      if !IsPipeEnd(e) || e.pipe >= |pipes| || pipes[e.pipe].None? { return; }
      var pipe := pipes[e.pipe].value;
      if e.kind == PipeWrite {
        StreamKept(pipes, past, e.pipe, WriterClosed(pipe));
        pipe := pipe.(writers := if pipe.writers > 0 then pipe.writers - 1 else 0);
        pipes := pipes[e.pipe := if pipe.writers == 0 && pipe.readerClosed then None else Some(pipe)];
      } else {
        StreamKept(pipes, past, e.pipe, ReaderClosed(pipe));
        pipe := pipe.(readerClosed := true);
        pipes := pipes[e.pipe := if pipe.writers == 0 then None else Some(pipe)];
      }
    }
  }

  /** The entry e was stored in the first empty slot, under handle h; every other slot is as before. */
  ghost predicate Inserted(hs: HandleModel.Handles, hs': HandleModel.Handles, h: Handle, e: Entry) {
    FirstEmpty(hs, h.id) && h.token == e.token && hs' == Put(hs, h.id, Some(e)) && Find(hs', h) == Some(e)
  }

  /** The pipe of a handle's entry. */
  function EndOf(hs: HandleModel.Handles, h: Handle): nat {
    if Find(hs, h).Some? then Find(hs, h).value.pipe else 0
  }

  /**
   Only a live handle with the right and of the kind succeeds. A handle that is not live is invalid, a live one
   without the right is denied, and one with the right but of another kind is not supported, unless it is a file.
   */
  predicate Checked<T>(r: Result<T>, hs: HandleModel.Handles, h: Handle, right: nat, kind: Kind) {
    var found := Find(hs, h);
    && (r.Ok? ==> found.Some? && right in found.value.rights && found.value.kind == kind)
    && (r.Err? && r.error == InvalidHandle <==> found.None?)
    && (r.Err? && r.error == PermissionDenied <==> found.Some? && right !in found.value.rights)
    && (r.Err? && r.error == NotSupported <==>
        found.Some? && right in found.value.rights && found.value.kind != kind && found.value.kind != File)
    && (r.Err? && r.error == FileAccess <==>
        found.Some? && right in found.value.rights && found.value.kind != kind && found.value.kind == File)
  }

  /** The bytes are the front of the buffer, as many as wanted or all there are. */
  predicate TakenOff(ps: Pipes, ps': Pipes, p: nat, bytes: seq<nat>, want: nat) {
    && PipeAt(ps, p).Some? && PipeAt(ps', p).Some? && bytes + ps'[p].value.buf == ps[p].value.buf
    && |bytes| <= want && (|bytes| < want ==> ps'[p].value.buf == [])
  }

  /** A live read end with the right to read. */
  predicate Reads(hs: HandleModel.Handles, h: Handle) {
    Find(hs, h).Some? && READ in Find(hs, h).value.rights && Find(hs, h).value.kind == PipeRead
  }

  predicate Writes(hs: HandleModel.Handles, h: Handle) {
    Find(hs, h).Some? && WRITE in Find(hs, h).value.rights && Find(hs, h).value.kind == PipeWrite
  }

  /** The pipe without the first n bytes of its buffer. */
  function Drained(ps: Pipes, p: nat, n: nat): Pipes
    requires PipeAt(ps, p).Some?
  {
    var buf := ps[p].value.buf;
    ps[p := Some(ps[p].value.(buf := if n <= |buf| then buf[n..] else []))]
  }

  function Filled(ps: Pipes, p: nat, bytes: seq<nat>): Pipes
    requires PipeAt(ps, p).Some?
  {
    ps[p := Some(ps[p].value.(buf := ps[p].value.buf + bytes))]
  }

  /** What reading gives: the front of the buffer, nothing once no writer is counted, or the error. */
  function ReadOutcome(hs: HandleModel.Handles, ps: Pipes, h: Handle, want: nat): Result<seq<nat>> {
    match Find(hs, h)
    case None => Err(InvalidHandle)
    case Some(e) =>
      if READ !in e.rights then Err(PermissionDenied)
      else if e.kind != PipeRead then Err(if e.kind == File then FileAccess else NotSupported)
      else PipeOutcome(ps, e.pipe, want)
  }

  function PipeOutcome(ps: Pipes, p: nat, want: nat): Result<seq<nat>> {
    match PipeAt(ps, p)
    case None => Err(Other)
    case Some(pipe) =>
      if pipe.buf == [] && pipe.writers > 0 then Err(WouldBlock)
      else Ok(pipe.buf[..if want < |pipe.buf| then want else |pipe.buf|])
  }

  function WriteOutcome(hs: HandleModel.Handles, ps: Pipes, h: Handle, bytes: seq<nat>): Result<nat> {
    match Find(hs, h)
    case None => Err(InvalidHandle)
    case Some(e) =>
      if WRITE !in e.rights then Err(PermissionDenied)
      else if e.kind != PipeWrite then Err(if e.kind == File then FileAccess else NotSupported)
      else match PipeAt(ps, e.pipe)
      case None => Err(Other)
      case Some(pipe) => if pipe.readerClosed then Err(BrokenPipe) else Ok(|bytes|)
  }

  lemma CreateOk(hs: HandleModel.Handles, ps: Pipes, n: nat, past: Past, h: Handle, e: Entry, hs': HandleModel.Handles)
    requires Sound(hs, ps, n, past) && n < WORD && !IsPipeEnd(e) && e.token == Token(n)
    requires h.id <= |hs| && !Live(hs, h.id) && hs' == Put(hs, h.id, Some(e))
    ensures Sound(hs', ps, n + 1, Issued(past, h.id, n, e.rights)) && (PipesOk(hs, ps) ==> PipesOk(hs', ps))
  {
    IssueOk(hs, n, past, h.id, e, e.rights);
    if PipesOk(hs, ps) { PlainPutOk(hs, ps, h.id, Some(e)); }
  }

  /** The new handle d continues the chain of rights of h. */
  ghost predicate Derived(past: Past, past': Past, h: Handle, d: Handle, n: nat) {
    && h.id in past.serials && past.serials[h.id] in past.origin
    && past' == Issued(past, d.id, n, past.origin[past.serials[h.id]])
  }

  ghost function OpenedPast(past: Past, i: nat, j: nat, n: nat, p: nat): Past {
    var past2 := Issued(Issued(past, i, n, {READ}), j, n + 1, {WRITE});
    past2.(streams := past2.streams[p := Stream([], [])])
  }

  /** r and w are the ends of pipe p, stored one after the other. */
  ghost predicate PipeOpened(hs: HandleModel.Handles, hs': HandleModel.Handles, r: Handle, w: Handle, p: nat) {
    var a, b := Entry(r.token, {READ}, PipeRead, p), Entry(w.token, {WRITE}, PipeWrite, p);
    && FirstEmpty(hs, r.id) && FirstEmpty(Put(hs, r.id, Some(a)), w.id)
    && hs' == Put(Put(hs, r.id, Some(a)), w.id, Some(b)) && Find(hs', r) == Some(a) && Find(hs', w) == Some(b)
  }

  lemma OpenedOk(hs: HandleModel.Handles, ps: Pipes, n: nat, past: Past, r: Handle, w: Handle, p: nat)
    requires Sound(hs, ps, n, past) && n + 1 < WORD && p <= |ps| && PipeAt(ps, p).None?
    requires r.id <= |hs| && !Live(hs, r.id) && r.token == Token(n) && w.token == Token(n + 1)
    requires var hs1 := Put(hs, r.id, Some(Entry(r.token, {READ}, PipeRead, p))); w.id <= |hs1| && !Live(hs1, w.id)
    ensures var hs1 := Put(hs, r.id, Some(Entry(r.token, {READ}, PipeRead, p)));
            var hs2 := Put(hs1, w.id, Some(Entry(w.token, {WRITE}, PipeWrite, p)));
            var ps' := Put(ps, p, Some(Pipe([], 1, false)));
            && Sound(hs2, ps', n + 2, OpenedPast(past, r.id, w.id, n, p))
            && (PipesOk(hs, ps) ==> PipesOk(hs2, ps'))
  {
    var a, b := Entry(r.token, {READ}, PipeRead, p), Entry(w.token, {WRITE}, PipeWrite, p);
    var hs2 := Put(Put(hs, r.id, Some(a)), w.id, Some(b));
    var past2 := Issued(Issued(past, r.id, n, {READ}), w.id, n + 1, {WRITE});
    IssueTwoOk(hs, n, past, r.id, a, w.id, b);
    StreamsOnly(hs2, n + 2, past2, past2.streams[p := Stream([], [])]);
    if PipesOk(hs, ps) { OpenOk(hs, ps, p, r.id, a, w.id, b); }
    StreamOpened(ps, past2, p);
  }

  /** The pipe table after a copy of entry e: a write end is counted. */
  function Counted(ps: Pipes, e: Entry): Pipes {
    if e.kind == PipeWrite && PipeAt(ps, e.pipe).Some?
    then ps[e.pipe := Some(ps[e.pipe].value.(writers := ps[e.pipe].value.writers + 1))] else ps
  }

  lemma DuplicateOk(hs: HandleModel.Handles, ps: Pipes, n: nat, past: Past, h: Handle, d: Handle, e: Entry,
                    hs': HandleModel.Handles, ps': Pipes, past': Past)
    requires Sound(hs, ps, n, past) && n < WORD && Find(hs, h).Some?
    requires e == Find(hs, h).value.(token := Token(n))
    requires d.id <= |hs| && !Live(hs, d.id) && hs' == Put(hs, d.id, Some(e)) && ps' == Counted(ps, e)
    requires Derived(past, past', h, d, n)
    ensures Sound(hs', ps', n + 1, past')
    ensures PipesOk(hs, ps) ==> (PipesOk(hs', ps') <==> e.kind != PipeRead)
  {
    assert SlotOk(hs[h.id].value, h.id, n, past);
    IssueOk(hs, n, past, d.id, e, past.origin[past.serials[h.id]]);
    if PipesOk(hs, ps) { CopyBalance(hs, ps, h, d, e); }
    if e.kind == PipeWrite && PipeAt(ps, e.pipe).Some? {
      StreamKept(ps, past, e.pipe, Some(ps[e.pipe].value.(writers := ps[e.pipe].value.writers + 1)));
    }
  }

  lemma CopyBalance(hs: HandleModel.Handles, ps: Pipes, h: Handle, d: Handle, e: Entry)
    requires PipesOk(hs, ps) && Find(hs, h).Some? && d.id <= |hs| && !Live(hs, d.id)
    requires e.kind == Find(hs, h).value.kind && e.pipe == Find(hs, h).value.pipe
    ensures PipesOk(Put(hs, d.id, Some(e)), Counted(ps, e)) <==> e.kind != PipeRead
  {
    if e.kind == PipeWrite {
      EndHasPipe(hs, ps, h.id);
      AddWriterOk(hs, ps, d.id, e);
    } else if e.kind == PipeRead {
      UncountedBreaks(hs, ps, h.id, d.id, e);
    } else {
      PlainPutOk(hs, ps, d.id, Some(e));
    }
  }

  lemma RestrictBalance(hs: HandleModel.Handles, ps: Pipes, h: Handle, d: Handle, e: Entry)
    requires PipesOk(hs, ps) && Find(hs, h).Some? && d.id <= |hs| && !Live(hs, d.id)
    requires e.kind == Find(hs, h).value.kind && e.pipe == Find(hs, h).value.pipe
    ensures PipesOk(Put(hs, d.id, Some(e)), ps) <==> !IsPipeEnd(e)
  {
    if IsPipeEnd(e) { UncountedBreaks(hs, ps, h.id, d.id, e); } else { PlainPutOk(hs, ps, d.id, Some(e)); }
  }

  lemma EndBalanced(hs: HandleModel.Handles, ps: Pipes, i: nat)
    requires PipesOk(hs, ps) && Live(hs, i) && IsPipeEnd(hs[i].value)
    ensures PipeAt(ps, hs[i].value.pipe).Some? && HandleModel.Balanced(hs, ps, hs[i].value.pipe)
  {
    EndHasPipe(hs, ps, i);
  }

  /** The bytes were added to what pipe p delivered; everything else is as before. */
  ghost predicate Delivered(past: Past, past': Past, p: nat, bytes: seq<nat>) {
    && p in past.streams
    && past' == past.(streams := past.streams[p := past.streams[p].(delivered := past.streams[p].delivered + bytes)])
  }

  /** Nothing written to the pipe is still to be read. */
  ghost predicate AllDelivered(past: Past, p: nat) {
    p in past.streams && past.streams[p].delivered == past.streams[p].written
  }

  ghost predicate Written(past: Past, past': Past, p: nat, bytes: seq<nat>) {
    && p in past.streams
    && past' == past.(streams := past.streams[p := past.streams[p].(written := past.streams[p].written + bytes)])
  }
}

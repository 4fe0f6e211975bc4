/** The round-robin scheduler: task states, selection, waiting for exit codes. */
module Scheduler {
  import opened Options

  datatype TaskState = Ready | Running | Sleeping(wakeAt: nat) | Finished

  datatype Task = Task(id: nat, state: TaskState, exitCode: int, parent: Option<nat>, leader: Option<nat>, reaped: bool)

  // ---------------------------------------------------------------
  // Selection
  // ---------------------------------------------------------------

  /** The index i places after c, going round n tasks. */
  function Wrap(c: nat, i: nat, n: nat): nat
    requires c < n && i <= n
  {
    if c + i < n then c + i else c + i - n
  }

  lemma WrapMod(c: nat, i: nat, n: nat)
    requires c < n && i <= n
    ensures (c + i) % n == Wrap(c, i, n)
  {
    if c + i >= n { ModOnce(c + i, n); } else { ModSmall(c + i, n); }
  }

  lemma ModSmall(x: nat, n: nat)
    requires x < n
    ensures x % n == x
  {
  }

  lemma ModOnce(x: nat, n: nat)
    requires 0 < n <= x < 2 * n
    ensures x % n == x - n
  {
    var k: int := x / n - 1;
    assert k * n == x - n - x % n;
    Multiples(k, n);
  }

  lemma Multiples(k: int, n: int)
    requires n > 0
    ensures k >= 1 ==> k * n >= n
    ensures k <= -1 ==> k * n <= -n
  {
    if k >= 1 { assert k * n == n + (k - 1) * n; }
    if k <= -1 { assert k * n == -n + (k + 1) * n; }
  }

  predicate IsReady(tasks: seq<Task>, i: nat) {
    i < |tasks| && tasks[i].state == Ready
  }

  /** The ready task met first after current is i places away. */
  predicate IsNext(tasks: seq<Task>, current: nat, i: nat) {
    && current < |tasks| && 1 <= i <= |tasks| && IsReady(tasks, Wrap(current, i, |tasks|))
    && (forall j | 1 <= j < i :: !IsReady(tasks, Wrap(current, j, |tasks|)))
  }

  /** How many places after c task k is met, between 1 and n. */
  function Distance(c: nat, k: nat, n: nat): (d: nat)
    requires c < n && k < n
    ensures 1 <= d <= n && Wrap(c, d, n) == k
  {
    if k > c then k - c else k + n - c
  }

  /** Selecting another task than a ready one brings the ready one closer. */
  lemma SelectCloser(tasks: seq<Task>, current: nat, i: nat, k: nat)
    requires IsNext(tasks, current, i) && IsReady(tasks, k) && Wrap(current, i, |tasks|) != k
    ensures Distance(Wrap(current, i, |tasks|), k, |tasks|) < Distance(current, k, |tasks|)
  {
    assert forall j | 1 <= j < i :: Wrap(current, j, |tasks|) != k;
  }

  /** A task appended at the end is at most one more place to go. */
  lemma SpawnFarther(c: nat, k: nat, n: nat)
    requires c < n && k < n
    ensures Distance(c, k, n + 1) <= Distance(c, k, n) + 1
  {
  }

  // ---------------------------------------------------------------
  // The invariant
  // ---------------------------------------------------------------

  /** Only the current task can be running; ids are unique; returned exit codes are marked. */
  ghost predicate Ok(tasks: seq<Task>, current: nat, nextId: nat, returned: seq<nat>) {
    && current < |tasks|
    && (forall i | 0 <= i < |tasks| :: tasks[i].state == Running ==> i == current)
    && (forall i | 0 <= i < |tasks| :: tasks[i].id < nextId)
    && (forall i, j | 0 <= i < j < |tasks| :: tasks[i].id != tasks[j].id)
    && (forall i | i in returned :: i < |tasks| && tasks[i].reaped && tasks[i].state == Finished)
    && (forall i, j | 0 <= i < j < |returned| :: returned[i] != returned[j])
  }

  /** States may change, except that a finished task stays as it is. */
  predicate Continues(before: seq<Task>, after: seq<Task>) {
    && |before| <= |after|
    && (forall i | 0 <= i < |before| ::
          && after[i].id == before[i].id && after[i].parent == before[i].parent && after[i].leader == before[i].leader
          && (before[i].reaped ==> after[i].reaped)
          && (before[i].state == Finished ==> after[i].state == Finished && after[i].exitCode == before[i].exitCode))
  }

  /** The task sleeps and its time has come. */
  predicate Due(t: Task, now: nat) {
    t.state.Sleeping? && t.state.wakeAt <= now
  }

  datatype WaitError = NoChild | NotChild

  /** A pass of a waiting loop: an exit code, an error, or nothing yet. */
  datatype WaitResult = Exited(id: nat, code: int) | Failed(error: WaitError) | Pending

  class TaskTable {
    var tasks: seq<Task>
    var current: nat
    var nextId: nat
    ghost var returned: seq<nat>

    ghost predicate Valid()
      reads this
    {
      Ok(tasks, current, nextId, returned)
    }

    /** Boot: the kernel task is running. */
    constructor ()
      ensures Valid() && returned == [] && |tasks| == 1
    {
      tasks := [Task(0, Running, 0, None, None, false)];
      current, nextId, returned := 0, 1, [];
    }

    method Spawn(parent: Option<nat>, leader: Option<nat>) returns (id: nat)
      requires Valid()
      modifies this
      ensures Valid() && id == old(nextId) && current == old(current) && returned == old(returned)
      ensures tasks == old(tasks) + [Task(id, Ready, 0, parent, leader, false)]
    {
      id := nextId;
      nextId := nextId + 1;
      tasks := tasks + [Task(id, Ready, 0, parent, leader, false)];
    }

    /** The first ready task after the current one, once round. */
    method SelectNext() returns (r: Option<nat>)
      requires current < |tasks|
      ensures r.Some? ==> IsNext(tasks, current, r.value)
      ensures r.None? ==> forall i | 0 <= i < |tasks| :: tasks[i].state != Ready
    {
      var n := |tasks|;
      for i := 1 to n + 1
        invariant forall j | 1 <= j < i :: !IsReady(tasks, Wrap(current, j, n))
      {
        WrapMod(current, i, n);
        if tasks[(current + i) % n].state == Ready { return Some(i); }
      }
      forall k | 0 <= k < n ensures tasks[k].state != Ready {
        assert Wrap(current, Distance(current, k, n), n) == k;
      }
      r := None;
    }

    /** Makes the task i places on run. */
    method SwitchTo(i: nat)
      requires Valid() && IsNext(tasks, current, i)
      modifies `tasks, `current
      ensures Valid() && Continues(old(tasks), tasks) && |tasks| == |old(tasks)|
      ensures current == Wrap(old(current), i, |tasks|) && tasks[current].state == Running
      ensures forall k | 0 <= k < |tasks| && k != current ::
                tasks[k] == if old(tasks)[k].state == Running then old(tasks)[k].(state := Ready) else old(tasks)[k]
    {
      var next := Wrap(current, i, |tasks|);
      if tasks[current].state == Running {
        tasks := tasks[current := tasks[current].(state := Ready)];
      }
      tasks := tasks[next := tasks[next].(state := Running)];
      current := next;
    }

    /** Gives up the processor to the next ready task, if there is one. */
    method YieldNow() returns (ghost chosen: Option<nat>)
      requires Valid()
      modifies `tasks, `current
      ensures Valid() && Continues(old(tasks), tasks) && |tasks| == |old(tasks)|
      ensures chosen.None? ==> tasks == old(tasks) && current == old(current) && forall k: nat :: !IsReady(tasks, k)
      ensures chosen.Some? ==> IsNext(old(tasks), old(current), chosen.value)
                               && current == Wrap(old(current), chosen.value, |tasks|)
                               && tasks[current].state == Running
      ensures forall k | 0 <= k < |tasks| && k != current && old(tasks)[k].state != Running :: tasks[k] == old(tasks)[k]
    {
      var r := SelectNext();
      if r.Some? { SwitchTo(r.value); }
      chosen := r;
    }

    /** A timer tick: wakes sleepers whose time has come, then switches as yielding does. */
    method Preempt(now: nat) returns (ghost chosen: Option<nat>, ghost woken: seq<Task>)
      requires Valid()
      modifies `tasks, `current
      ensures Valid() && Continues(old(tasks), tasks) && |woken| == |tasks| == |old(tasks)|
      ensures forall k | 0 <= k < |woken| && old(tasks)[k].state.Sleeping? ::
                woken[k] == if old(tasks)[k].state.wakeAt <= now then old(tasks)[k].(state := Ready) else old(tasks)[k]
      ensures forall k | 0 <= k < |woken| && !old(tasks)[k].state.Sleeping? :: woken[k] == old(tasks)[k]
      ensures chosen.None? ==> tasks == woken && current == old(current)
      ensures chosen.None? && |tasks| > 1 ==> forall k: nat :: !IsReady(tasks, k)
      ensures chosen.Some? ==> IsNext(woken, old(current), chosen.value)
                               && current == Wrap(old(current), chosen.value, |tasks|)
                               && tasks[current].state == Running
      ensures forall k | 0 <= k < |tasks| && k != current && woken[k].state != Running :: tasks[k] == woken[k]
    {
      WakeSleepers(now);
      woken := tasks;
      if |tasks| <= 1 { return None, woken; }
      var r := SelectNext();
      chosen := r;
      if r.Some? { SwitchTo(r.value); }
    }

    method WakeSleepers(now: nat)
      requires Valid()
      modifies `tasks
      ensures Valid() && Continues(old(tasks), tasks) && |tasks| == |old(tasks)|
      ensures forall k | 0 <= k < |tasks| ::
                tasks[k] == if Due(old(tasks)[k], now) then old(tasks)[k].(state := Ready) else old(tasks)[k]
    {
      for i := 0 to |tasks|
        invariant |tasks| == |old(tasks)|
        invariant forall k | 0 <= k < |tasks| ::
                    tasks[k] == if k < i && Due(old(tasks)[k], now) then old(tasks)[k].(state := Ready)
                                else old(tasks)[k]
      {
        if tasks[i].state.Sleeping? && now >= tasks[i].state.wakeAt {
          tasks := tasks[i := tasks[i].(state := Ready)];
        }
      }
    }

    method SetCurrentSleeping(wakeAt: nat)
      requires Valid() && tasks[current].state != Finished
      modifies `tasks
      ensures Valid() && Continues(old(tasks), tasks)
      ensures tasks == old(tasks)[current := old(tasks)[current].(state := Sleeping(wakeAt))]
    {
      tasks := tasks[current := tasks[current].(state := Sleeping(wakeAt))];
    }

    /** The index of a task id. */
    method FindTask(id: nat) returns (r: Option<nat>)
      ensures r.Some? ==> r.value < |tasks| && tasks[r.value].id == id
      ensures r.None? ==> forall i | 0 <= i < |tasks| :: tasks[i].id != id
    {
      for i := 0 to |tasks|
        invariant forall j | 0 <= j < i :: tasks[j].id != id
      {
        if tasks[i].id == id { return Some(i); }
      }
      r := None;
    }

    method WakeTask(id: nat)
      requires Valid()
      modifies `tasks
      ensures Valid() && Continues(old(tasks), tasks) && |tasks| == |old(tasks)|
      ensures forall i | 0 <= i < |tasks| ::
                tasks[i] == if old(tasks)[i].id == id && old(tasks)[i].state.Sleeping?
                  then old(tasks)[i].(state := Ready) else old(tasks)[i]
    {
      var i := FindTask(id);
      if i.Some? && tasks[i.value].state.Sleeping? {
        tasks := tasks[i.value := tasks[i.value].(state := Ready)];
      }
    }

    /** Ends another task by force. */
    method KillTask(id: nat) returns (ok: bool)
      requires Valid()
      modifies `tasks
      ensures Valid() && Continues(old(tasks), tasks) && |tasks| == |old(tasks)|
      ensures ok <==> id != old(tasks)[current].id
                      && exists i :: 0 <= i < |old(tasks)| && old(tasks)[i].id == id && old(tasks)[i].state != Finished
      ensures forall i | 0 <= i < |tasks| ::
                tasks[i] == if ok && old(tasks)[i].id == id then old(tasks)[i].(state := Finished, exitCode := -1)
                  else old(tasks)[i]
    {
      if id == tasks[current].id { return false; }
      var i := FindTask(id);
      if i.None? || tasks[i.value].state == Finished { return false; }
      tasks := tasks[i.value := tasks[i.value].(state := Finished, exitCode := -1)];
      ok := true;
    }

    /** Ends all threads of a process. */
    method KillAllThreadsOfLeader(leader: nat)
      requires Valid()
      modifies `tasks
      ensures Valid() && Continues(old(tasks), tasks) && |tasks| == |old(tasks)|
      ensures forall i | 0 <= i < |tasks| ::
                tasks[i] == if old(tasks)[i].leader == Some(leader) && old(tasks)[i].state != Finished
                            then old(tasks)[i].(state := Finished, exitCode := -1) else old(tasks)[i]
    {
      for i := 0 to |tasks|
        invariant |tasks| == |old(tasks)|
        invariant forall k | 0 <= k < |tasks| ::
                    tasks[k] == if k < i && old(tasks)[k].leader == Some(leader) && old(tasks)[k].state != Finished
                                then old(tasks)[k].(state := Finished, exitCode := -1) else old(tasks)[k]
      {
        if tasks[i].leader == Some(leader) && tasks[i].state != Finished {
          tasks := tasks[i := tasks[i].(state := Finished, exitCode := -1)];
        }
      }
    }

    /** The code that the current task will leave behind. */
    method SetExitCode(code: int)
      requires Valid() && tasks[current].state != Finished
      modifies `tasks
      ensures Valid() && Continues(old(tasks), tasks)
      ensures tasks == old(tasks)[current := old(tasks)[current].(exitCode := code)]
    {
      tasks := tasks[current := tasks[current].(exitCode := code)];
    }

    /**
     The current task ends with the exit code it has. If it leads a user process, the threads of the process end
     with it. Then the next ready task runs, if there is one.
     */
    method ExitCurrent(user: bool) returns (ghost chosen: Option<nat>, ghost ended: seq<Task>)
      requires Valid() && tasks[current].state != Finished
      modifies `tasks, `current
      ensures Valid() && Continues(old(tasks), tasks) && |tasks| == |old(tasks)| && returned == old(returned)
      ensures |ended| == |tasks| && ended[old(current)] == old(tasks)[old(current)].(state := Finished)
      ensures tasks[old(current)] == ended[old(current)]
      ensures forall i | 0 <= i < |ended| && i != old(current) ::
                ended[i] == if user && LedBy(old(tasks)[i], old(tasks)[old(current)]) && old(tasks)[i].state != Finished
                            then old(tasks)[i].(state := Finished, exitCode := -1) else old(tasks)[i]
      ensures user && old(tasks)[old(current)].leader.None? ==>
              forall i | 0 <= i < |tasks| && tasks[i].leader == Some(old(tasks)[old(current)].id) ::
                tasks[i].state == Finished
      ensures chosen.None? ==> tasks == ended && current == old(current) && forall k: nat :: !IsReady(tasks, k)
      ensures chosen.Some? ==> IsNext(ended, old(current), chosen.value)
                               && current == Wrap(old(current), chosen.value, |tasks|) && current != old(current)
                               && tasks[current].state == Running
    {
      FinishCurrent(user);
      ended := tasks;
      assert !IsReady(ended, current);
      chosen := YieldNow();
    }

    method FinishCurrent(user: bool)
      requires Valid() && tasks[current].state != Finished
      modifies `tasks
      ensures Valid() && Continues(old(tasks), tasks) && |tasks| == |old(tasks)|
      ensures tasks[current] == old(tasks)[current].(state := Finished)
      ensures forall i | 0 <= i < |tasks| && i != current ::
                tasks[i] == if user && LedBy(old(tasks)[i], old(tasks)[current]) && old(tasks)[i].state != Finished
                            then old(tasks)[i].(state := Finished, exitCode := -1) else old(tasks)[i]
    {
      var me := tasks[current];
      tasks := tasks[current := me.(state := Finished)];
      if user && me.leader.None? { KillAllThreadsOfLeader(me.id); }
    }

    /** Ends the current task after an exception and runs another; task 0 is the last resort. */
    method AbortCurrent() returns (switched: bool, ghost chosen: Option<nat>)
      requires Valid() && tasks[current].state != Finished
      modifies `tasks, `current
      ensures Valid() && Continues(old(tasks), tasks) && |tasks| == |old(tasks)|
      ensures tasks[old(current)].state == Finished && tasks[old(current)].exitCode == -1
      ensures switched ==> current != old(current) && tasks[current].state == Running
      ensures !switched ==> current == old(current)
      ensures switched <==> (exists k: nat :: k != old(current) && IsReady(old(tasks), k))
                            || (old(current) != 0 && old(tasks)[0].state != Finished)
      ensures chosen.Some? ==> IsNext(Aborted(old(tasks), old(current)), old(current), chosen.value)
                               && current == Wrap(old(current), chosen.value, |tasks|)
      ensures chosen.None? ==>
              (forall k: nat | k != old(current) :: !IsReady(old(tasks), k)) && (switched ==> current == 0)
      ensures forall k | 0 <= k < |tasks| && k != old(current) && k != current :: tasks[k] == old(tasks)[k]
    {
      MarkAborted();
      var next;
      next, chosen := Successor();
      if next.None? { return false, chosen; }
      Resume(next.value);
      switched := true;
    }

    method MarkAborted()
      requires Valid() && tasks[current].state != Finished
      modifies `tasks
      ensures Valid() && Continues(old(tasks), tasks) && tasks == Aborted(old(tasks), current)
      ensures forall k: nat :: IsReady(tasks, k) <==> k != current && IsReady(old(tasks), k)
    {
      tasks := tasks[current := tasks[current].(exitCode := -1, state := Finished)];
    }

    /** Lets task k run in place of the current one, which is finished. */
    method Resume(k: nat)
      requires Valid() && k < |tasks| && tasks[k].state != Finished && tasks[current].state == Finished
      modifies `tasks, `current
      ensures Valid() && Continues(old(tasks), tasks) && current == k
      ensures tasks == old(tasks)[k := old(tasks)[k].(state := Running)]
    {
      tasks := tasks[k := tasks[k].(state := Running)];
      current := k;
    }

    /** The next ready task, or else task 0 unless it is finished or current. */
    method Successor() returns (next: Option<nat>, ghost chosen: Option<nat>)
      requires current < |tasks| && tasks[current].state == Finished
      ensures chosen.Some? ==>
              IsNext(tasks, current, chosen.value) && next == Some(Wrap(current, chosen.value, |tasks|))
      ensures chosen.None? ==> (forall k: nat :: !IsReady(tasks, k)) && (next.Some? ==> next.value == 0)
      ensures next.Some? ==> next.value < |tasks| && next.value != current && tasks[next.value].state != Finished
      ensures next.Some? <==>
              (exists k: nat :: k != current && IsReady(tasks, k)) || (current != 0 && tasks[0].state != Finished)
    {
      var r := SelectNext();
      if r.Some? {
        assert IsReady(tasks, Wrap(current, r.value, |tasks|));
        return Some(Wrap(current, r.value, |tasks|)), r;
      }
      chosen := None;
      next := if tasks[0].state != Finished && current != 0 then Some(0) else None;
    }

    // -------------------------------------------------------------
    // Waiting
    // -------------------------------------------------------------

    /** Takes the exit code of task i; afterwards it is marked as taken. */
    method Reap(i: nat) returns (code: int)
      requires Valid() && i < |tasks| && tasks[i].state == Finished && !tasks[i].reaped
      modifies `tasks, `returned
      ensures Valid() && Continues(old(tasks), tasks) && code == old(tasks)[i].exitCode
      ensures i !in old(returned) && returned == old(returned) + [i]
      ensures tasks == old(tasks)[i := old(tasks)[i].(reaped := true)]
    {
      code := tasks[i].exitCode;
      tasks := tasks[i := tasks[i].(reaped := true)];
      returned := returned + [i];
    }

    /** The first finished child of the caller that was not reaped yet; target 0 means any child. */
    method FindFinishedChild(target: nat) returns (r: Option<nat>)
      requires current < |tasks|
      ensures r.Some? ==> r.value < |tasks| && IsFinishedChild(tasks, tasks[current].id, target, r.value)
      ensures r.None? ==> forall i: nat | i < |tasks| :: !IsFinishedChild(tasks, tasks[current].id, target, i)
    {
      var me := tasks[current].id;
      for i := 0 to |tasks|
        invariant forall j: nat | j < i :: !IsFinishedChild(tasks, me, target, j)
      {
        if tasks[i].parent == Some(me) && tasks[i].state == Finished && !tasks[i].reaped
          && (target == 0 || tasks[i].id == target)
        {
          return Some(i);
        }
      }
      r := None;
    }

    /** One pass of waiting for a child process. */
    method TryWaitChild(target: nat) returns (r: WaitResult)
      requires Valid()
      modifies `tasks, `returned
      ensures Valid() && Continues(old(tasks), tasks)
      ensures r.Exited? <==> exists i: nat ::
                i < |old(tasks)| && IsFinishedChild(old(tasks), old(tasks)[current].id, target, i)
      ensures r.Exited? ==> Collected(old(tasks), tasks, old(returned), returned, r)
      ensures !r.Exited? ==> tasks == old(tasks) && returned == old(returned)
      ensures r.Pending? ==> exists i: nat :: i < |tasks| && IsWaitedFor(tasks, tasks[current].id, target, i)
      ensures r.Failed? ==> forall i: nat | i < |tasks| :: !IsWaitedFor(tasks, tasks[current].id, target, i)
      ensures r.Failed? ==> (r.error == NotChild <==> target > 0 && IsForeign(tasks, tasks[current].id, target))
    {
      var c := FindFinishedChild(target);
      if c.Some? {
        var id := tasks[c.value].id;
        var code := Reap(c.value);
        return Exited(id, code);
      }
      r := CheckChildren(target);
    }

    /** Whether there is a child left to wait for. */
    method CheckChildren(target: nat) returns (r: WaitResult)
      requires Valid()
      requires forall i: nat | i < |tasks| :: !IsFinishedChild(tasks, tasks[current].id, target, i)
      ensures !r.Exited?
      ensures r.Pending? ==> exists i: nat :: i < |tasks| && IsWaitedFor(tasks, tasks[current].id, target, i)
      ensures r.Failed? ==> forall i: nat | i < |tasks| :: !IsWaitedFor(tasks, tasks[current].id, target, i)
      ensures r.Failed? ==> (r.error == NotChild <==> target > 0 && IsForeign(tasks, tasks[current].id, target))
    {
      var me := tasks[current].id;
      if target > 0 {
        var t := FindTask(target);
        if t.None? { return Failed(NoChild); }
        if tasks[t.value].parent != Some(me) { return Failed(NotChild); }
        if tasks[t.value].state == Finished && tasks[t.value].reaped { return Failed(NoChild); }
        assert IsWaitedFor(tasks, me, target, t.value);
        return Pending;
      }
      for i := 0 to |tasks|
        invariant forall j: nat | j < i :: !IsWaitedFor(tasks, me, 0, j)
      {
        if tasks[i].parent == Some(me) && !(tasks[i].state == Finished && tasks[i].reaped) {
          assert IsWaitedFor(tasks, me, 0, i);
          return Pending;
        }
      }
      r := Failed(NoChild);
    }

    /** One pass of waiting for a thread of the caller's process. */
    method TryWaitThread(thread: nat) returns (r: WaitResult)
      requires Valid()
      modifies `tasks, `returned
      ensures Valid() && Continues(old(tasks), tasks)
      ensures r.Exited? ==> r.id == thread && Collected(old(tasks), tasks, old(returned), returned, r)
      ensures !r.Exited? ==> tasks == old(tasks) && returned == old(returned)
      ensures (forall i | 0 <= i < |old(tasks)| :: old(tasks)[i].id != thread) ==> r == Failed(NoChild)
      ensures forall i | 0 <= i < |old(tasks)| && old(tasks)[i].id == thread ::
                && (r == Failed(NotChild) <==> !SameProcess(old(tasks)[i], old(tasks)[current]))
                && (r == Pending <==> SameProcess(old(tasks)[i], old(tasks)[current])
                                      && old(tasks)[i].state != Finished)
                && (r.Exited? <==> SameProcess(old(tasks)[i], old(tasks)[current]) && old(tasks)[i].state == Finished
                                   && !old(tasks)[i].reaped)
                && (r.Exited? ==> r.code == old(tasks)[i].exitCode)
    {
      var me := tasks[current];
      var leader := LeaderOf(me);
      var t := FindTask(thread);
      if t.None? { return Failed(NoChild); }
      var i := t.value;
      if tasks[i].leader != Some(leader) { return Failed(NotChild); }
      if tasks[i].state == Finished {
        if tasks[i].reaped { return Failed(NoChild); }
        var code := Reap(i);
        return Exited(thread, code);
      }
      r := Pending;
    }
  }

  /** The task is a thread of the process that the other one leads. */
  predicate LedBy(t: Task, leader: Task) {
    leader.leader.None? && t.leader == Some(leader.id)
  }

  /** The task is a thread of the process that the caller belongs to, as its leader or as another thread. */
  predicate SameProcess(t: Task, caller: Task) {
    t.leader.Some? && (LedBy(t, caller) || t.leader == caller.leader)
  }

  function Aborted(tasks: seq<Task>, current: nat): seq<Task>
    requires current < |tasks|
  {
    tasks[current := tasks[current].(exitCode := -1, state := Finished)]
  }

  /** The task that leads the task's process. */
  function LeaderOf(t: Task): nat {
    if t.leader.Some? then t.leader.value else t.id
  }

  /** The task exists and is not a child of me. */
  predicate IsForeign(tasks: seq<Task>, me: nat, target: nat) {
    exists i | 0 <= i < |tasks| :: tasks[i].id == target && tasks[i].parent != Some(me)
  }

  predicate IsFinishedChild(tasks: seq<Task>, me: nat, target: nat, i: nat) {
    && i < |tasks| && tasks[i].parent == Some(me) && tasks[i].state == Finished && !tasks[i].reaped
    && (target == 0 || tasks[i].id == target)
  }

  /** A child whose exit code has not been taken. */
  predicate IsWaitedFor(tasks: seq<Task>, me: nat, target: nat, i: nat) {
    && i < |tasks| && tasks[i].parent == Some(me) && !(tasks[i].state == Finished && tasks[i].reaped)
    && (target == 0 || tasks[i].id == target)
  }

  /** The exit code of one finished task was handed out, for the first time. */
  ghost predicate Collected(before: seq<Task>, after: seq<Task>, returned: seq<nat>,
                            returned': seq<nat>, r: WaitResult) {
    && r.Exited? && |returned'| == |returned| + 1 && returned' == returned + [returned'[|returned|]]
    && var i := returned'[|returned|];
       i !in returned && i < |before| && before[i].state == Finished && !before[i].reaped
       && r == Exited(before[i].id, before[i].exitCode) && after == before[i := before[i].(reaped := true)]
  }

  // ---------------------------------------------------------------
  // Runs
  // ---------------------------------------------------------------

  /** What a running system does to the table; the timer tick carries the time. */
  datatype Op =
    | Yield
    | Tick(now: nat)
    | Spawn(parent: Option<nat>, leader: Option<nat>)
    | Sleep(wakeAt: nat)
    | Wakeup(id: nat)

  function Switches(ops: seq<Op>): nat {
    if ops == [] then 0
    else Switches(ops[..|ops| - 1]) + if ops[|ops| - 1].Yield? || ops[|ops| - 1].Tick? then 1 else 0
  }

  function Spawns(ops: seq<Op>): nat {
    if ops == [] then 0 else Spawns(ops[..|ops| - 1]) + if ops[|ops| - 1].Spawn? then 1 else 0
  }

  lemma ContinuesTrans(a: seq<Task>, b: seq<Task>, c: seq<Task>)
    requires Continues(a, b) && Continues(b, c)
    ensures Continues(a, c)
  {
  }

  /** A ready task runs now, or the task that runs is closer to it. */
  ghost predicate Advanced(before: seq<Task>, after: seq<Task>, was: nat, now: nat, k: nat)
    requires was < |before| && now < |after| && k < |before| == |after|
  {
    IsReady(before, k) ==> now == k || (IsReady(after, k) && Distance(now, k, |after|) < Distance(was, k, |before|))
  }

  method SwitchOnce(t: TaskTable, ghost k: nat)
    requires t.Valid() && k < |t.tasks|
    modifies t`tasks, t`current
    ensures t.Valid() && Continues(old(t.tasks), t.tasks) && |t.tasks| == |old(t.tasks)|
    ensures Advanced(old(t.tasks), t.tasks, old(t.current), t.current, k)
  {
    ghost var chosen := t.YieldNow();
    if IsReady(old(t.tasks), k) && t.current != k { SelectCloser(old(t.tasks), old(t.current), chosen.value, k); }
  }

  method TickOnce(t: TaskTable, now: nat, ghost k: nat)
    requires t.Valid() && k < |t.tasks|
    modifies t`tasks, t`current
    ensures t.Valid() && Continues(old(t.tasks), t.tasks) && |t.tasks| == |old(t.tasks)|
    ensures Advanced(old(t.tasks), t.tasks, old(t.current), t.current, k)
  {
    ghost var chosen, woken := t.Preempt(now);
    if IsReady(old(t.tasks), k) && t.current != k {
      assert woken[k] == old(t.tasks)[k];
      assert chosen.Some? || IsReady(t.tasks, k);
      SelectCloser(woken, old(t.current), chosen.value, k);
    }
  }

  /** One operation: a ready task runs now, or stays ready and a switch brings it closer. */
  method Do(t: TaskTable, op: Op, ghost k: nat)
    requires t.Valid() && k < |t.tasks|
    modifies t
    ensures t.Valid() && Continues(old(t.tasks), t.tasks)
    ensures |t.tasks| == |old(t.tasks)| + if op.Spawn? then 1 else 0
    ensures IsReady(old(t.tasks), k) ==>
            || ((op.Yield? || op.Tick?) && t.current == k)
            || (&& IsReady(t.tasks, k)
                && Distance(t.current, k, |t.tasks|) + (if op.Yield? || op.Tick? then 1 else 0)
                   <= Distance(old(t.current), k, |old(t.tasks)|) + if op.Spawn? then 1 else 0)
  {
    match op {
      case Yield => SwitchOnce(t, k);
      case Tick(now) => TickOnce(t, now, k);
      case Spawn(parent, leader) =>
        SpawnFarther(t.current, k, |t.tasks|);
        var id := t.Spawn(parent, leader);
      case Sleep(wakeAt) =>
        if t.tasks[t.current].state == Running { t.SetCurrentSleeping(wakeAt); }
      case Wakeup(id) => t.WakeTask(id);
    }
  }

  /**
   No starvation: whatever tasks do, a ready task runs within as many switches as there are tasks, and one more for
   every task that is spawned meanwhile. The trace lists the current task after each operation.
   */
  method Run(t: TaskTable, ops: seq<Op>, ghost k: nat) returns (ghost trace: seq<nat>)
    requires t.Valid() && IsReady(t.tasks, k)
    modifies t
    ensures t.Valid() && Continues(old(t.tasks), t.tasks)
    ensures |trace| == |ops| && (ops != [] ==> trace[|ops| - 1] == t.current)
    ensures Switches(ops) >= |old(t.tasks)| + Spawns(ops) ==> k in trace
  {
    trace := [];
    ghost var n := |t.tasks|;
    for i := 0 to |ops|
      invariant t.Valid() && Continues(old(t.tasks), t.tasks)
      invariant |trace| == i && (i > 0 ==> trace[i - 1] == t.current)
      invariant k !in trace ==> IsReady(t.tasks, k)
                                && Distance(t.current, k, |t.tasks|) + Switches(ops[..i]) <= n + Spawns(ops[..i])
    {
      ghost var was := t.tasks;
      Do(t, ops[i], k);
      ContinuesTrans(old(t.tasks), was, t.tasks);
      assert ops[..i + 1][..i] == ops[..i];
      trace := trace + [t.current];
    }
    assert ops[..|ops|] == ops;
  }
}

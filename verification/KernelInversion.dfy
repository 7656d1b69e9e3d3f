/**
 * Runs from the start of the kernel after which a mutex does not do what it is for: a change of the
 * owner's priority undoes the inheritance, and a waiter that somebody else resumes takes itself
 * for the owner.
 */
module KernelInversion {
  import opened Base
  import opened Lists
  import opened KernelState
  import opened KernelMutex
  import opened KernelRaces

  // ---- A new thread becomes ready ----

  function NewThread(prio: nat, tick: u32): Thread {
    Thread(Ready, prio, prio, tick, tick, Ok)
  }

  /** The thread stands last in the ready list of its priority. */
  function Joined(s: Sys, t: Tid, prio: nat, tick: u32): Sys
    requires prio < |s.ready|
  {
    s.(threads := s.threads[t := NewThread(prio, tick)], ready := s.ready[prio := s.ready[prio] + [t]])
  }

  function ResumeSteps(t: Tid): seq<Event> {
    [Do(ResumeTest(t))] + ([Do(ResumeUnlink(t))] + ([Do(ResumeInsert(t))] + []))
  }

  /** rt_thread_create and rt_thread_startup, the latter ending in a resume. */
  function JoinSteps(t: Tid, prio: nat, tick: u32): seq<Event> {
    [Create(t, prio, tick)] + ([Startup(t)] + ResumeSteps(t))
  }

  lemma Join(s: Sys, a: seq<Event>, u: Sys, b: seq<Event>, v: Sys)
    requires RunsTo(s, a, u) && RunsTo(u, b, v)
    ensures RunsTo(s, a + b, v)
    decreases |a|
  {
    hide Inv, Next, Undisturbed, Permitted, RunsTo;
    if a == [] {
      assert a + b == b;
      NoStep(s, u);
    } else {
      FirstStep(s, a, u);
      Join(Next(s, a[0]), a[1..], u, b, v);
      Ahead(s, a[0], a[1..] + b, v);
      assert [a[0]] + (a[1..] + b) == a + b;
    }
  }

  lemma NoStep(s: Sys, u: Sys)
    requires RunsTo(s, [], u)
    ensures u == s
  {
  }

  lemma FirstStep(s: Sys, a: seq<Event>, u: Sys)
    requires a != [] && RunsTo(s, a, u)
    ensures Inv(s) && Permitted(s, a[0]) && Undisturbed(s, a[0]) && RunsTo(Next(s, a[0]), a[1..], u)
  {
    StepInv(s, a[0]);
    hide Inv, Next, Undisturbed, Permitted;
  }

  /** A suspended thread that is in no list, or in one, is resumed without disturbance. */
  lemma ResumeRun(s: Sys, t: Tid)
    requires Inv(s) && t in s.threads && s.threads[t].stat == Suspend && Deleting(t) !in s.calls
    ensures s.threads[t].prio < |s.ready|
    ensures RunsTo(s, ResumeSteps(t), ResumeThread(s, t))
  {
    hide Inv, RunsTo, Unlink;
    KnownPriority(s, t);
    var (e1, e2, e3) := (ResumeTest(t), ResumeUnlink(t), ResumeInsert(t));
    var s1 := Begun(s, Resuming(t));
    var s2 := Onward(Unlink(s1, t), Resuming(t), Unlinked(t));
    assert Permitted(s, Do(e1)) && Done(s, e1) == s1;
    PartStep(s, e1);
    PartStep(s1, e2);
    UnlinkedOff(s1, t);
    var u := ResumeThread(s, t);
    assert Done(s2, e3) == u by { UnlinkEnds(s, t); }
    PartStep(s2, e3);
    hide Permitted, Undisturbed, Done, ResumeThread, PartUndisturbed, PartPermitted;
    Stay(u);
    Ahead(s2, Do(e3), [], u);
    Ahead(s1, Do(e2), [Do(e3)] + [], u);
    Ahead(s, Do(e1), [Do(e2)] + ([Do(e3)] + []), u);
  }

  lemma UnlinkedOff(s: Sys, t: Tid)
    ensures Off(Unlink(s, t), t)
  {
    forall p | 0 <= p < |s.ready| ensures t !in Without(s.ready[p], t) { WithoutMembers(s.ready[p], t); }
    forall q <- s.queues ensures t !in Without(s.queues[q], t) { WithoutMembers(s.queues[q], t); }
  }

  lemma UnlinkEnds(s: Sys, t: Tid)
    requires t in s.threads && s.threads[t].prio < |s.ready| && s.threads[t].stat == Suspend
    ensures var s2 := Onward(Unlink(Begun(s, Resuming(t)), t), Resuming(t), Unlinked(t));
            t in s2.threads && s2.threads[t].prio < |s2.ready| && Done(s2, ResumeInsert(t)) == ResumeThread(s, t)
  {
    var s2 := Onward(Unlink(Begun(s, Resuming(t)), t), Resuming(t), Unlinked(t));
    assert s2.calls - multiset{Unlinked(t)} == s.calls;
    assert Unlink(Begun(s, Resuming(t)), t) == Begun(Unlink(s, t), Resuming(t));
  }

  lemma JoinRun(s: Sys, t: Tid, prio: nat, tick: u32)
    requires Inv(s) && t !in s.threads && prio < |s.ready| && Deleting(t) !in s.calls
    ensures RunsTo(s, JoinSteps(t, prio, tick), Joined(s, t, prio, tick))
  {
    hide Inv, RunsTo, Off, ResumeSteps;
    var (create, start) := (Create(t, prio, tick), Startup(t));
    Started(s, t, prio, tick);
    var u := Next(s, create);
    var v := Next(u, start);
    assert v == s.(threads := s.threads[t := NewThread(prio, tick).(stat := Suspend)]);
    ResumeRun(v, t);
    assert ResumeThread(v, t) == Joined(s, t, prio, tick) by { UnlinkOff(v, t); }
    hide Next, Permitted, Undisturbed, ResumeThread, Joined;
    Ahead(u, start, ResumeSteps(t), Joined(s, t, prio, tick));
    Ahead(s, create, [start] + ResumeSteps(t), Joined(s, t, prio, tick));
  }

  lemma One(s: Sys, e: Event)
    requires Inv(s) && Permitted(s, e) && Undisturbed(s, e)
    ensures RunsTo(s, [e], Next(s, e))
  {
    hide Inv, Next, Undisturbed, Permitted, RunsTo;
    StepInv(s, e);
    Stay(Next(s, e));
    Ahead(s, e, [], Next(s, e));
    assert [e] + [] == [e];
  }

  // ---- The run up to a blocked take ----

  /** Thread 0 of priority 2 owns the mutex. */
  function Held(tick: u32): Sys {
    Sys(map[0 := NewThread(2, tick)], [[], [], [0]], map[MUTEX := []], 0, 0, Mutex(0, Some(0), 2, 1), 1, multiset{})
  }

  /** Thread 1 of priority 0 waits for the mutex, and its owner has inherited that priority. */
  function Blocked(tick: u32): Sys {
    Sys(map[0 := NewThread(2, tick).(prio := 0), 1 := NewThread(0, tick).(stat := Suspend)],
        [[0], [], []], map[MUTEX := [1]], 1, 0, Mutex(0, Some(0), 2, 1), 1, multiset{})
  }

  lemma HeldRun(tick: u32)
    ensures RunsTo(Boot(3, {}), JoinSteps(0, 2, tick) + [Take(true)], Held(tick))
  {
    hide Inv, RunsTo, JoinSteps;
    var s := Boot(3, {});
    var u := Joined(s, 0, 2, tick);
    assert s == Sys(map[], [[], [], []], map[MUTEX := []], 0, 0, Mutex(1, None, 0xFF, 0), 0, multiset{});
    Shorter(0, 1);
    assert u == s.(threads := map[0 := NewThread(2, tick)], ready := [[], [], [0]]);
    JoinRun(s, 0, 2, tick);
    RunsToInv(s, JoinSteps(0, 2, tick), u);
    assert Next(u, Take(true)) == Held(tick);
    One(u, Take(true));
    Join(s, JoinSteps(0, 2, tick), u, [Take(true)], Held(tick));
  }

  lemma RunsToInv(s: Sys, es: seq<Event>, u: Sys)
    requires RunsTo(s, es, u)
    ensures Inv(u)
  {
  }

  lemma BlockedRun(tick: u32)
    requires Inv(Held(tick))
    ensures RunsTo(Held(tick), JoinSteps(1, 0, tick) + ([Reschedule] + [Take(true)]), Blocked(tick))
  {
    hide Inv, RunsTo, JoinSteps, MutexTake, Schedule;
    var s := Held(tick);
    var u := Joined(s, 1, 0, tick);
    var v := u.(current := 1);
    JoinRun(s, 1, 0, tick);
    RunsToInv(s, JoinSteps(1, 0, tick), u);
    RescheduleStep(u);
    assert Schedule(u) == v by { PicksFirst(u); }
    assert Running(v);
    TakeBlocks(tick);
    One(u, Reschedule);
    One(v, Take(true));
    hide Next, Joined;
    Join(u, [Reschedule], v, [Take(true)], Blocked(tick));
    Join(s, JoinSteps(1, 0, tick), u, [Reschedule] + [Take(true)], Blocked(tick));
  }

  lemma PicksFirst(s: Sys)
    requires |s.ready| > 0 && s.ready[0] != [] && s.lockNest == 0
    ensures Schedule(s) == s.(current := s.ready[0][0])
  {
  }

  /** Short lists without a thread. */
  lemma Shorter(x: Tid, y: Tid)
    requires x != y
    ensures Without([], x) == [] && Without([x], x) == [] && Without([y], x) == [y]
    ensures Without([x, y], x) == [y] && Without([y, x], x) == [y]
    ensures [] + [x] == [x] && [y] + [x] == [y, x] && Inserted([], 0, x) == [x]
  {
    assert [x, y][1..] == [y] && [y, x][1..] == [x] && [x][1..] == [] && [y][1..] == [];
    InsertedAt([], 0, x, 0);
  }

  lemma TakeBlocks(tick: u32)
    ensures var v := Joined(Held(tick), 1, 0, tick).(current := 1);
            Running(v) && MUTEX in v.queues && MutexTake(v, true) == Blocked(tick)
  {
    hide Without, Inserted;
    var v := Joined(Held(tick), 1, 0, tick).(current := 1);
    var s0 := SetThread(v, 1, v.threads[1].(error := Ok));
    Shorter(0, 1);
    Shorter(1, 0);
    assert v.ready == [[1], [], [0]];
    assert s0 == v;
    var b := ChangePrio(v, 0, 0);
    assert Unlink(v, 0).ready == [[1], [], []];
    assert b.ready == [[1, 0], [], []];
    assert b.queues == map[MUTEX := []];
    assert Unlink(b, 1).ready == [[0], [], []];
    var w := SuspendOn(b, MUTEX, 1, true);
    assert w.ready == [[0], [], []];
    assert w.queues == map[MUTEX := [1]];
  }

  /** From the start: thread 0 takes the mutex, and thread 1 is made, becomes ready and blocks on it. */
  function BlockedSteps(tick: u32): seq<Event> {
    (JoinSteps(0, 2, tick) + [Take(true)]) + (JoinSteps(1, 0, tick) + ([Reschedule] + [Take(true)]))
  }

  lemma BlockedReached(tick: u32)
    ensures RunsTo(Boot(3, {}), BlockedSteps(tick), Blocked(tick)) && Inv(Blocked(tick))
  {
    hide Inv, RunsTo, JoinSteps, Held, Blocked, Boot;
    var (a, b) := (JoinSteps(0, 2, tick) + [Take(true)], JoinSteps(1, 0, tick) + ([Reschedule] + [Take(true)]));
    HeldRun(tick);
    RunsToInv(Boot(3, {}), a, Held(tick));
    BlockedRun(tick);
    Join(Boot(3, {}), a, Held(tick), b, Blocked(tick));
    RunsToInv(Held(tick), b, Blocked(tick));
  }

  // ---- A change of the owner's priority ----

  /**
   * A thread of priority 1 becomes ready, and the owner gets its old priority 2 back by
   * RT_THREAD_CTRL_CHANGE_PRIORITY: the scheduler selects priority 1 while a thread of priority 0 waits.
   */
  lemma PriorityInverts(tick: u32)
    ensures var u := Joined(Blocked(tick), 2, 1, tick);
            && RunsTo(Boot(3, {}), BlockedSteps(tick) + JoinSteps(2, 1, tick), u) && Inv(u)
            && Permitted(u, SetPriority(0, 2)) && !Undisturbed(u, SetPriority(0, 2))
            && var v := Next(u, SetPriority(0, 2));
               && Owner(v, 0) && 0 in v.threads && v.threads[0].stat == Ready && Waiter(v, 1)
               && Schedule(v).current == 2 && PrioOf(v, 2) > PrioOf(v, 1) && !Uninverted(v)
  {
    hide Inv, RunsTo, JoinSteps, BlockedSteps, Boot, Undisturbed;
    var (s, u) := (Blocked(tick), Joined(Blocked(tick), 2, 1, tick));
    BlockedReached(tick);
    JoinRun(s, 2, 1, tick);
    Join(Boot(3, {}), BlockedSteps(tick), s, JoinSteps(2, 1, tick), u);
    RunsToInv(s, JoinSteps(2, 1, tick), u);
    StepInv(u, SetPriority(0, 2));
    PriorityIs(u, SetPriority(0, 2));
    Overtakes(tick);
    var v := ChangePrio(u, 0, 2);
    if Inv(v) {
      NotInverted(v);
    }
  }

  lemma Overtakes(tick: u32)
    ensures var v := ChangePrio(Joined(Blocked(tick), 2, 1, tick), 0, 2);
            && Owner(v, 0) && 0 in v.threads && v.threads[0].stat == Ready && Waiter(v, 1) && v.lockNest == 0
            && Schedule(v).current == 2 && PrioOf(v, 2) == 1 && PrioOf(v, 1) == 0 && PrioOf(v, 0) == 2
            && !Uninverted(v)
  {
    hide Without;
    var u := Joined(Blocked(tick), 2, 1, tick);
    Shorter(2, 0);
    Shorter(0, 2);
    Shorter(0, 1);
    assert u.ready == [[0], [2], []];
    var v := ChangePrio(u, 0, 2);
    assert Unlink(u, 0).ready == [[], [2], []] && v.ready == [[], [2], [0]];
    assert v.queues == map[MUTEX := [1]];
    assert TopFrom(v, 0) == Some(1);
  }

  // ---- A waiter that somebody else resumes ----

  /**
   * A waiter leaves the wait list with the error code of success unless the step is its timeout; it
   * then owns the mutex exactly if the step is a release.
   */
  lemma WaiterLeaves(s: Sys, e: Event, w: Tid)
    requires Inv(s) && Permitted(s, e) && Waiter(s, w) && w in s.threads && s.threads[w].error == Ok
    requires !Waiter(Next(s, e), w)
    ensures w in Next(s, e).threads && (Next(s, e).threads[w].error == Ok <==> e != Timeout(w))
    ensures Owner(Next(s, e), w) <==> e.Release?
  {
    hide Inv, Next, Shrinks;
    WaiterOnly(s, w);
    if e.Release? {
      ReleaseHandsOver(s, w);
    } else if e.Take? {
      TakeKeepsWaiters(s, e.wait, w);
      UnfoldTake(s, e);
    } else if e.SetPriority? {
      PriorityIs(s, e);
      PriorityState(s, e.t, e.prio);
    } else {
      OtherSteps(s, e);
      OtherLeaves(s, e, w);
    }
  }

  lemma WaiterOnly(s: Sys, w: Tid)
    requires Inv(s) && Waiter(s, w)
    ensures !Owner(s, w) && s.mutex.owner.Some?
  {
    hide Agree;
  }

  lemma ReleaseHandsOver(s: Sys, w: Tid)
    requires Inv(s) && Permitted(s, Release) && Waiter(s, w) && w in s.threads && !Waiter(Next(s, Release), w)
    ensures var u := Next(s, Release); Owner(u, w) && w in u.threads && u.threads[w].error == s.threads[w].error
  {
    hide AgreeBut, SortedByPrio, MutexRelease;
    if Owner(s, s.current) && (s.mutex.hold + 255) % 256 == 0 {
      OutermostRelease(s);
      assert forall x <- s.queues[MUTEX] :: x == s.queues[MUTEX][0] || x in s.queues[MUTEX][1..];
    } else {
      InnerRelease(s);
    }
  }

  lemma InnerRelease(s: Sys)
    requires Inv(s) && Permitted(s, Release) && !(Owner(s, s.current) && (s.mutex.hold + 255) % 256 == 0)
    ensures Next(s, Release).queues == s.queues
  {
    hide AgreeBut, SortedByPrio, ChangePrio, ResumeThread;
  }

  lemma TakeKeepsWaiters(s: Sys, wait: bool, w: Tid)
    requires Inv(s) && Running(s) && Waiter(s, w)
    ensures Waiter(MutexTake(s, wait), w)
  {
    hide AgreeBut, SortedByPrio, SuspendOn, ChangePrio, Inserted;
    if s.mutex.owner.Some? && !Owner(s, s.current) && wait {
      BlockedTakeState(s);
      InsertedMembers(s.queues[MUTEX], Place(s, s.queues[MUTEX], s.threads[s.current].prio), s.current);
    }
  }

  lemma OtherLeaves(s: Sys, e: Event, w: Tid)
    requires Inv(s) && Permitted(s, e) && Waiter(s, w) && w in s.threads && s.threads[w].error == Ok
    requires !e.Take? && !e.Release? && !e.SetPriority? && !Waiter(Next(s, e), w)
    requires Shrinks(s, Next(s, e), Moved(s, e))
    ensures Next(s, e).mutex == s.mutex && w in Next(s, e).threads
    ensures Next(s, e).threads[w].error == Ok <==> e != Timeout(w)
  {
    hide Inv, Next;
    WithoutMembers(s.queues[MUTEX], Moved(s, e));
    ErrorKept(s, e, w);
  }

  lemma ErrorKept(s: Sys, e: Event, w: Tid)
    requires Inv(s) && Permitted(s, e) && w in s.threads && !e.Take? && !e.Release?
    ensures w in Next(s, e).threads
    ensures Next(s, e).threads[w].error == if e == Timeout(w) then Timedout else s.threads[w].error
  {
    hide AgreeBut, SortedByPrio, Done, PartPermitted;
    if e.Do? {
      DoIs(s, e.part);
      DoneError(s, e.part, w);
    }
  }

  lemma DoneError(s: Sys, p: Part, w: Tid)
    requires PartPermitted(s, p) && s.threads[p.t].prio < |s.ready| && w in s.threads
    ensures w in Done(s, p).threads && Done(s, p).threads[w].error == s.threads[w].error
  {
  }

  /** The waiter is resumed by the owner, say, which then yields to it. */
  function ThirdPartySteps(): seq<Event> {
    [Reschedule] + (ResumeSteps(1) + ([Yield] + [Reschedule]))
  }

  /** The mutex is still thread 0's; thread 1 runs. */
  function Mistaken(tick: u32): Sys {
    Sys(map[0 := NewThread(2, tick).(prio := 0), 1 := NewThread(0, tick)],
        [[1, 0], [], []], map[MUTEX := []], 1, 0, Mutex(0, Some(0), 2, 1), 1, multiset{})
  }

  lemma MistakenRun(tick: u32)
    requires Inv(Blocked(tick))
    ensures RunsTo(Blocked(tick), ThirdPartySteps(), Mistaken(tick))
  {
    hide Inv, RunsTo, ResumeSteps, Without, Schedule;
    var s := Blocked(tick);
    var s1 := s.(current := 0);
    var s2 := Mistaken(tick).(current := 0, ready := [[0, 1], [], []]);
    var s3 := s2.(ready := [[1, 0], [], []]);
    PicksFirst(s);
    RescheduleStep(s);
    One(s, Reschedule);
    ResumesWaiter(s1, s2);
    ResumeRun(s1, 1);
    RunsToInv(s1, ResumeSteps(1), s2);
    Yields(s2, s3);
    One(s2, Yield);
    StepInv(s2, Yield);
    PicksFirst(s3);
    RescheduleStep(s3);
    One(s3, Reschedule);
    hide Next, Permitted, Undisturbed;
    Join(s2, [Yield], s3, [Reschedule], Mistaken(tick));
    Join(s1, ResumeSteps(1), s2, [Yield] + [Reschedule], Mistaken(tick));
    Join(s, [Reschedule], s1, ResumeSteps(1) + ([Yield] + [Reschedule]), Mistaken(tick));
  }

  lemma ResumesWaiter(s: Sys, u: Sys)
    requires 1 in s.threads && s.threads[1].stat == Suspend && s.threads[1].prio == 0
    requires s.ready == [[0], [], []] && s.queues == map[MUTEX := [1]]
    requires u == s.(threads := s.threads[1 := s.threads[1].(stat := Ready)],
                     ready := [[0, 1], [], []], queues := map[MUTEX := []])
    ensures ResumeThread(s, 1) == u
  {
    hide Without;
    Shorter(1, 0);
    assert Unlink(s, 1).ready == [[0], [], []] && Unlink(s, 1).queues == map[MUTEX := []];
    assert ResumeThread(s, 1).ready == u.ready;
  }

  lemma Yields(s: Sys, u: Sys)
    requires s.current == 0 && 0 in s.threads && s.threads[0].stat == Ready && s.threads[0].prio == 0
    requires s.ready == [[0, 1], [], []] && s.queues == map[MUTEX := []] && u == s.(ready := [[1, 0], [], []])
    ensures YieldThread(s) == u
  {
    hide Without;
    Shorter(0, 1);
    assert Unlink(s, 0).ready == [[1], [], []] && Unlink(s, 0).queues == map[MUTEX := []];
    assert YieldThread(s).ready == u.ready;
  }

  /**
   * The waiter that comes to run behind its take has the error code of success, as if it owned the
   * mutex, while thread 0 does; its release is refused.
   */
  lemma ThirdPartyResumes(tick: u32)
    ensures var u := Mistaken(tick);
            && RunsTo(Boot(3, {}), BlockedSteps(tick) + ThirdPartySteps(), u) && Inv(u)
            && Running(u) && u.current == 1 && u.threads[1].error == Ok && Owner(u, 0)
            && Next(u, Release) == u.(threads := u.threads[1 := u.threads[1].(error := Failed)])
  {
    hide Inv, RunsTo, BlockedSteps, Boot, ThirdPartySteps;
    BlockedReached(tick);
    MistakenRun(tick);
    RunsToInv(Blocked(tick), ThirdPartySteps(), Mistaken(tick));
    Join(Boot(3, {}), BlockedSteps(tick), Blocked(tick), ThirdPartySteps(), Mistaken(tick));
  }
}

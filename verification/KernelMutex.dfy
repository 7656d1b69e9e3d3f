/** Priority inheritance of one mutex with the PRIO flag, over all runs of the kernel. */
module KernelMutex {
  import opened Base
  import opened Lists
  import opened KernelState

  // ---- Events ----

  /** The parts of rt_thread_suspend, rt_thread_resume and rt_thread_delete. */
  datatype Part =
    | SuspendTest(t: Tid)
    | SuspendRegion(t: Tid)
    | ResumeTest(t: Tid)
    | ResumeUnlink(t: Tid)
    | ResumeInsert(t: Tid)
    | DeleteRemove(t: Tid)
    | DeleteClose(t: Tid)

  datatype Event =
    | Create(t: Tid, prio: nat, tick: u32)
    | Startup(t: Tid)
    | Do(part: Part)
    | Exit
    | Wait(q: nat, byPrio: bool)
    | Wake(q: nat)
    | Timeout(t: Tid)
    | Yield
    | Tick
    | SetPriority(t: Tid, prio: nat)
    | Take(wait: bool)
    | Release
    | Reschedule
    | EnterCritical
    | ExitCritical

  ghost predicate Waiter(s: Sys, t: Tid) {
    MUTEX in s.queues && t in s.queues[MUTEX]
  }

  predicate Owner(s: Sys, t: Tid) {
    s.mutex.owner == Some(t)
  }

  /** The later parts of a call follow its earlier ones; a mutex owner is not deleted. */
  ghost predicate PartPermitted(s: Sys, p: Part) {
    && p.t in s.threads
    && match p
       case SuspendRegion(t) => Suspending(t) in s.calls
       case ResumeUnlink(t) => Resuming(t) in s.calls
       case ResumeInsert(t) => Unlinked(t) in s.calls
       case DeleteRemove(t) => (s.threads[t].stat == Ready || s.threads[t].stat == Suspend) && !Owner(s, t)
       case DeleteClose(t) => Deleting(t) in s.calls
       case _ => true
  }

  /** What the kernel asks of its callers; the owner of the mutex is neither deleted nor exits. */
  ghost predicate Permitted(s: Sys, e: Event) {
    match e
    case Create(t, prio, tick) => t !in s.threads && prio < |s.ready|
    case Startup(t) => t in s.threads && s.threads[t].stat == Init
    case Do(p) => PartPermitted(s, p)
    case Exit => Running(s) && !Owner(s, s.current)
    case Wait(q, _) => Running(s) && q in s.queues && q != MUTEX
    case Wake(q) => q in s.queues && q != MUTEX && s.queues[q] != []
    case Timeout(t) => t in s.threads && s.threads[t].stat == Suspend
    case Yield => s.current in s.threads
    case Tick => s.current in s.threads
    case SetPriority(t, prio) => t in s.threads && prio < |s.ready|
    case Take(_) => Running(s)
    case Release => Running(s)
    case Reschedule => true
    case EnterCritical => true
    case ExitCritical => true
  }

  /** The thread is in no list. */
  ghost predicate Off(s: Sys, t: Tid) {
    (forall p :: 0 <= p < |s.ready| ==> t !in s.ready[p]) && forall q <- s.queues :: t !in s.queues[q]
  }

  /**
   * No other call has come between the parts of one: a thread to be unlinked has not been made
   * ready since the test, and one to be inserted, or closed, is in no list.
   */
  ghost predicate PartUndisturbed(s: Sys, p: Part)
    requires p.t in s.threads
  {
    match p
    case ResumeUnlink(t) => s.threads[t].stat != Ready || Deleting(t) in s.calls
    case ResumeInsert(t) => Off(s, t)
    case DeleteClose(t) => Off(s, t)
    case _ => true
  }

  /**
   * With priority p the owner is still at least as urgent as when it took the mutex and as each
   * waiter, and a waiter still stands at its place.
   */
  ghost predicate Fits(s: Sys, t: Tid, p: nat)
    requires MutexInv(s)
  {
    var xs := s.queues[MUTEX];
    && (Owner(s, t) ==> p <= s.mutex.original && forall w <- xs :: p <= PrioOf(s, w))
    && forall i :: 0 <= i < |xs| && xs[i] == t ==>
         && (s.mutex.owner.Some? ==> PrioOf(s, s.mutex.owner.value) <= p)
         && (forall j :: 0 <= j < i ==> PrioOf(s, xs[j]) <= p) && (forall j :: i < j < |xs| ==> p <= PrioOf(s, xs[j]))
  }

  ghost predicate Undisturbed(s: Sys, e: Event)
    requires Inv(s) && Permitted(s, e)
  {
    match e
    case Do(p) => PartUndisturbed(s, p)
    case SetPriority(t, p) => Fits(s, t, p)
    case _ => true
  }

  /** A call goes on from one part to the next. */
  function Onward(s: Sys, was: Call, now: Call): Sys {
    s.(calls := s.calls - multiset{was} + multiset{now})
  }

  function Over(s: Sys, c: Call): Sys {
    s.(calls := s.calls - multiset{c})
  }

  function Begun(s: Sys, c: Call): Sys {
    s.(calls := s.calls + multiset{c})
  }

  function Done(s: Sys, p: Part): Sys
    requires p.t in s.threads && s.threads[p.t].prio < |s.ready|
  {
    var t := p.t;
    match p
    case SuspendTest(_) => if s.threads[t].stat == Ready then Begun(s, Suspending(t)) else s
    case SuspendRegion(_) => Over(SuspendNow(s, t), Suspending(t))
    case ResumeTest(_) => if s.threads[t].stat == Suspend then Begun(s, Resuming(t)) else s
    case ResumeUnlink(_) => Onward(Unlink(s, t), Resuming(t), Unlinked(t))
    case ResumeInsert(_) => Over(InsertReady(s, t), Unlinked(t))
    case DeleteRemove(_) => Begun(Unlink(s, t), Deleting(t))
    case DeleteClose(_) => Over(SetThread(s, t, s.threads[t].(stat := Closed)), Deleting(t))
  }

  ghost function Next(s: Sys, e: Event): Sys
    requires Inv(s) && Permitted(s, e)
  {
    match e
    case Create(t, prio, tick) => SetThread(s, t, Thread(Init, prio, prio, tick, tick, Ok))
    case Startup(t) => StartThread(s, t)
    case Do(p) => Done(s, p)
    case Exit => CloseThread(s, s.current)
    case Wait(q, byPrio) => SuspendOn(s, q, s.current, byPrio)
    case Wake(q) => ResumeThread(s, s.queues[q][0])
    case Timeout(t) => TimeoutThread(s, t)
    case Yield => YieldThread(s)
    case Tick => TickSlice(s)
    case SetPriority(t, prio) => ChangePrio(s, t, prio)
    case Take(wait) => MutexTake(s, wait)
    case Release => MutexRelease(s)
    case Reschedule => Schedule(s)
    case EnterCritical => s.(lockNest := s.lockNest + 1)
    case ExitCritical => s.(lockNest := Less(s.lockNest))
  }

  // ---- Invariant ----

  ghost predicate SortedByPrio(s: Sys, xs: seq<Tid>) {
    forall i, j :: 0 <= i < j < |xs| ==> PrioOf(s, xs[i]) <= PrioOf(s, xs[j])
  }

  /** The waiters stand in order of urgency and the owner is at least as urgent as each of them. */
  ghost predicate MutexInv(s: Sys) {
    && MUTEX in s.queues
    && SortedByPrio(s, s.queues[MUTEX])
    && match s.mutex.owner
       case None => s.queues[MUTEX] == [] && s.mutex.value == 1 && s.mutex.hold == 0 && s.depth == 0
       case Some(o) =>
         && o in s.threads && o !in s.queues[MUTEX]
         && (s.threads[o].stat == Ready || s.threads[o].stat == Suspend)
         && s.mutex.value == 0 && s.depth >= 1 && s.mutex.hold == s.depth % 256
         && s.threads[o].prio <= s.mutex.original < |s.ready| && Deleting(o) !in s.calls
         && forall w <- s.queues[MUTEX] :: s.threads[o].prio <= PrioOf(s, w)
  }

  ghost predicate Inv(s: Sys) {
    Agree(s) && MutexInv(s)
  }

  /** The priority a thread has when it does not own the mutex. */
  function BasePriority(s: Sys, t: Tid): nat {
    if Owner(s, t) then s.mutex.original else PrioOf(s, t)
  }

  /** The priority is set by the event itself. */
  predicate Sets(e: Event, t: Tid) {
    (e.Create? || e.Startup? || e.SetPriority?) && e.t == t
  }

  // ---- Frames: what the mutex invariant depends on ----

  /** Steps that at most take t off the waiters and leave the priorities of owner and waiters alone. */
  ghost predicate Shrinks(s: Sys, u: Sys, t: Tid)
    requires MUTEX in s.queues
  {
    && u.mutex == s.mutex && u.depth == s.depth && |u.ready| == |s.ready|
    && MUTEX in u.queues
    && (u.queues[MUTEX] == s.queues[MUTEX] || u.queues[MUTEX] == Without(s.queues[MUTEX], t))
    && (forall x <- s.threads :: x in u.threads)
    && (forall x <- s.threads :: Owner(s, x) || Waiter(s, x) ==> u.threads[x].prio == s.threads[x].prio)
    && (forall x <- s.threads :: Owner(s, x) ==> u.threads[x].stat == Ready || u.threads[x].stat == Suspend)
    && (forall x <- s.threads :: Owner(s, x) && Deleting(x) in u.calls ==> Deleting(x) in s.calls)
  }

  lemma ShrinksMutexInv(s: Sys, u: Sys, t: Tid)
    requires Inv(s) && Shrinks(s, u, t)
    ensures MutexInv(u)
  {
    var (xs, ys) := (s.queues[MUTEX], u.queues[MUTEX]);
    assert forall x <- xs :: x in s.threads && Waiter(s, x);
    WithoutMembers(xs, t);
    WithoutSorted(s, u, xs, t);
  }

  lemma WithoutSorted(s: Sys, u: Sys, xs: seq<Tid>, t: Tid)
    requires SortedByPrio(s, xs) && forall x <- xs :: PrioOf(u, x) == PrioOf(s, x)
    ensures SortedByPrio(u, Without(xs, t))
  {
    var ys := Without(xs, t);
    forall i, j | 0 <= i < j < |ys|
      ensures PrioOf(u, ys[i]) <= PrioOf(u, ys[j])
    {
      OriginMonotone(xs, t, i, j);
    }
  }

  /** Inserting at the place found by the search keeps the waiters sorted. */
  lemma PlaceSorted(s: Sys, u: Sys, xs: seq<Tid>, t: Tid)
    requires SortedByPrio(s, xs)
    requires PrioOf(u, t) == PrioOf(s, t) && forall x <- xs :: PrioOf(u, x) == PrioOf(s, x)
    ensures SortedByPrio(u, Inserted(xs, Place(s, xs, PrioOf(s, t)), t))
  {
    hide PrioOf;
    var k := Place(s, xs, PrioOf(s, t));
    var ys := Inserted(xs, k, t);
    forall i, j | 0 <= i < j < |ys|
      ensures PrioOf(u, ys[i]) <= PrioOf(u, ys[j])
    {
      InsertedAt(xs, k, t, i);
      InsertedAt(xs, k, t, j);
      if i <= k < j {
        assert PrioOf(s, t) <= PrioOf(s, xs[k]) <= PrioOf(s, xs[j - 1]);
      }
    }
  }

  // ---- Every step keeps the invariant ----

  lemma CreateAgree(s: Sys, t: Tid, r: Thread)
    requires Agree(s) && t !in s.threads && r.stat == Init && r.prio < |s.ready| && r.initPrio < |s.ready|
    ensures Agree(SetThread(s, t, r))
  {
  }

  lemma TakeAgree(s: Sys, wait: bool)
    requires Inv(s) && Running(s)
    ensures Agree(MutexTake(s, wait))
  {
    hide ReadyBut, QueuesBut, SuspendOn, ChangePrio;
    var t := s.current;
    var s0 := SetThread(s, t, s.threads[t].(error := Ok));
    SameListsAgree(s, s0);
    SameListsAgree(s, MutexTake(s, false));
    var m := s.mutex;
    if m.owner == Some(t) || m.value > 0 || !wait || m.owner.None? {
      SameListsAgree(s, MutexTake(s, wait));
    } else {
      var o := m.owner.value;
      var p := s.threads[t].prio;
      ChangePrioAgree(s0, o, p);
      ChangePrioFrame(s0, o, p);
      var b := if p < s.threads[o].prio then ChangePrio(s0, o, p) else s0;
      SuspendOnAgree(b, MUTEX, t, true);
    }
  }

  lemma ReleaseAgree(s: Sys)
    requires Inv(s) && Running(s) && Permitted(s, Release)
    ensures Agree(Next(s, Release))
  {
    hide ReadyBut, QueuesBut, ChangePrio, ResumeThread;
    var (t, m) := (s.current, s.mutex);
    NotAWaiter(s);
    var u := MutexRelease(s);
    if !Owner(s, t) || (m.hold + 255) % 256 != 0 {
      SameListsAgree(s, u);
    } else {
      ChangePrioAgree(s, t, m.original);
      ChangePrioFrame(s, t, m.original);
      var s1 := if m.original != s.threads[t].prio then ChangePrio(s, t, m.original) else s;
      if s.queues[MUTEX] == [] {
        SameListsAgree(s1, u);
      } else {
        var w := s.queues[MUTEX][0];
        ResumeAgree(s1, w);
        SameListsAgree(ResumeThread(s1, w), u);
      }
    }
  }

  /** A running thread waits for nothing; waiters are known threads. */
  lemma NotAWaiter(s: Sys)
    requires Inv(s) && Running(s)
    ensures !Waiter(s, s.current)
    ensures forall x <- s.queues[MUTEX] :: x in s.threads && s.threads[x].prio < |s.ready| && x != s.current
  {
  }

  /** A thread off its list is either not ready, or being deleted. */
  lemma UnlinkExactly(s: Sys, t: Tid)
    requires Agree(s) && t in s.threads
    ensures Agree(Unlink(s, t)) <==> s.threads[t].stat != Ready || Deleting(t) in s.calls
  {
    hide ReadyBut, QueuesBut, Unlink;
    UnlinkAgree(s, t);
    UnlinkKeeps(s, t);
    var u := Unlink(s, t);
    if s.threads[t].stat != Ready {
      ParkedAgree(u, t);
    } else if Deleting(t) in s.calls {
      ExemptAgree(u, t);
    } else {
      MissingDisagrees(u, t);
    }
  }

  lemma ExemptAgree(s: Sys, t: Tid)
    requires AgreeBut(s, {t}) && Deleting(t) in s.calls
    ensures Agree(s)
  {
    hide NoDup;
  }

  lemma ReadyListed(s: Sys, t: Tid)
    requires Agree(s) && t in s.threads && s.threads[t].stat == Ready && Deleting(t) !in s.calls
    ensures s.threads[t].prio < |s.ready| && t in s.ready[s.threads[t].prio]
  {
  }

  lemma MissingDisagrees(s: Sys, t: Tid)
    requires AgreeBut(s, {t}) && t in s.threads && s.threads[t].stat == Ready && Deleting(t) !in s.calls
    ensures !Agree(s)
  {
    hide NoDup, QueuesBut;
    if Agree(s) {
      ReadyListed(s, t);
      assert false;
    }
  }

  /** Inserting a thread restores agreement exactly if it is in no list. */
  lemma InsertExactly(s: Sys, t: Tid)
    requires Agree(s) && t in s.threads && s.threads[t].prio < |s.ready|
    ensures Agree(InsertReady(s, t)) <==> Off(s, t)
  {
    hide AgreeBut;
    var (u, p) := (InsertReady(s, t), s.threads[t].prio);
    if t in s.ready[p] {
      Repeated(s.ready[p], t);
      ListsDistinct(u, p);
    } else if exists q :: q in s.queues && t in s.queues[q] {
      var q :| q in s.queues && t in s.queues[q];
      QueuedSuspended(u, q, t);
    } else {
      NowhereElse(s, t);
      OffAgree(s, t);
      InsertAgree(s, t);
    }
  }

  lemma ListsDistinct(s: Sys, p: nat)
    requires p < |s.ready|
    ensures Agree(s) ==> NoDup(s.ready[p])
  {
    hide QueuesBut, NoDup;
  }

  lemma QueuedSuspended(s: Sys, q: nat, t: Tid)
    requires q in s.queues && t in s.queues[q]
    ensures Agree(s) ==> t in s.threads && s.threads[t].stat == Suspend
  {
    hide ReadyBut, NoDup;
  }

  lemma NowhereElse(s: Sys, t: Tid)
    requires Agree(s) && t in s.threads && s.threads[t].prio < |s.ready|
    requires t !in s.ready[s.threads[t].prio] && !exists q :: q in s.queues && t in s.queues[q]
    ensures Off(s, t)
  {
    hide QueuesBut, NoDup;
  }

  lemma OffAgree(s: Sys, t: Tid)
    requires Agree(s) && Off(s, t)
    ensures AgreeBut(s, {t})
  {
    hide NoDup;
  }

  lemma Repeated(xs: seq<Tid>, t: Tid)
    requires t in xs
    ensures !NoDup(xs + [t])
  {
    var i :| 0 <= i < |xs| && xs[i] == t;
    assert (xs + [t])[i] == (xs + [t])[|xs|];
  }

  /** Closing a thread that was removed keeps agreement exactly if it is still in no list. */
  lemma CloseExactly(s: Sys, t: Tid)
    requires Agree(s) && t in s.threads && Deleting(t) in s.calls
    ensures Agree(Over(SetThread(s, t, s.threads[t].(stat := Closed)), Deleting(t))) <==> Off(s, t)
  {
    hide ReadyBut, QueuesBut;
    var u := Over(SetThread(s, t, s.threads[t].(stat := Closed)), Deleting(t));
    BeingDeleted(s, t);
    if Off(s, t) {
      ClosedQueues(s, u, t);
      ClosedReady(s, u, t);
    } else {
      ListedReady(s, t);
      ClosedDisagrees(u, t);
    }
  }

  lemma ListedReady(s: Sys, t: Tid)
    requires Agree(s) && t in s.threads && !Off(s, t) && forall q <- s.queues :: t !in s.queues[q]
    ensures s.threads[t].prio < |s.ready| && t in s.ready[s.threads[t].prio]
  {
    hide NoDup, QueuesBut;
  }

  lemma ClosedDisagrees(s: Sys, t: Tid)
    requires t in s.threads && s.threads[t].stat == Closed
    requires s.threads[t].prio < |s.ready| && t in s.ready[s.threads[t].prio]
    ensures !Agree(s)
  {
    hide NoDup, QueuesBut;
  }

  lemma ClosedReady(s: Sys, u: Sys, t: Tid)
    requires ReadyBut(s, {}) && Off(s, t) && t in s.threads && u.ready == s.ready
    requires u.threads == s.threads[t := s.threads[t].(stat := Closed)] && u.calls == s.calls - multiset{Deleting(t)}
    ensures ReadyBut(u, {})
  {
    hide NoDup;
    assert forall x :: x != t ==> (Deleting(x) in u.calls <==> Deleting(x) in s.calls);
  }

  lemma ClosedQueues(s: Sys, u: Sys, t: Tid)
    requires QueuesBut(s, {}) && u.queues == s.queues && (forall q <- s.queues :: t !in s.queues[q])
    requires t in s.threads && u.calls <= s.calls && t in u.threads && u.threads == s.threads[t := u.threads[t]]
    ensures QueuesBut(u, {})
  {
    hide NoDup;
  }

  /** Who is being deleted waits for nothing. */
  lemma BeingDeleted(s: Sys, t: Tid)
    requires Agree(s) && Deleting(t) in s.calls
    ensures forall q <- s.queues :: t !in s.queues[q]
  {
  }

  lemma CallsOnly(s: Sys, u: Sys)
    requires u.(calls := s.calls) == s && forall x :: Deleting(x) in s.calls <==> Deleting(x) in u.calls
    ensures Agree(s) <==> Agree(u)
  {
    hide NoDup;
  }

  lemma RemovedAgree(s: Sys, t: Tid)
    requires Agree(s) && t in s.threads
    ensures Agree(Begun(Unlink(s, t), Deleting(t)))
  {
    hide AgreeBut, Unlink, Begun;
    UnlinkAgree(s, t);
    BegunAgree(Unlink(s, t), t);
  }

  lemma BegunAgree(s: Sys, t: Tid)
    requires AgreeBut(s, {t})
    ensures Agree(Begun(s, Deleting(t)))
  {
    hide NoDup;
    var u := Begun(s, Deleting(t));
    assert forall x :: x != t ==> (Deleting(x) in u.calls <==> Deleting(x) in s.calls);
  }

  lemma TestAgree(s: Sys, p: Part)
    requires Agree(s) && PartPermitted(s, p) && s.threads[p.t].prio < |s.ready| && (p.SuspendTest? || p.ResumeTest?)
    ensures Agree(Done(s, p))
  {
    hide AgreeBut;
    CallsOnly(s, Done(s, p));
  }

  lemma SuspendRegionAgree(s: Sys, t: Tid)
    requires Agree(s) && t in s.threads
    ensures Agree(Over(SuspendNow(s, t), Suspending(t)))
  {
    hide AgreeBut, SuspendNow;
    SuspendAgree(s, t);
    CallsOnly(SuspendNow(s, t), Over(SuspendNow(s, t), Suspending(t)));
  }

  lemma ResumeRegionsAgree(s: Sys, t: Tid)
    requires Agree(s) && t in s.threads && s.threads[t].prio < |s.ready|
    ensures Agree(Onward(Unlink(s, t), Resuming(t), Unlinked(t)))
        <==> s.threads[t].stat != Ready || Deleting(t) in s.calls
    ensures Agree(Over(InsertReady(s, t), Unlinked(t))) <==> Off(s, t)
  {
    hide AgreeBut, Unlink, InsertReady, Off;
    UnlinkExactly(s, t);
    CallsOnly(Unlink(s, t), Onward(Unlink(s, t), Resuming(t), Unlinked(t)));
    InsertExactly(s, t);
    CallsOnly(InsertReady(s, t), Over(InsertReady(s, t), Unlinked(t)));
  }

  /**
   * The parts of suspend, resume and delete keep agreement exactly if they are undisturbed: the
   * test before the regions of a resume, and the removal before a close, must still hold good.
   */
  lemma PartAgree(s: Sys, p: Part)
    requires Agree(s) && PartPermitted(s, p)
    ensures s.threads[p.t].prio < |s.ready| && (Agree(Done(s, p)) <==> PartUndisturbed(s, p))
  {
    hide AgreeBut, Unlink, InsertReady, SuspendNow, Off, Begun, Over, Onward;
    PrioInRange(s, p.t);
    if p.SuspendTest? || p.ResumeTest? {
      TestAgree(s, p);
    } else if p.SuspendRegion? {
      SuspendRegionAgree(s, p.t);
    } else if p.DeleteRemove? {
      RemovedAgree(s, p.t);
    } else if p.DeleteClose? {
      CloseExactly(s, p.t);
    } else {
      ResumeRegionsAgree(s, p.t);
    }
  }

  /** The steps that are not taken by the running thread. */
  lemma OthersAgree(s: Sys, e: Event)
    requires Inv(s) && Permitted(s, e)
    requires e.Create? || e.Startup? || e.Do? || e.Wake? || e.Timeout? || e.SetPriority?
    ensures Agree(Next(s, e)) <==> (e.Do? ==> PartUndisturbed(s, e.part))
  {
    hide NoDup, PartUndisturbed, PartPermitted, Done;
    match e
    case Create(t, prio, tick) => CreateAgree(s, t, Thread(Init, prio, prio, tick, tick, Ok));
    case Startup(t) => StartAgree(s, t);
    case Do(p) => PartAgree(s, p);
    case Wake(q) => ResumeAgree(s, s.queues[q][0]);
    case Timeout(t) => TimeoutAgree(s, t);
    case SetPriority(t, prio) => ChangePrioAgree(s, t, prio);
  }

  lemma StepAgree(s: Sys, e: Event)
    requires Inv(s) && Permitted(s, e)
    ensures Agree(Next(s, e)) <==> (e.Do? ==> PartUndisturbed(s, e.part))
  {
    hide NoDup, PartUndisturbed, PartPermitted, Done, MutexTake, SuspendOn, TickSlice, YieldThread, CloseThread;
    match e
    case Exit => CloseAgree(s, s.current);
    case Wait(q, byPrio) => SuspendOnAgree(s, q, s.current, byPrio);
    case Yield => YieldAgree(s);
    case Tick => TickAgree(s);
    case Take(wait) => TakeAgree(s, wait);
    case Release => ReleaseAgree(s);
    case Reschedule => SameListsAgree(s, Schedule(s));
    case EnterCritical => SameListsAgree(s, s.(lockNest := s.lockNest + 1));
    case ExitCritical => SameListsAgree(s, s.(lockNest := Less(s.lockNest)));
    case _ => OthersAgree(s, e);
  }

  /** The thread an event may take off the waiters. */
  ghost function Moved(s: Sys, e: Event): Tid {
    match e
    case Create(t, _, _) => t
    case Startup(t) => t
    case Do(p) => p.t
    case Wake(q) => if q in s.queues && s.queues[q] != [] then s.queues[q][0] else s.current
    case Timeout(t) => t
    case _ => s.current
  }

  /** What the parts need to know of owner and waiters. */
  lemma MutexKnown(s: Sys)
    requires Inv(s)
    ensures MUTEX in s.queues && forall w <- s.queues[MUTEX] :: w in s.threads
    ensures forall o :: Owner(s, o) ==>
              o in s.threads && (s.threads[o].stat == Ready || s.threads[o].stat == Suspend) && Deleting(o) !in s.calls
  {
  }

  lemma UnlinkShrinks(s: Sys, t: Tid)
    requires Inv(s)
    ensures Shrinks(s, Unlink(s, t), t)
  {
    MutexKnown(s);
    hide AgreeBut, MutexInv, Without;
  }

  /** Records and calls that change leave the waiters alone. */
  lemma SameWaiters(s: Sys, u: Sys, v: Sys, t: Tid)
    requires Inv(s) && Shrinks(s, u, t) && t in u.threads && t in v.threads
    requires v.mutex == u.mutex && v.depth == u.depth && |v.ready| == |u.ready| && v.queues == u.queues
    requires v.threads == u.threads[t := v.threads[t]] && v.threads[t].prio == u.threads[t].prio
    requires Owner(s, t) ==> v.threads[t].stat == Ready || v.threads[t].stat == Suspend
    requires forall x :: Owner(s, x) && Deleting(x) in v.calls ==> Deleting(x) in u.calls
    ensures Shrinks(s, v, t)
  {
    hide AgreeBut, MutexInv, Without;
  }

  lemma SelfShrinks(s: Sys, t: Tid)
    requires Inv(s)
    ensures Shrinks(s, s, t)
  {
    MutexKnown(s);
    hide AgreeBut, MutexInv, Without;
  }

  /** Which threads are being deleted after a part. */
  lemma PartCalls(s: Sys, p: Part)
    requires PartPermitted(s, p) && s.threads[p.t].prio < |s.ready|
    ensures forall x :: Deleting(x) in Done(s, p).calls ==> Deleting(x) in s.calls || (p.DeleteRemove? && x == p.t)
  {
  }

  /** The parts that take the thread off its list. */
  lemma RemovingShrinks(s: Sys, p: Part)
    requires Inv(s) && PartPermitted(s, p) && (p.SuspendRegion? || p.ResumeUnlink? || p.DeleteRemove?)
    ensures s.threads[p.t].prio < |s.ready| && Shrinks(s, Done(s, p), p.t)
  {
    PrioInRange(s, p.t);
    PartCalls(s, p);
    MutexKnown(s);
    UnlinkShrinks(s, p.t);
    UnlinkKeeps(s, p.t);
    SuspendIsUnlink(s, p.t);
    hide Inv, Unlink, Shrinks, SuspendNow;
    SameWaiters(s, Unlink(s, p.t), Done(s, p), p.t);
  }

  lemma PartShrinks(s: Sys, p: Part)
    requires Inv(s) && PartPermitted(s, p)
    ensures s.threads[p.t].prio < |s.ready| && Shrinks(s, Done(s, p), p.t)
  {
    PrioInRange(s, p.t);
    if p.SuspendRegion? || p.ResumeUnlink? || p.DeleteRemove? {
      RemovingShrinks(s, p);
    } else {
      PartCalls(s, p);
      MutexKnown(s);
      SelfShrinks(s, p.t);
      hide Inv, Unlink, Shrinks, SuspendNow;
      SameWaiters(s, s, Done(s, p), p.t);
    }
  }

  lemma UnlinkKeeps(s: Sys, t: Tid)
    ensures Unlink(s, t).calls == s.calls && Unlink(s, t).threads == s.threads
  {
  }

  lemma SuspendIsUnlink(s: Sys, t: Tid)
    requires t in s.threads
    ensures SuspendNow(s, t) == SetThread(Unlink(s, t), t, s.threads[t].(stat := Suspend))
  {
  }

  lemma ThreadSteps(s: Sys, e: Event)
    requires Inv(s) && Permitted(s, e) && (e.Create? || e.Startup? || e.Timeout? || e.Exit?)
    ensures Shrinks(s, Next(s, e), Moved(s, e))
  {
    MutexKnown(s);
    hide AgreeBut, MutexInv, Without, Done, PartPermitted;
  }

  lemma QueueSteps(s: Sys, e: Event)
    requires Inv(s) && Permitted(s, e) && (e.Wait? || e.Wake?)
    ensures Shrinks(s, Next(s, e), Moved(s, e))
  {
  }

  lemma YieldShrinks(s: Sys)
    requires Inv(s) && s.current in s.threads
    ensures Shrinks(s, YieldThread(s), s.current)
  {
  }

  lemma ScheduleSteps(s: Sys, e: Event)
    requires Inv(s) && Permitted(s, e)
    requires e.Yield? || e.Tick? || e.Reschedule? || e.EnterCritical? || e.ExitCritical?
    ensures Shrinks(s, Next(s, e), Moved(s, e))
  {
    hide ReadyBut, QueuesBut, SortedByPrio, YieldThread;
    if e.Tick? {
      var r := s.threads[s.current];
      var s1 := SetThread(s, s.current, r.(remaining := r.initTick));
      PrioInRange(s, s.current);
      SameListsAgree(s, s1);
      SamePrioSorted(s, s1, s.queues[MUTEX]);
      YieldShrinks(s1);
    } else if e.Yield? {
      PrioInRange(s, s.current);
      YieldShrinks(s);
    }
  }

  lemma DoIs(s: Sys, p: Part)
    requires Inv(s) && Permitted(s, Do(p))
    ensures PartPermitted(s, p) && s.threads[p.t].prio < |s.ready| && Next(s, Do(p)) == Done(s, p)
    ensures Moved(s, Do(p)) == p.t
  {
    hide Done, MutexInv;
    PrioInRange(s, p.t);
  }

  lemma OtherSteps(s: Sys, e: Event)
    requires Inv(s) && Permitted(s, e) && !e.Take? && !e.Release? && !e.SetPriority?
    ensures Shrinks(s, Next(s, e), Moved(s, e))
  {
    hide Permitted, Next, Moved, Shrinks;
    match e
    case Wait(_, _) => QueueSteps(s, e);
    case Wake(_) => QueueSteps(s, e);
    case Yield => ScheduleSteps(s, e);
    case Tick => ScheduleSteps(s, e);
    case Reschedule => ScheduleSteps(s, e);
    case EnterCritical => ScheduleSteps(s, e);
    case ExitCritical => ScheduleSteps(s, e);
    case Do(p) =>
      DoIs(s, p);
      PartShrinks(s, p);
    case _ => ThreadSteps(s, e);
  }

  /** The search for a place depends on the priorities of the queue's members only. */
  lemma {:induction false} SamePlace(s: Sys, u: Sys, xs: seq<Tid>, prio: nat)
    requires forall x <- xs :: PrioOf(u, x) == PrioOf(s, x)
    ensures Place(u, xs, prio) == Place(s, xs, prio)
  {
    if xs != [] {
      SamePlace(s, u, xs[1..], prio);
    }
  }

  /** The system just before a blocked taker suspends: its error is reset and the owner boosted. */
  ghost function Boosted(s: Sys): Sys
    requires Inv(s) && Running(s) && s.mutex.owner.Some? && !Owner(s, s.current)
  {
    var t := s.current;
    var s0 := SetThread(s, t, s.threads[t].(error := Ok));
    var o := s.mutex.owner.value;
    if s.threads[t].prio < s.threads[o].prio then ChangePrio(s0, o, s.threads[t].prio) else s0
  }

  lemma BoostedState(s: Sys)
    requires Inv(s) && Running(s) && s.mutex.owner.Some? && !Owner(s, s.current)
    ensures var (t, o, b) := (s.current, s.mutex.owner.value, Boosted(s));
            && Agree(b) && MUTEX in b.queues && b.queues[MUTEX] == s.queues[MUTEX] && b.queues.Keys == s.queues.Keys
            && b.mutex == s.mutex && b.depth == s.depth && |b.ready| == |s.ready| && b.calls == s.calls
            && b.threads == s.threads[o := s.threads[o].(prio := Lesser(s.threads[t].prio, s.threads[o].prio))]
                                     [t := s.threads[t].(error := Ok)]
            && MutexTake(s, true) == SuspendOn(b, MUTEX, t, true)
  {
    hide ReadyBut, QueuesBut, SuspendThread;
    NotAWaiter(s);
    var t := s.current;
    var s0 := SetThread(s, t, s.threads[t].(error := Ok));
    var (o, p) := (s.mutex.owner.value, s.threads[t].prio);
    SameListsAgree(s, s0);
    ChangePrioAgree(s0, o, p);
    ChangePrioFrame(s0, o, p);
  }

  function Lesser(a: nat, b: nat): nat {
    if a < b then a else b
  }

  /** Everything a blocked take changes. */
  lemma BlockedTakeState(s: Sys)
    requires Inv(s) && Running(s) && s.mutex.owner.Some? && !Owner(s, s.current)
    ensures var (t, o, u) := (s.current, s.mutex.owner.value, MutexTake(s, true));
            var p := s.threads[t].prio;
            && u.threads == s.threads[o := s.threads[o].(prio := Lesser(p, s.threads[o].prio))]
                                     [t := s.threads[t].(error := Ok, stat := Suspend)]
            && u.mutex == s.mutex && u.depth == s.depth && |u.ready| == |s.ready| && u.queues.Keys == s.queues.Keys
            && u.calls == s.calls && u.queues[MUTEX] == Inserted(s.queues[MUTEX], Place(s, s.queues[MUTEX], p), t)
  {
    hide ReadyBut, QueuesBut, SuspendThread, MutexTake, Boosted;
    NotAWaiter(s);
    BoostedState(s);
    var (b, t, xs) := (Boosted(s), s.current, s.queues[MUTEX]);
    SuspendFrame(b, t);
    SuspendSizes(b, t);
    assert forall x <- xs :: PrioOf(b, x) == PrioOf(s, x);
    SamePlace(s, b, xs, s.threads[t].prio);
  }

  lemma SuspendSizes(s: Sys, t: Tid)
    requires t in s.threads
    ensures var u := SuspendThread(s, t);
            |u.ready| == |s.ready| && u.mutex == s.mutex && u.depth == s.depth && u.calls == s.calls
  {
  }

  /** A blocked taker leaves the owner at least as urgent as itself, then queues up by priority. */
  lemma BlockedTake(s: Sys)
    requires Inv(s) && Running(s) && s.mutex.owner.Some? && !Owner(s, s.current)
    ensures MutexInv(MutexTake(s, true))
  {
    hide ReadyBut, QueuesBut, SuspendOn, ChangePrio, SortedByPrio, MutexTake;
    NotAWaiter(s);
    BlockedTakeState(s);
    var (t, o, xs, u) := (s.current, s.mutex.owner.value, s.queues[MUTEX], MutexTake(s, true));
    PlaceSorted(s, u, xs, t);
    InsertedMembers(xs, Place(s, xs, s.threads[t].prio), t);
  }

  lemma SamePrioSorted(s: Sys, u: Sys, xs: seq<Tid>)
    requires SortedByPrio(s, xs) && forall x <- xs :: PrioOf(u, x) == PrioOf(s, x)
    ensures SortedByPrio(u, xs)
  {
  }

  lemma TakeMutexInv(s: Sys, wait: bool)
    requires Inv(s) && Running(s)
    ensures MutexInv(MutexTake(s, wait))
  {
    hide AgreeBut, SortedByPrio, SuspendOn, ChangePrio;
    if s.mutex.owner.Some? && !Owner(s, s.current) && wait {
      BlockedTake(s);
    } else {
      NotAWaiter(s);
      SamePrioSorted(s, MutexTake(s, wait), s.queues[MUTEX]);
    }
  }

  /** The owner's priority as the outermost release restores it. */
  ghost function Restored(s: Sys): Sys
    requires Inv(s) && Running(s) && Owner(s, s.current)
  {
    if s.mutex.original != s.threads[s.current].prio then ChangePrio(s, s.current, s.mutex.original) else s
  }

  lemma RestoredState(s: Sys)
    requires Inv(s) && Running(s) && Owner(s, s.current)
    ensures var (t, r) := (s.current, Restored(s));
            && Agree(r) && r.queues.Keys == s.queues.Keys && r.queues[MUTEX] == s.queues[MUTEX]
            && r.mutex == s.mutex && r.depth == s.depth && |r.ready| == |s.ready| && r.calls == s.calls
            && r.threads == s.threads[t := s.threads[t].(prio := s.mutex.original)]
  {
    hide ReadyBut, QueuesBut, ChangePrio;
    NotAWaiter(s);
    ChangePrioAgree(s, s.current, s.mutex.original);
    ChangePrioFrame(s, s.current, s.mutex.original);
    ChangePrioSame(s, s.current, s.mutex.original);
  }

  lemma ChangePrioSame(s: Sys, t: Tid, p: nat)
    requires t in s.threads && p < |s.ready|
    ensures ChangePrio(s, t, p).mutex == s.mutex && ChangePrio(s, t, p).depth == s.depth
  {
  }

  /** The outermost release: restore, then hand over to the first waiter or free the mutex. */
  lemma OutermostRelease(s: Sys)
    requires Inv(s) && Running(s) && Owner(s, s.current) && (s.mutex.hold + 255) % 256 == 0
    ensures var (t, xs, u) := (s.current, s.queues[MUTEX], Next(s, Release));
            && |u.ready| == |s.ready| && u.queues.Keys == s.queues.Keys && u.calls == s.calls && !Owner(u, t)
            && if xs == [] then
                 u.mutex == Mutex(1, None, 0xFF, 0) && u.depth == 0 && u.queues[MUTEX] == [] &&
                 u.threads == s.threads[t := s.threads[t].(prio := s.mutex.original)]
               else
                 xs[0] in s.threads && xs[0] != t &&
                 u.mutex == Mutex(0, Some(xs[0]), s.threads[xs[0]].prio, 1) && u.depth == 1 &&
                 u.queues[MUTEX] == xs[1..] &&
                 u.threads == s.threads[t := s.threads[t].(prio := s.mutex.original)]
                                       [xs[0] := s.threads[xs[0]].(stat := Ready)]
  {
    hide ReadyBut, QueuesBut, ChangePrio;
    NotAWaiter(s);
    RestoredState(s);
    var xs := s.queues[MUTEX];
    assert Permitted(s, Release) && Next(s, Release) == MutexRelease(s);
    if xs != [] {
      WaiterSuspended(s, xs[0]);
      WithoutHead(xs);
    }
  }

  /** After the outermost release the first waiter owns the mutex, ahead of the others, or nobody does. */
  lemma HandedOver(s: Sys)
    requires Inv(s) && Running(s) && Owner(s, s.current) && (s.mutex.hold + 255) % 256 == 0
    ensures MutexInv(Next(s, Release))
  {
    NotAWaiter(s);
    var (xs, u) := (s.queues[MUTEX], Next(s, Release));
    OutermostRelease(s);
    hide AgreeBut, Next, SortedByPrio;
    if xs != [] {
      WaiterSuspended(s, xs[0]);
      PopNoDup(xs);
      assert forall x <- xs[1..] :: x in xs && PrioOf(u, x) == PrioOf(s, x);
      TailSorted(s, xs);
      SamePrioSorted(s, u, xs[1..]);
    } else {
      SamePrioSorted(s, u, []);
    }
  }

  /** The first waiter is at least as urgent as the others. */
  lemma TailSorted(s: Sys, xs: seq<Tid>)
    requires SortedByPrio(s, xs) && xs != []
    ensures SortedByPrio(s, xs[1..]) && SortedByPrio(s, []) && forall x <- xs[1..] :: PrioOf(s, xs[0]) <= PrioOf(s, x)
  {
  }

  lemma ReleaseMutexInv(s: Sys)
    requires Inv(s) && Permitted(s, Release)
    ensures MutexInv(Next(s, Release))
  {
    hide AgreeBut, ChangePrio, ResumeThread;
    if Owner(s, s.current) && (s.mutex.hold + 255) % 256 == 0 {
      HandedOver(s);
    } else {
      InnerRelease(s);
    }
  }

  lemma ReleaseUnfold(s: Sys)
    requires Inv(s) && Running(s)
    ensures Permitted(s, Release)
    ensures s.mutex.owner != Some(s.current) || (s.mutex.hold + 255) % 256 != 0
        ==> Next(s, Release) == ReleasedInside(s)
  {
    NotAWaiter(s);
  }

  /** A release inside, or by another thread, changes the count or the caller's error only. */
  lemma InnerRelease(s: Sys)
    requires Inv(s) && Permitted(s, Release) && !(Owner(s, s.current) && (s.mutex.hold + 255) % 256 == 0)
    ensures MutexInv(Next(s, Release))
  {
    hide AgreeBut, Next, MutexRelease, SortedByPrio;
    NotAWaiter(s);
    ReleaseUnfold(s);
    SamePrioSorted(s, Next(s, Release), s.queues[MUTEX]);
  }

  lemma WaiterSuspended(s: Sys, w: Tid)
    requires Inv(s) && Waiter(s, w)
    ensures w in s.threads && s.threads[w].stat == Suspend && NoDup(s.queues[MUTEX])
  {
  }

  /** A change of priority keeps owner and waiters in order exactly if the new one fits. */
  lemma PriorityExactly(s: Sys, t: Tid, p: nat)
    requires Inv(s) && t in s.threads && p < |s.ready|
    ensures MutexInv(ChangePrio(s, t, p)) <==> Fits(s, t, p)
  {
    var (u, xs) := (ChangePrio(s, t, p), s.queues[MUTEX]);
    PriorityState(s, t, p);
    MutexKnown(s);
    assert MutexInv(s) && (t in xs ==> NoDup(xs)) by { if t in xs { WaiterSuspended(s, t); } }
    hide AgreeBut, ChangePrio;
    assert forall x <- s.threads :: PrioOf(u, x) == if x == t then p else PrioOf(s, x);
    if t in xs {
      WaiterFits(s, u, t, p);
    } else {
      assert forall i :: 0 <= i < |xs| ==> xs[i] in xs;
      SamePrioSorted(s, u, xs);
    }
  }

  lemma PriorityState(s: Sys, t: Tid, p: nat)
    requires Inv(s) && t in s.threads && p < |s.ready|
    ensures var u := ChangePrio(s, t, p);
            && u.threads == s.threads[t := s.threads[t].(prio := p)] && |u.ready| == |s.ready| && u.calls == s.calls
            && u.mutex == s.mutex && u.depth == s.depth && MUTEX in u.queues && u.queues[MUTEX] == s.queues[MUTEX]
  {
    ChangePrioFrame(s, t, p);
    ChangePrioSame(s, t, p);
    if t in s.queues[MUTEX] {
      WaiterSuspended(s, t);
    }
  }

  lemma WaiterFits(s: Sys, u: Sys, t: Tid, p: nat)
    requires MutexInv(s) && t in s.queues[MUTEX] && NoDup(s.queues[MUTEX]) && !Owner(s, t)
    requires forall x <- s.queues[MUTEX] :: PrioOf(u, x) == if x == t then p else PrioOf(s, x)
    requires u.mutex == s.mutex && u.depth == s.depth && MUTEX in u.queues && u.queues[MUTEX] == s.queues[MUTEX]
    requires u.threads.Keys == s.threads.Keys && |u.ready| == |s.ready| && u.calls == s.calls
    requires forall o :: Owner(s, o) && o in s.threads ==> u.threads[o] == s.threads[o]
    ensures MutexInv(u) <==> Fits(s, t, p)
  {
    var xs := s.queues[MUTEX];
    var i :| 0 <= i < |xs| && xs[i] == t;
    assert forall j :: 0 <= j < |xs| && j != i ==> xs[j] != t;
    assert forall j :: 0 <= j < |xs| ==> xs[j] in xs;
    assert Fits(s, t, p) ==> SortedByPrio(u, xs);
  }

  /** Every step keeps the invariant exactly if it is not disturbed by another call, or disturbs the mutex. */
  lemma StepInv(s: Sys, e: Event)
    requires Inv(s) && Permitted(s, e)
    ensures Inv(Next(s, e)) <==> Undisturbed(s, e)
  {
    hide AgreeBut, Next, Shrinks, PartUndisturbed, Fits;
    StepAgree(s, e);
    if e.Take? {
      TakeMutexInv(s, e.wait);
      UnfoldTake(s, e);
    } else if e.Release? {
      ReleaseMutexInv(s);
    } else if e.SetPriority? {
      PriorityExactly(s, e.t, e.prio);
      PriorityIs(s, e);
    } else {
      OtherSteps(s, e);
      ShrinksMutexInv(s, Next(s, e), Moved(s, e));
    }
  }

  lemma PriorityIs(s: Sys, e: Event)
    requires Inv(s) && Permitted(s, e) && e.SetPriority?
    ensures e.t in s.threads && e.prio < |s.ready| && Next(s, e) == ChangePrio(s, e.t, e.prio)
  {
  }

  lemma UnfoldTake(s: Sys, e: Event)
    requires Inv(s) && Permitted(s, e) && e.Take?
    ensures Next(s, e) == MutexTake(s, e.wait)
  {
  }

  // ---- Runs ----

  ghost predicate PermittedRun(s: Sys, es: seq<Event>)
    requires Inv(s)
    decreases |es|
  {
    es != [] ==>
      && Permitted(s, es[0]) && Undisturbed(s, es[0])
      && (StepInv(s, es[0]); PermittedRun(Next(s, es[0]), es[1..]))
  }

  /** The state after a run. Every reachable state satisfies the invariant. */
  ghost function After(s: Sys, es: seq<Event>): (u: Sys)
    requires Inv(s) && PermittedRun(s, es)
    ensures Inv(u)
    decreases |es|
  {
    if es == [] then s
    else
      StepInv(s, es[0]);
      After(Next(s, es[0]), es[1..])
  }

  /** The kernel before any thread exists. */
  ghost function Boot(priorities: nat, queues: set<nat>): (s: Sys)
    ensures Inv(s)
  {
    Sys(map[], seq(priorities, _ => []), map q <- queues + {MUTEX} :: [], 0, 0, Mutex(1, None, 0xFF, 0), 0, multiset{})
  }

  /** rt_schedule picks the first thread of the most urgent non-empty ready list. */
  lemma ScheduleMostUrgent(s: Sys, t: Tid)
    requires Agree(s) && s.lockNest == 0 && t in s.threads && s.threads[t].stat == Ready && Deleting(t) !in s.calls
    ensures var c := Schedule(s).current;
            && c in s.threads && s.threads[c].stat == Ready && s.threads[c].prio <= s.threads[t].prio
            && s.ready[s.threads[c].prio] != [] && c == s.ready[s.threads[c].prio][0]
  {
    var p := TopFrom(s, 0).value;
    assert s.ready[p][0] in s.ready[p];
  }

  lemma OwnerFirst(s: Sys, o: Tid, w: Tid)
    requires Inv(s) && Owner(s, o) && Waiter(s, w)
    ensures o in s.threads && w in s.threads && s.threads[o].prio <= s.threads[w].prio && Deleting(o) !in s.calls
  {
    hide ReadyBut, NoDup, SortedByPrio;
    assert w in s.queues[MUTEX] && PrioOf(s, w) == s.threads[w].prio;
  }

  /** While the owner of the mutex is ready, rt_schedule selects nobody less urgent than a waiter. */
  ghost predicate Uninverted(s: Sys) {
    forall o, w :: s.lockNest == 0 && Owner(s, o) && o in s.threads && s.threads[o].stat == Ready && Waiter(s, w) ==>
      var u := Schedule(s);
      w in s.threads && u.current in s.threads && s.threads[u.current].prio <= s.threads[o].prio <= s.threads[w].prio
  }

  lemma NotInverted(s: Sys)
    requires Inv(s)
    ensures Uninverted(s)
  {
    hide ReadyBut, QueuesBut, MutexInv, Schedule;
    forall o, w | s.lockNest == 0 && Owner(s, o) && o in s.threads && s.threads[o].stat == Ready && Waiter(s, w)
      ensures w in s.threads && Schedule(s).current in s.threads
      ensures s.threads[Schedule(s).current].prio <= s.threads[o].prio <= s.threads[w].prio
    {
      OwnerFirst(s, o, w);
      ScheduleMostUrgent(s, o);
    }
  }

  /** Bounded priority inversion, in every reachable state. */
  lemma NoInversion(priorities: nat, queues: set<nat>, es: seq<Event>)
    requires PermittedRun(Boot(priorities, queues), es)
    ensures Uninverted(After(Boot(priorities, queues), es))
  {
    hide Boot, PermittedRun, After, Inv, Uninverted;
    NotInverted(After(Boot(priorities, queues), es));
  }

  /** No step but one that sets it explicitly changes a thread's own priority. */
  lemma StepBase(s: Sys, e: Event, t: Tid)
    requires Inv(s) && Permitted(s, e) && t in s.threads && !Sets(e, t)
    ensures t in Next(s, e).threads && BasePriority(Next(s, e), t) == BasePriority(s, t)
  {
    hide AgreeBut, SortedByPrio;
    if e.Take? {
      TakeBase(s, e.wait, t);
    } else if e.Release? {
      ReleaseBase(s, t);
    } else {
      OtherBase(s, e, t);
    }
  }

  lemma TakeBase(s: Sys, wait: bool, t: Tid)
    requires Inv(s) && Running(s) && t in s.threads
    ensures t in MutexTake(s, wait).threads && BasePriority(MutexTake(s, wait), t) == BasePriority(s, t)
  {
    hide AgreeBut, SortedByPrio, SuspendOn, ChangePrio;
    if s.mutex.owner.Some? && !Owner(s, s.current) && wait {
      BlockedTakeState(s);
    }
  }

  lemma ReleaseBase(s: Sys, t: Tid)
    requires Inv(s) && Permitted(s, Release) && t in s.threads
    ensures t in Next(s, Release).threads && BasePriority(Next(s, Release), t) == BasePriority(s, t)
  {
    hide AgreeBut, SortedByPrio, ChangePrio, ResumeThread;
    if Owner(s, s.current) && (s.mutex.hold + 255) % 256 == 0 {
      hide MutexRelease;
      OutermostRelease(s);
    }
  }

  lemma PartBase(s: Sys, p: Part, t: Tid)
    requires PartPermitted(s, p) && s.threads[p.t].prio < |s.ready| && t in s.threads
    ensures t in Done(s, p).threads && BasePriority(Done(s, p), t) == BasePriority(s, t)
  {
  }

  lemma OtherBase(s: Sys, e: Event, t: Tid)
    requires Inv(s) && Permitted(s, e) && !e.Take? && !e.Release? && t in s.threads && !Sets(e, t)
    ensures t in Next(s, e).threads && BasePriority(Next(s, e), t) == BasePriority(s, t)
  {
    hide AgreeBut, SortedByPrio, Done, PartPermitted, BasePriority;
    if e.Do? {
      DoIs(s, e.part);
      PartBase(s, e.part, t);
    } else {
      WholeBase(s, e, t);
    }
  }

  lemma WholeBase(s: Sys, e: Event, t: Tid)
    requires Inv(s) && Permitted(s, e) && !e.Take? && !e.Release? && !e.Do? && t in s.threads && !Sets(e, t)
    ensures t in Next(s, e).threads && BasePriority(Next(s, e), t) == BasePriority(s, t)
  {
    hide AgreeBut, SortedByPrio, Done, PartPermitted;
  }

  /** Over any run, a thread that does not own the mutex at the end has its own priority back. */
  lemma {:induction false} RunBase(s: Sys, es: seq<Event>, t: Tid)
    requires Inv(s) && PermittedRun(s, es) && t in s.threads && forall e <- es :: !Sets(e, t)
    ensures t in After(s, es).threads && BasePriority(After(s, es), t) == BasePriority(s, t)
    ensures !Owner(s, t) && !Owner(After(s, es), t) ==> PrioOf(After(s, es), t) == PrioOf(s, t)
    decreases |es|
  {
    hide Inv, Permitted, Next;
    if es != [] {
      StepBase(s, es[0], t);
      StepInv(s, es[0]);
      RunBase(Next(s, es[0]), es[1..], t);
    }
  }

  // ---- Nested takes: hold is an 8-bit counter ----

  lemma TakeStep(s: Sys)
    requires Inv(s) && Running(s) && (s.mutex.owner.None? || Owner(s, s.current))
    ensures var u := Next(s, Take(true));
            Inv(u) && Running(u) && u.current == s.current && Owner(u, s.current) && u.depth == s.depth + 1
  {
    StepInv(s, Take(true));
  }

  lemma ReleaseStep(s: Sys)
    requires Inv(s) && Running(s)
    ensures Permitted(s, Release)
    ensures var u := Next(s, Release); Inv(u) && Running(u) && u.current == s.current
    ensures Owner(s, s.current) ==>
              var u := Next(s, Release);
              if s.depth % 256 == 1 then !Owner(u, s.current)
              else Owner(u, s.current) && u.depth == s.depth - 1
  {
    hide AgreeBut, SortedByPrio;
    StepInv(s, Release);
    if Owner(s, s.current) && (s.mutex.hold + 255) % 256 == 0 {
      hide MutexRelease;
      OutermostRelease(s);
      ReleaseCurrent(s);
      NotAWaiter(s);
    }
  }

  lemma ReleaseCurrent(s: Sys)
    requires Inv(s) && Permitted(s, Release)
    ensures Next(s, Release).current == s.current
  {
  }

  ghost function TakeTimes(s: Sys, n: nat): (u: Sys)
    requires Inv(s) && Running(s) && (s.mutex.owner.None? || Owner(s, s.current))
    ensures Inv(u) && Running(u) && u.current == s.current
    ensures n > 0 ==> Owner(u, u.current) && u.depth == s.depth + n
    ensures n == 0 ==> u == s
  {
    hide AgreeBut, MutexInv, Next;
    if n == 0 then s
    else
      var u := TakeTimes(s, n - 1);
      TakeStep(u);
      Next(u, Take(true))
  }

  ghost function ReleaseTimes(s: Sys, n: nat): (u: Sys)
    requires Inv(s) && Running(s)
    ensures Inv(u) && Running(u) && u.current == s.current
  {
    hide AgreeBut, MutexInv, Next;
    if n == 0 then s
    else
      var u := ReleaseTimes(s, n - 1);
      ReleaseStep(u);
      Next(u, Release)
  }

  /** The number of releases after which an owner with this nesting loses the mutex. */
  function ReleasesUntilFree(depth: nat): nat
    requires depth >= 1
  {
    (depth - 1) % 256 + 1
  }

  lemma {:induction false} ReleasesKeep(s: Sys, k: nat)
    requires Inv(s) && Running(s) && Owner(s, s.current) && s.depth >= 1
    requires k < ReleasesUntilFree(s.depth)
    ensures var u := ReleaseTimes(s, k); Owner(u, s.current) && u.depth == s.depth - k
  {
    hide AgreeBut, MutexInv, Next;
    if k > 0 {
      ReleasesKeep(s, k - 1);
      ReleaseStep(ReleaseTimes(s, k - 1));
    }
  }

  /** t keeps the mutex until the n-th release and loses it there. */
  ghost predicate KeepsUntil(u: Sys, t: Tid, n: nat)
    requires Inv(u) && Running(u)
  {
    (forall k: nat :: k < n ==> Owner(ReleaseTimes(u, k), t)) && !Owner(ReleaseTimes(u, n), t)
  }

  lemma KeepsUntilFree(u: Sys)
    requires Inv(u) && Running(u) && Owner(u, u.current) && u.depth >= 1
    ensures KeepsUntil(u, u.current, ReleasesUntilFree(u.depth))
  {
    hide Inv, Next;
    var f := ReleasesUntilFree(u.depth);
    forall k: nat | k < f ensures Owner(ReleaseTimes(u, k), u.current) { ReleasesKeep(u, k); }
    ReleasesKeep(u, f - 1);
    LastDepth(u.depth);
    ReleaseStep(ReleaseTimes(u, f - 1));
  }

  lemma LastDepth(d: nat)
    requires d >= 1
    ensures (d - (ReleasesUntilFree(d) - 1)) % 256 == 1
    ensures d <= 256 ==> ReleasesUntilFree(d) == d
  {
    assert d - 1 == 256 * ((d - 1) / 256) + (d - 1) % 256;
  }

  lemma KeepsOnce(u: Sys, t: Tid, m: nat, n: nat)
    requires Inv(u) && Running(u) && KeepsUntil(u, t, m)
    ensures KeepsUntil(u, t, n) <==> m == n
  {
    hide Inv, ReleaseTimes;
  }

  lemma KeepsExactly(u: Sys, n: nat)
    requires Inv(u) && Running(u) && Owner(u, u.current) && u.depth == n >= 1
    ensures KeepsUntil(u, u.current, n) <==> n <= 256
  {
    hide Inv, KeepsUntil;
    KeepsUntilFree(u);
    LastDepth(n);
    KeepsOnce(u, u.current, ReleasesUntilFree(n), n);
  }

  /** n takes need n releases exactly while the counter has not wrapped, that is for n <= 256. */
  lemma NestedTakes(s: Sys, n: nat)
    requires Inv(s) && Running(s) && s.mutex.owner.None? && n >= 1
    ensures KeepsUntil(TakeTimes(s, n), s.current, n) <==> n <= 256
  {
    FreeDepth(s);
    KeepsExactly(TakeTimes(s, n), n);
  }

  lemma FreeDepth(s: Sys)
    requires Inv(s) && s.mutex.owner.None?
    ensures s.depth == 0
  {
  }
}

/**
 * thread.c, scheduler.c and the mutex of ipc.c as a transition system: one event is one
 * interrupt-disabled region, or a test made outside of one. Calls that consist of several are
 * remembered between them.
 */
module KernelState {
  import opened Base
  import opened Lists

  type Tid = nat

  datatype Stat = Init | Ready | Suspend | Closed

  datatype Error = Ok | Timedout | Failed

  datatype Thread = Thread(stat: Stat, prio: nat, initPrio: nat, initTick: u32, remaining: u32, error: Error)

  datatype Mutex = Mutex(value: nat, owner: Option<Tid>, original: nat, hold: nat)

  /** Where a call of another thread's is that has several regions: tested, or with the thread off its list. */
  datatype Call = Suspending(t: Tid) | Resuming(t: Tid) | Unlinked(t: Tid) | Deleting(t: Tid)

  /** The suspend list of the mutex; the other queues belong to other IPC objects. */
  const MUTEX: nat := 0

  /** ready[p] is the ready list of priority p; depth counts the owner's nested takes; calls are under way. */
  datatype Sys = Sys(
    threads: map<Tid, Thread>,
    ready: seq<seq<Tid>>,
    queues: map<nat, seq<Tid>>,
    current: Tid,
    lockNest: nat,
    mutex: Mutex,
    depth: nat,
    calls: multiset<Call>)

  // ---- The kernel operations ----

  function SetThread(s: Sys, t: Tid, r: Thread): Sys {
    s.(threads := s.threads[t := r])
  }

  /** rt_list_remove(&thread->tlist): out of whatever list it stands in. */
  function Unlink(s: Sys, t: Tid): Sys {
    s.(ready := seq(|s.ready|, p requires 0 <= p < |s.ready| => Without(s.ready[p], t)),
       queues := map q <- s.queues :: Without(s.queues[q], t))
  }

  /** rt_schedule_insert_thread. */
  function InsertReady(s: Sys, t: Tid): Sys
    requires t in s.threads && s.threads[t].prio < |s.ready|
  {
    var p := s.threads[t].prio;
    SetThread(s, t, s.threads[t].(stat := Ready)).(ready := s.ready[p := s.ready[p] + [t]])
  }

  /** The region of rt_thread_suspend, which does not look at the status again. */
  function SuspendNow(s: Sys, t: Tid): Sys
    requires t in s.threads
  {
    Unlink(SetThread(s, t, s.threads[t].(stat := Suspend)), t)
  }

  /** rt_thread_suspend where interrupts are disabled throughout. */
  function SuspendThread(s: Sys, t: Tid): Sys
    requires t in s.threads
  {
    if s.threads[t].stat != Ready then s else SuspendNow(s, t)
  }

  /** rt_thread_resume where interrupts are disabled throughout, as when an IPC object wakes a thread. */
  function ResumeThread(s: Sys, t: Tid): Sys
    requires t in s.threads && s.threads[t].prio < |s.ready|
  {
    if s.threads[t].stat != Suspend then s else InsertReady(Unlink(s, t), t)
  }

  /** rt_thread_timeout. */
  function TimeoutThread(s: Sys, t: Tid): Sys
    requires t in s.threads && s.threads[t].prio < |s.ready|
  {
    InsertReady(Unlink(SetThread(s, t, s.threads[t].(error := Timedout)), t), t)
  }

  /** What rt_thread_startup writes before it calls rt_thread_resume. */
  function StartThread(s: Sys, t: Tid): Sys
    requires t in s.threads
  {
    SetThread(s, t, s.threads[t].(prio := s.threads[t].initPrio, stat := Suspend))
  }

  /** RT_THREAD_CTRL_CHANGE_PRIORITY: a ready thread changes its ready list. */
  function ChangePrio(s: Sys, t: Tid, p: nat): Sys
    requires t in s.threads && p < |s.ready|
  {
    var r := s.threads[t].(prio := p);
    if s.threads[t].stat == Ready then InsertReady(SetThread(Unlink(s, t), t, r), t)
    else SetThread(s, t, r)
  }

  /** rt_thread_exit: the thread leaves every list for good. */
  function CloseThread(s: Sys, t: Tid): Sys
    requires t in s.threads
  {
    SetThread(Unlink(s, t), t, s.threads[t].(stat := Closed))
  }

  /** The test on the thread's own list node: it stands in its ready list, and not alone. */
  predicate HasNeighbour(s: Sys, t: Tid)
    requires t in s.threads && s.threads[t].prio < |s.ready|
  {
    t in s.ready[s.threads[t].prio] && |s.ready[s.threads[t].prio]| >= 2
  }

  /** rt_thread_yield: to the end of its ready list, unless it is alone there. */
  function YieldThread(s: Sys): Sys
    requires s.current in s.threads && s.threads[s.current].prio < |s.ready|
  {
    var t := s.current;
    if s.threads[t].stat == Ready && HasNeighbour(s, t) then InsertReady(Unlink(s, t), t) else s
  }

  /** The time slice part of rt_tick_increase. */
  function TickSlice(s: Sys): Sys
    requires s.current in s.threads && s.threads[s.current].prio < |s.ready|
  {
    var r := s.threads[s.current];
    var left := Wrap(r.remaining - 1);
    if left == 0 then YieldThread(SetThread(s, s.current, r.(remaining := r.initTick)))
    else SetThread(s, s.current, r.(remaining := left))
  }

  /** p is the most urgent priority with a ready thread. */
  ghost predicate IsTop(s: Sys, p: nat) {
    p < |s.ready| && s.ready[p] != [] && forall q :: 0 <= q < p ==> s.ready[q] == []
  }

  /** The first non-empty ready list from p on. */
  function TopFrom(s: Sys, p: nat): (r: Option<nat>)
    requires p <= |s.ready|
    ensures r.Some? ==> p <= r.value < |s.ready| && s.ready[r.value] != []
    ensures r.Some? ==> forall q :: p <= q < r.value ==> s.ready[q] == []
    ensures r.None? ==> forall q :: p <= q < |s.ready| ==> s.ready[q] == []
    decreases |s.ready| - p
  {
    if p == |s.ready| then None
    else if s.ready[p] != [] then Some(p)
    else TopFrom(s, p + 1)
  }

  /** rt_schedule: the head of the most urgent ready list, if the scheduler is not locked. */
  function Schedule(s: Sys): Sys {
    if s.lockNest != 0 then s
    else
      match TopFrom(s, 0)
      case None => s
      case Some(p) => s.(current := s.ready[p][0])
  }

  function PrioOf(s: Sys, t: Tid): nat {
    if t in s.threads then s.threads[t].prio else 0
  }

  /** The place before the first thread that is less urgent. */
  function Place(s: Sys, xs: seq<Tid>, prio: nat): (k: nat)
    ensures k <= |xs|
    ensures forall i :: 0 <= i < k ==> PrioOf(s, xs[i]) <= prio
    ensures k < |xs| ==> prio < PrioOf(s, xs[k])
  {
    if xs == [] || prio < PrioOf(s, xs[0]) then 0 else 1 + Place(s, xs[1..], prio)
  }

  /** rt_ipc_list_suspend: leave the ready list and queue up, by priority or first come first served. */
  function SuspendOn(s: Sys, q: nat, t: Tid, byPrio: bool): Sys
    requires t in s.threads && q in s.queues
  {
    var s1 := SuspendThread(s, t);
    var xs := s.queues[q];
    var k := if byPrio then Place(s, xs, s.threads[t].prio) else |xs|;
    s1.(queues := s1.queues[q := Inserted(xs, k, t)])
  }

  /** rt_mutex_take without sleeping: nested take, free mutex, or no waiting. */
  function TakenNow(s: Sys, wait: bool): Sys
    requires s.current in s.threads
  {
    var (t, m) := (s.current, s.mutex);
    if m.owner == Some(t) then
      SetThread(s, t, s.threads[t].(error := Ok)).(mutex := m.(hold := (m.hold + 1) % 256), depth := s.depth + 1)
    else if m.value > 0 then
      SetThread(s, t, s.threads[t].(error := Ok))
      .(mutex := Mutex(m.value - 1, Some(t), s.threads[t].prio, (m.hold + 1) % 256), depth := 1)
    else
      SetThread(s, t, s.threads[t].(error := if wait then Ok else Timedout))
  }

  /** rt_mutex_take up to the point where the caller sleeps or returns; wait is time != 0. */
  function MutexTake(s: Sys, wait: bool): Sys
    requires Running(s) && MUTEX in s.queues
    requires s.mutex.owner.Some? ==> s.mutex.owner.value in s.threads
  {
    var (t, m) := (s.current, s.mutex);
    if m.owner == Some(t) || m.value > 0 || !wait || m.owner.None? then TakenNow(s, wait)
    else
      var s0 := SetThread(s, t, s.threads[t].(error := Ok));
      var boosted :=
        if s.threads[t].prio < s.threads[m.owner.value].prio then ChangePrio(s0, m.owner.value, s.threads[t].prio)
        else s0;
      SuspendOn(boosted, MUTEX, t, true)
  }

  /** A release that leaves the owner as it is. */
  function ReleasedInside(s: Sys): Sys
    requires s.current in s.threads
  {
    if s.mutex.owner != Some(s.current) then
      SetThread(s, s.current, s.threads[s.current].(error := Failed))
    else
      s.(mutex := s.mutex.(hold := (s.mutex.hold + 255) % 256), depth := Less(s.depth))
  }

  /** rt_mutex_release: the outermost one restores the priority and hands over to the first waiter. */
  function MutexRelease(s: Sys): Sys
    requires Running(s) && MUTEX in s.queues
    requires s.mutex.owner == Some(s.current) ==> s.mutex.original < |s.ready|
    requires forall x <- s.queues[MUTEX] :: x in s.threads && s.threads[x].prio < |s.ready| && x != s.current
  {
    var (t, m) := (s.current, s.mutex);
    if m.owner != Some(t) || (m.hold + 255) % 256 != 0 then ReleasedInside(s)
    else
      var s1 := if m.original != s.threads[t].prio then ChangePrio(s, t, m.original) else s;
      if s.queues[MUTEX] == [] then
        s1.(mutex := Mutex(m.value + 1, None, 0xFF, 0), depth := 0)
      else
        var w := s.queues[MUTEX][0];
        ResumeThread(s1, w).(mutex := Mutex(m.value, Some(w), s.threads[w].prio, 1), depth := 1)
  }

  function Less(n: nat): nat {
    if n == 0 then 0 else n - 1
  }

  /** The current thread is executing, and nobody is deleting it. */
  predicate Running(s: Sys) {
    && s.current in s.threads && s.threads[s.current].stat == Ready && s.threads[s.current].prio < |s.ready|
    && Deleting(s.current) !in s.calls
  }

  // ---- Agreement of threads and lists ----

  /**
   * A thread is READY iff it is in the ready list of its priority, once, and in no other list;
   * a thread in an IPC queue is suspended, not being deleted, and in that queue only. Threads of
   * out are in no list;
   * a thread that is being deleted may be READY and in no list already.
   */
  ghost predicate AgreeBut(s: Sys, out: set<Tid>) {
    ReadyBut(s, out) && QueuesBut(s, out)
  }

  ghost predicate ReadyBut(s: Sys, out: set<Tid>) {
    && (forall p :: 0 <= p < |s.ready| ==> NoDup(s.ready[p]))
    && (forall p, x :: 0 <= p < |s.ready| && x in s.ready[p] ==>
          x in s.threads && s.threads[x].stat == Ready && s.threads[x].prio == p && x !in out)
    && (forall x <- s.threads :: s.threads[x].prio < |s.ready| && s.threads[x].initPrio < |s.ready|)
    && (forall x <- s.threads :: x !in out && Deleting(x) !in s.calls && s.threads[x].stat == Ready ==>
          x in s.ready[s.threads[x].prio])
  }

  ghost predicate QueuesBut(s: Sys, out: set<Tid>) {
    && (forall q <- s.queues :: NoDup(s.queues[q]))
    && (forall q, x :: q in s.queues && x in s.queues[q] ==>
          x in s.threads && s.threads[x].stat == Suspend && x !in out && Deleting(x) !in s.calls)
    && (forall q, q', x :: q in s.queues && q' in s.queues && x in s.queues[q] && x in s.queues[q'] ==> q == q')
  }

  ghost predicate Agree(s: Sys) {
    AgreeBut(s, {})
  }

  lemma UnlinkAgree(s: Sys, t: Tid)
    requires Agree(s)
    ensures AgreeBut(Unlink(s, t), {t})
  {
    UnlinkReady(s, t);
    UnlinkQueues(s, t);
  }

  lemma UnlinkReady(s: Sys, t: Tid)
    requires ReadyBut(s, {})
    ensures ReadyBut(Unlink(s, t), {t})
  {
    hide NoDup;
    forall p | 0 <= p < |s.ready|
      ensures NoDup(Without(s.ready[p], t)) && forall x :: x in Without(s.ready[p], t) <==> x in s.ready[p] && x != t
    {
      WithoutMembers(s.ready[p], t);
      WithoutNoDup(s.ready[p], t);
    }
  }

  lemma UnlinkQueues(s: Sys, t: Tid)
    requires QueuesBut(s, {})
    ensures QueuesBut(Unlink(s, t), {t})
  {
    hide NoDup;
    forall q <- s.queues
      ensures NoDup(Without(s.queues[q], t)) && forall x :: x in Without(s.queues[q], t) <==> x in s.queues[q] && x != t
    {
      WithoutMembers(s.queues[q], t);
      WithoutNoDup(s.queues[q], t);
    }
  }

  /** Threads outside a list keep it as it is. */
  lemma UnlinkOther(s: Sys, t: Tid, q: nat)
    requires q in s.queues && t !in s.queues[q]
    ensures Unlink(s, t).queues[q] == s.queues[q]
  {
    WithoutMembers(s.queues[q], t);
  }

  /** The record of a thread outside all lists may change. */
  lemma RecordAgree(s: Sys, t: Tid, r: Thread)
    requires AgreeBut(s, {t}) && r.prio < |s.ready| && r.initPrio < |s.ready|
    ensures AgreeBut(SetThread(s, t, r), {t})
  {
  }

  lemma InsertAgree(s: Sys, t: Tid)
    requires AgreeBut(s, {t}) && t in s.threads
    ensures Agree(InsertReady(s, t))
  {
    hide NoDup, QueuesBut;
    var p := s.threads[t].prio;
    InsertedMembers(s.ready[p], |s.ready[p]|, t);
    assert Inserted(s.ready[p], |s.ready[p]|, t) == s.ready[p] + [t];
    InsertQueues(s, t);
  }

  lemma InsertQueues(s: Sys, t: Tid)
    requires QueuesBut(s, {t}) && t in s.threads && s.threads[t].prio < |s.ready|
    ensures QueuesBut(InsertReady(s, t), {})
  {
  }

  /** A suspended thread in no list may join one queue. */
  lemma EnqueueAgree(s: Sys, q: nat, k: nat, t: Tid)
    requires AgreeBut(s, {t}) && t in s.threads && s.threads[t].stat == Suspend && Deleting(t) !in s.calls
    requires q in s.queues && k <= |s.queues[q]|
    ensures Agree(s.(queues := s.queues[q := Inserted(s.queues[q], k, t)]))
  {
    hide NoDup, Inserted;
    InsertedMembers(s.queues[q], k, t);
  }

  lemma ParkedAgree(s: Sys, t: Tid)
    requires AgreeBut(s, {t}) && t in s.threads && s.threads[t].stat != Ready
    ensures Agree(s)
  {
  }

  /** The record of a thread that is not ready may change. */
  lemma IdleRecordAgree(s: Sys, t: Tid, r: Thread)
    requires Agree(s) && t in s.threads && s.threads[t].stat != Ready && r.stat != Ready
    requires s.threads[t].stat == Suspend ==> r.stat == Suspend
    requires r.prio < |s.ready| && r.initPrio < |s.ready|
    ensures Agree(SetThread(s, t, r))
  {
    hide NoDup;
    IdleRecordQueues(s, t, r);
    hide QueuesBut;
  }

  lemma IdleRecordQueues(s: Sys, t: Tid, r: Thread)
    requires QueuesBut(s, {}) && t in s.threads && (s.threads[t].stat == Suspend ==> r.stat == Suspend)
    ensures QueuesBut(SetThread(s, t, r), {})
  {
    hide NoDup;
  }

  /** Changes that leave status, priority and lists alone. */
  lemma SameListsAgree(s: Sys, u: Sys)
    requires Agree(s) && u.ready == s.ready && u.queues == s.queues && u.threads.Keys == s.threads.Keys
    requires forall x <- s.threads :: Deleting(x) in s.calls <==> Deleting(x) in u.calls
    requires forall x <- s.threads ::
               u.threads[x].stat == s.threads[x].stat && u.threads[x].prio == s.threads[x].prio &&
               u.threads[x].initPrio == s.threads[x].initPrio
    ensures Agree(u)
  {
  }

  lemma PrioInRange(s: Sys, t: Tid)
    requires Agree(s) && t in s.threads
    ensures s.threads[t].prio < |s.ready| && s.threads[t].initPrio < |s.ready|
  {
  }

  // ---- Each operation keeps the agreement ----

  /** Suspending needs no test: whatever the thread is and wherever it stands, agreement is kept. */
  lemma SuspendAgree(s: Sys, t: Tid)
    requires Agree(s) && t in s.threads
    ensures Agree(SuspendNow(s, t)) && Agree(SuspendThread(s, t)) && AgreeBut(SuspendNow(s, t), {t})
  {
    UnlinkAgree(s, t);
    var r := s.threads[t].(stat := Suspend);
    RecordAgree(Unlink(s, t), t, r);
    assert SuspendNow(s, t) == SetThread(Unlink(s, t), t, r);
    ParkedAgree(SuspendNow(s, t), t);
  }

  lemma ResumeAgree(s: Sys, t: Tid)
    requires Agree(s) && t in s.threads
    ensures Agree(ResumeThread(s, t))
  {
    UnlinkAgree(s, t);
    if s.threads[t].stat == Suspend {
      InsertAgree(Unlink(s, t), t);
    }
  }

  lemma TimeoutAgree(s: Sys, t: Tid)
    requires Agree(s) && t in s.threads && s.threads[t].stat == Suspend
    ensures Agree(TimeoutThread(s, t))
  {
    var s1 := SetThread(s, t, s.threads[t].(error := Timedout));
    SameListsAgree(s, s1);
    UnlinkAgree(s1, t);
    InsertAgree(Unlink(s1, t), t);
  }

  lemma StartAgree(s: Sys, t: Tid)
    requires Agree(s) && t in s.threads && s.threads[t].stat == Init
    ensures Agree(StartThread(s, t))
  {
    hide ReadyBut, QueuesBut;
    PrioInRange(s, t);
    IdleRecordAgree(s, t, s.threads[t].(prio := s.threads[t].initPrio, stat := Suspend));
  }

  lemma ChangePrioAgree(s: Sys, t: Tid, p: nat)
    requires Agree(s) && t in s.threads && p < |s.ready|
    ensures Agree(ChangePrio(s, t, p))
  {
    hide ReadyBut, QueuesBut;
    PrioInRange(s, t);
    var r := s.threads[t].(prio := p);
    if s.threads[t].stat == Ready {
      UnlinkAgree(s, t);
      RecordAgree(Unlink(s, t), t, r);
      InsertAgree(SetThread(Unlink(s, t), t, r), t);
    } else {
      IdleRecordAgree(s, t, r);
    }
  }

  /** Changing a priority touches one record and no queue the thread is not in. */
  lemma ChangePrioFrame(s: Sys, t: Tid, p: nat)
    requires t in s.threads && p < |s.ready|
    ensures ChangePrio(s, t, p).threads == s.threads[t := s.threads[t].(prio := p)]
    ensures |ChangePrio(s, t, p).ready| == |s.ready| && ChangePrio(s, t, p).queues.Keys == s.queues.Keys
    ensures ChangePrio(s, t, p).calls == s.calls
    ensures forall q <- s.queues :: t !in s.queues[q] ==> ChangePrio(s, t, p).queues[q] == s.queues[q]
  {
    forall q <- s.queues ensures t !in s.queues[q] ==> ChangePrio(s, t, p).queues[q] == s.queues[q] {
      if t !in s.queues[q] {
        UnlinkOther(s, t, q);
      }
    }
  }

  lemma CloseAgree(s: Sys, t: Tid)
    requires Agree(s) && t in s.threads
    ensures Agree(CloseThread(s, t))
  {
    UnlinkAgree(s, t);
    RecordAgree(Unlink(s, t), t, s.threads[t].(stat := Closed));
    ParkedAgree(CloseThread(s, t), t);
  }

  lemma YieldAgree(s: Sys)
    requires Agree(s) && s.current in s.threads
    ensures Agree(YieldThread(s))
  {
    UnlinkAgree(s, s.current);
    PrioInRange(s, s.current);
    if YieldThread(s) != s {
      InsertAgree(Unlink(s, s.current), s.current);
    }
  }

  lemma TickAgree(s: Sys)
    requires Agree(s) && s.current in s.threads
    ensures Agree(TickSlice(s))
  {
    hide ReadyBut, QueuesBut, YieldThread;
    var r := s.threads[s.current];
    assert r.prio < |s.ready| by { PrioInRange(s, s.current); }
    var s1 := SetThread(s, s.current, r.(remaining := r.initTick));
    SameListsAgree(s, s1);
    YieldAgree(s1);
    SameListsAgree(s, SetThread(s, s.current, r.(remaining := Wrap(r.remaining - 1))));
  }

  lemma SuspendOnAgree(s: Sys, q: nat, t: Tid, byPrio: bool)
    requires Agree(s) && t in s.threads && s.threads[t].stat == Ready && Deleting(t) !in s.calls && q in s.queues
    ensures Agree(SuspendOn(s, q, t, byPrio))
  {
    SuspendAgree(s, t);
    SuspendFrame(s, t);
    var xs := s.queues[q];
    EnqueueAgree(SuspendThread(s, t), q, if byPrio then Place(s, xs, s.threads[t].prio) else |xs|, t);
  }

  /** A ready thread that suspends leaves the queues as they are. */
  lemma SuspendFrame(s: Sys, t: Tid)
    requires Agree(s) && t in s.threads && s.threads[t].stat == Ready
    ensures SuspendThread(s, t).queues == s.queues
    ensures SuspendThread(s, t).threads == s.threads[t := s.threads[t].(stat := Suspend)]
  {
    var s1 := SuspendThread(s, t);
    forall q <- s.queues ensures s1.queues[q] == s.queues[q] { UnlinkOther(s, t, q); }
  }
}

/**
 * Where each kernel operation leaves its thread: the record, the one list it is in, and its place
 * there, given that threads and lists agree before.
 */
module KernelLaws {
  import opened Base
  import opened Lists
  import opened KernelState
  import opened KernelMutex

  /** Only the record of t changes. */
  ghost predicate OneRecord(s: Sys, u: Sys, t: Tid, r: Thread) {
    u.threads == s.threads[t := r] && u.mutex == s.mutex && u.depth == s.depth && u.current == s.current
    && u.lockNest == s.lockNest && u.calls == s.calls && |u.ready| == |s.ready| && u.queues.Keys == s.queues.Keys
  }

  /** The ready lists are those of before, but t comes last in the one of priority p. */
  ghost predicate LastReady(s: Sys, u: Sys, t: Tid, p: nat)
    requires p < |s.ready|
  {
    u.ready == s.ready[p := s.ready[p] + [t]]
  }

  /** Everybody but t stays in the wait lists, in order. */
  ghost predicate OffQueues(s: Sys, u: Sys, t: Tid) {
    u.queues.Keys == s.queues.Keys
    && forall q <- s.queues :: u.queues[q] == Without(s.queues[q], t)
  }

  lemma NotReadyUnlink(s: Sys, t: Tid)
    requires Agree(s) && t in s.threads && s.threads[t].stat != Ready
    ensures Unlink(s, t).ready == s.ready && OffQueues(s, Unlink(s, t), t)
  {
    forall p | 0 <= p < |s.ready| ensures Without(s.ready[p], t) == s.ready[p] {
      WithoutMembers(s.ready[p], t);
    }
  }

  lemma ReadyUnlink(s: Sys, t: Tid)
    requires Agree(s) && t in s.threads && s.threads[t].stat == Ready
    ensures s.threads[t].prio < |s.ready| && Unlink(s, t).queues == s.queues
    ensures var p := s.threads[t].prio; Unlink(s, t).ready == s.ready[p := Without(s.ready[p], t)]
  {
    forall p | 0 <= p < |s.ready| && p != s.threads[t].prio ensures Without(s.ready[p], t) == s.ready[p] {
      WithoutMembers(s.ready[p], t);
    }
    forall q <- s.queues ensures Without(s.queues[q], t) == s.queues[q] { WithoutMembers(s.queues[q], t); }
  }

  /** A suspended thread that times out is ready again, last of its priority, in no wait list, and its error says so. */
  lemma TimeoutExactly(s: Sys, t: Tid)
    requires Agree(s) && t in s.threads && s.threads[t].stat == Suspend
    ensures s.threads[t].prio < |s.ready|
    ensures var u := TimeoutThread(s, t);
            && OneRecord(s, u, t, s.threads[t].(stat := Ready, error := Timedout))
            && LastReady(s, u, t, s.threads[t].prio) && OffQueues(s, u, t)
  {
    NotReadyUnlink(s, t);
    PrioInRange(s, t);
    var s0 := SetThread(s, t, s.threads[t].(error := Timedout));
    assert Unlink(s0, t) == Unlink(s, t).(threads := s0.threads);
    hide Unlink, AgreeBut;
  }

  /** So is one that is resumed, without that error; another thread is left alone. */
  lemma ResumeExactly(s: Sys, t: Tid)
    requires Agree(s) && t in s.threads
    ensures s.threads[t].prio < |s.ready|
    ensures var u := ResumeThread(s, t);
            if s.threads[t].stat == Suspend then
              && OneRecord(s, u, t, s.threads[t].(stat := Ready))
              && LastReady(s, u, t, s.threads[t].prio) && OffQueues(s, u, t)
            else u == s
  {
    PrioInRange(s, t);
    if s.threads[t].stat == Suspend {
      NotReadyUnlink(s, t);
      hide Unlink, AgreeBut;
    }
  }

  /** A ready thread that is suspended leaves its ready list; another one is left alone. */
  lemma SuspendExactly(s: Sys, t: Tid)
    requires Agree(s) && t in s.threads
    ensures s.threads[t].prio < |s.ready|
    ensures var (u, p) := (SuspendThread(s, t), s.threads[t].prio);
            if s.threads[t].stat == Ready then
              && OneRecord(s, u, t, s.threads[t].(stat := Suspend))
              && u.ready == s.ready[p := Without(s.ready[p], t)] && u.queues == s.queues
            else u == s
  {
    PrioInRange(s, t);
    if s.threads[t].stat == Ready {
      ReadyUnlink(s, t);
      var r := s.threads[t].(stat := Suspend);
      assert Unlink(SetThread(s, t, r), t) == SetThread(Unlink(s, t), t, r);
      hide Unlink, AgreeBut;
    }
  }

  /** The wait list ys is xs with t at its end, or by urgency behind those as urgent and before the less urgent. */
  ghost predicate Joins(s: Sys, xs: seq<Tid>, ys: seq<Tid>, t: Tid, byPrio: bool) {
    if !byPrio then ys == xs + [t]
    else
      exists k: nat ::
        && k <= |xs| && ys == xs[..k] + [t] + xs[k..]
        && (forall i :: 0 <= i < k ==> PrioOf(s, xs[i]) <= PrioOf(s, t))
        && (k < |xs| ==> PrioOf(s, t) < PrioOf(s, xs[k]))
  }

  /** The running thread that waits leaves its ready list and joins that wait list and no other. */
  lemma SuspendOnExactly(s: Sys, q: nat, t: Tid, byPrio: bool)
    requires Agree(s) && t in s.threads && s.threads[t].stat == Ready && q in s.queues
    ensures s.threads[t].prio < |s.ready|
    ensures var (u, p) := (SuspendOn(s, q, t, byPrio), s.threads[t].prio);
            && OneRecord(s, u, t, s.threads[t].(stat := Suspend)) && u.ready == s.ready[p := Without(s.ready[p], t)]
            && Joins(s, s.queues[q], u.queues[q], t, byPrio)
            && forall x <- s.queues :: x != q ==> u.queues[x] == s.queues[x]
  {
    hide AgreeBut, SuspendThread, Place, Inserted, Without, Agree;
    SuspendExactly(s, t);
    var xs := s.queues[q];
    var k := if byPrio then Place(s, xs, s.threads[t].prio) else |xs|;
    InsertedIs(xs, k, t);
    var u := SuspendOn(s, q, t, byPrio);
    if byPrio {
      assert u.queues[q] == xs[..k] + [t] + xs[k..];
    }
  }

  /** A change of priority moves a ready thread to the end of its new list, and else writes the record only. */
  lemma ChangePrioExactly(s: Sys, t: Tid, p: nat)
    requires Agree(s) && t in s.threads && p < |s.ready|
    ensures s.threads[t].prio < |s.ready|
    ensures var (u, o) := (ChangePrio(s, t, p), s.threads[t].prio);
            && OneRecord(s, u, t, s.threads[t].(prio := p)) && u.queues == s.queues
            && if s.threads[t].stat == Ready then
                 var left := s.ready[o := Without(s.ready[o], t)];
                 u.ready == left[p := left[p] + [t]]
               else u.ready == s.ready
  {
    PrioInRange(s, t);
    if s.threads[t].stat == Ready {
      ReadyUnlink(s, t);
      hide Unlink, AgreeBut;
    }
  }

  /** A thread that yields goes behind the others of its priority, which keep their order. */
  lemma YieldExactly(s: Sys)
    requires Agree(s) && s.current in s.threads && s.threads[s.current].stat == Ready && Deleting(s.current) !in s.calls
    ensures s.threads[s.current].prio < |s.ready|
    ensures var (u, p) := (YieldThread(s), s.threads[s.current].prio);
            && OneRecord(s, u, s.current, s.threads[s.current]) && u.queues == s.queues
            && u.ready == s.ready[p := Without(s.ready[p], s.current) + [s.current]]
  {
    var (t, p) := (s.current, s.threads[s.current].prio);
    ReadyUnlink(s, t);
    assert t in s.ready[p];
    hide Unlink, AgreeBut;
    if HasNeighbour(s, t) {
      assert SetThread(s, t, s.threads[t].(stat := Ready)).threads == s.threads;
    } else {
      assert s.ready[p] == [t];
      assert Without([t], t) == [] && [] + [t] == s.ready[p];
    }
  }

  /** A thread that is started is ready, last of its initial priority. */
  lemma StartupExactly(s: Sys, t: Tid)
    requires Agree(s) && t in s.threads && s.threads[t].stat == Init
    ensures s.threads[t].initPrio < |s.ready|
    ensures var (u, p) := (ResumeThread(StartThread(s, t), t), s.threads[t].initPrio);
            && OneRecord(s, u, t, s.threads[t].(prio := p, stat := Ready))
            && LastReady(s, u, t, p) && OffQueues(s, u, t)
  {
    hide Agree;
    StartAgree(s, t);
    ResumeExactly(StartThread(s, t), t);
  }

  /** A thread that exits is closed and in no list. */
  lemma ExitExactly(s: Sys, t: Tid)
    requires Agree(s) && t in s.threads && s.threads[t].stat == Ready
    ensures s.threads[t].prio < |s.ready|
    ensures var (u, p) := (CloseThread(s, t), s.threads[t].prio);
            && OneRecord(s, u, t, s.threads[t].(stat := Closed)) && u.queues == s.queues
            && u.ready == s.ready[p := Without(s.ready[p], t)]
  {
    ReadyUnlink(s, t);
    hide Unlink, AgreeBut;
  }

  // ---- The mutex ----

  /**
   * A take has four answers: the free mutex is the caller's, with its priority kept for the release;
   * its own is nested once more; another's is refused without waiting; or the caller waits for it,
   * and its owner becomes as urgent as the caller if it was not.
   */
  lemma TakeExactly(s: Sys, wait: bool)
    requires Inv(s) && Running(s)
    ensures var (u, t, m) := (Next(s, Take(wait)), s.current, s.mutex);
            match m.owner
            case None =>
              u == s.(threads := s.threads[t := s.threads[t].(error := Ok)],
                      mutex := Mutex(0, Some(t), s.threads[t].prio, 1), depth := 1)
            case Some(o) =>
              if o == t then
                u == s.(threads := s.threads[t := s.threads[t].(error := Ok)],
                        mutex := m.(hold := (m.hold + 1) % 256), depth := s.depth + 1)
              else if !wait then u == s.(threads := s.threads[t := s.threads[t].(error := Timedout)])
              else
                && u.mutex == m && u.depth == s.depth && o in s.threads
                && u.threads == s.threads[o := s.threads[o].(prio :=
                       if s.threads[t].prio < s.threads[o].prio then s.threads[t].prio else s.threads[o].prio)]
                                         [t := s.threads[t].(error := Ok, stat := Suspend)]
                && Joins(s, s.queues[MUTEX], u.queues[MUTEX], t, true)
  {
    hide AgreeBut, SortedByPrio, SuspendOn, ChangePrio, Place, Inserted;
    if s.mutex.owner.Some? && s.mutex.owner != Some(s.current) && wait {
      BlockedTakeState(s);
      MutexKnown(s);
      var (xs, p) := (s.queues[MUTEX], s.threads[s.current].prio);
      var k := Place(s, xs, p);
      InsertedIs(xs, k, s.current);
    }
  }

  /** A release by another than the owner is refused, a nested one counts down; for the outermost see KernelMutex. */
  lemma ReleaseExactly(s: Sys)
    requires Inv(s) && Running(s) && !(Owner(s, s.current) && (s.mutex.hold + 255) % 256 == 0)
    ensures var (u, t, m) := (Next(s, Release), s.current, s.mutex);
            if m.owner == Some(t) then u == s.(mutex := m.(hold := (m.hold + 255) % 256), depth := s.depth - 1)
            else u == s.(threads := s.threads[t := s.threads[t].(error := Failed)])
  {
    hide AgreeBut, SortedByPrio, ChangePrio, ResumeThread;
  }
}

/**
 * Calls of thread.c that leave the kernel in disorder when another call comes between their
 * regions: two resumes of one thread, a timeout inside a resume, and a priority change inside a
 * deletion. Each is a permitted run up to the last step, which no test of the kernel prevents.
 */
module KernelRaces {
  import opened Base
  import opened Lists
  import opened KernelState
  import opened KernelMutex

  /** The last step of a run is permitted, disturbed, and leaves threads and lists in disagreement. */
  ghost predicate Breaks(s: Sys, es: seq<Event>, last: Event) {
    && Inv(s) && PermittedRun(s, es) && Permitted(After(s, es), last)
    && !Agree(Next(After(s, es), last))
  }

  /** One more event in front of a run. */
  lemma First(s: Sys, e: Event, es: seq<Event>, last: Event)
    requires Inv(s) && Permitted(s, e) && Undisturbed(s, e)
    requires Inv(Next(s, e)) ==> Breaks(Next(s, e), es, last)
    ensures Breaks(s, [e] + es, last)
  {
    StepInv(s, e);
    assert ([e] + es)[1..] == es;
    hide Inv, Next, Undisturbed, Permitted, Agree;
  }

  lemma Now(s: Sys, last: Event)
    requires Inv(s) && Permitted(s, last) && !Agree(Next(s, last))
    ensures Breaks(s, [], last)
  {
  }

  /** A thread in no list is not changed by being taken off its list. */
  lemma UnlinkOff(s: Sys, t: Tid)
    requires Off(s, t)
    ensures Unlink(s, t) == s
  {
    forall p | 0 <= p < |s.ready| ensures Without(s.ready[p], t) == s.ready[p] { WithoutMembers(s.ready[p], t); }
    forall q <- s.queues ensures Without(s.queues[q], t) == s.queues[q] { WithoutMembers(s.queues[q], t); }
    assert Unlink(s, t).ready == s.ready && Unlink(s, t).queues == s.queues;
  }

  lemma PartStep(s: Sys, p: Part)
    requires Inv(s) && PartPermitted(s, p)
    ensures s.threads[p.t].prio < |s.ready| && Permitted(s, Do(p)) && Next(s, Do(p)) == Done(s, p)
    ensures Undisturbed(s, Do(p)) <==> PartUndisturbed(s, p)
    ensures Inv(Done(s, p)) <==> PartUndisturbed(s, p)
  {
    hide Inv, Done, PartPermitted, PartUndisturbed;
    assert Permitted(s, Do(p));
    DoIs(s, p);
    StepInv(s, Do(p));
  }

  /** One of the two resumers of a suspended thread in no list, from its test to its first region. */
  lemma Resumed(s: Sys, t: Tid, es: seq<Event>, last: Event)
    requires Inv(s) && t in s.threads && s.threads[t].stat == Suspend && Off(s, t)
    requires var u := Begun(s, Unlinked(t)); Inv(u) ==> Breaks(u, es, last)
    ensures Breaks(s, [Do(ResumeTest(t))] + ([Do(ResumeUnlink(t))] + es), last)
  {
    var (test, unlink) := (ResumeTest(t), ResumeUnlink(t));
    var u := Begun(s, Resuming(t));
    PartStep(s, test);
    PartStep(u, unlink);
    UnlinkOff(u, t);
    assert Done(u, unlink) == Begun(s, Unlinked(t));
    hide Inv, Breaks, Done, PartUndisturbed, Undisturbed, Permitted;
    First(u, Do(unlink), es, last);
    First(s, Do(test), [Do(unlink)] + es, last);
  }

  /** Two inserts of a thread that was unlinked twice: the second one disagrees. */
  lemma InsertTwice(s: Sys, t: Tid)
    requires Inv(s) && t in s.threads && Off(s, t) && s.calls[Unlinked(t)] >= 2
    ensures Breaks(s, [Do(ResumeInsert(t))], Do(ResumeInsert(t)))
  {
    var insert := ResumeInsert(t);
    PartStep(s, insert);
    var u := Done(s, insert);
    InsertedOnce(s, t);
    PartStep(u, insert);
    PartAgree(u, insert);
    assert [Do(insert)] + [] == [Do(insert)];
    hide Inv, Breaks, Undisturbed, Done, Agree, Permitted, PartUndisturbed;
    Now(u, Do(insert));
    First(s, Do(insert), [], Do(insert));
  }

  lemma InsertedOnce(s: Sys, t: Tid)
    requires t in s.threads && s.threads[t].prio < |s.ready| && s.calls[Unlinked(t)] >= 2
    ensures var u := Done(s, ResumeInsert(t)); PartPermitted(u, ResumeInsert(t)) && !PartUndisturbed(u, ResumeInsert(t))
  {
    var u := Done(s, ResumeInsert(t));
    assert t in u.ready[s.threads[t].prio];
  }

  lemma StillOff(s: Sys, u: Sys, t: Tid)
    requires Off(s, t) && u.ready == s.ready && u.queues == s.queues
    ensures Off(u, t)
  {
  }

  /**
   * Two callers resume the same suspended thread, each from its test to its first region; both
   * then insert it, and it stands twice in its ready list.
   */
  lemma TwoResumes(s: Sys, t: Tid)
    requires Inv(s) && t in s.threads && s.threads[t].stat == Suspend && Off(s, t)
    ensures exists es :: Breaks(s, es, Do(ResumeInsert(t)))
  {
    hide Inv, Breaks, Off, Done;
    var insert := Do(ResumeInsert(t));
    var (u, v) := (Begun(s, Unlinked(t)), Begun(Begun(s, Unlinked(t)), Unlinked(t)));
    StillOff(s, u, t);
    StillOff(u, v, t);
    if Inv(v) {
      InsertTwice(v, t);
    }
    if Inv(u) {
      Resumed(u, t, [insert], insert);
    }
    Resumed(s, t, [Do(ResumeTest(t))] + ([Do(ResumeUnlink(t))] + [insert]), insert);
  }

  /** A thread times out between the test of a resume and its first region: it is READY and in no list. */
  lemma TimeoutInResume(s: Sys, t: Tid)
    requires Inv(s) && t in s.threads && s.threads[t].stat == Suspend && Deleting(t) !in s.calls
    ensures exists es :: Breaks(s, es, Do(ResumeUnlink(t)))
  {
    hide Inv, Breaks, Next, PartUndisturbed, Agree;
    var (test, unlink) := (ResumeTest(t), ResumeUnlink(t));
    var u := Begun(s, Resuming(t));
    PartStep(s, test);
    TestUndisturbed(s, t);
    TimedOut(u, t);
    var v := Next(u, Timeout(t));
    PartStep(v, unlink);
    ReadyDisturbs(v, t);
    Disordered(v, unlink);
    Now(v, Do(unlink));
    First(u, Timeout(t), [], Do(unlink));
    First(s, Do(test), [Timeout(t)] + [], Do(unlink));
  }

  lemma TestUndisturbed(s: Sys, t: Tid)
    requires t in s.threads
    ensures PartUndisturbed(s, ResumeTest(t)) && PartUndisturbed(s, DeleteRemove(t))
  {
  }

  lemma ReadyDisturbs(s: Sys, t: Tid)
    requires t in s.threads && s.threads[t].stat == Ready && Deleting(t) !in s.calls
    ensures !PartUndisturbed(s, ResumeUnlink(t))
  {
  }

  /** A disturbed part breaks agreement. */
  lemma Disordered(s: Sys, p: Part)
    requires Inv(s) && PartPermitted(s, p) && !PartUndisturbed(s, p)
    ensures Permitted(s, Do(p)) && !Agree(Next(s, Do(p)))
  {
    hide MutexInv, AgreeBut, PartUndisturbed, Done;
    PartStep(s, p);
    PartAgree(s, p);
  }

  lemma TimedOut(s: Sys, t: Tid)
    requires Inv(s) && t in s.threads && s.threads[t].stat == Suspend
    ensures Permitted(s, Timeout(t)) && Undisturbed(s, Timeout(t)) && Inv(Next(s, Timeout(t)))
    ensures var u := Next(s, Timeout(t)); t in u.threads && u.threads[t].stat == Ready && u.calls == s.calls
  {
    assert Permitted(s, Timeout(t)) && Undisturbed(s, Timeout(t));
    StepInv(s, Timeout(t));
    hide Inv;
  }

  /** The priority of a half deleted thread is changed: it is closed while it stands in a ready list. */
  lemma PriorityInDeletion(s: Sys, t: Tid, p: nat)
    requires Inv(s) && t in s.threads && s.threads[t].stat == Ready && !Owner(s, t) && p < |s.ready|
    ensures exists es :: Breaks(s, es, Do(DeleteClose(t)))
  {
    hide Inv, Breaks, Done, Next, PartUndisturbed, Undisturbed, Agree;
    var (remove, close) := (DeleteRemove(t), DeleteClose(t));
    PartStep(s, remove);
    TestUndisturbed(s, t);
    Removed(s, t);
    var u := Done(s, remove);
    Relisted(u, t, p);
    var v := Next(u, SetPriority(t, p));
    Disordered(v, close);
    Now(v, Do(close));
    First(u, SetPriority(t, p), [], Do(close));
    First(s, Do(remove), [SetPriority(t, p)] + [], Do(close));
  }

  lemma Removed(s: Sys, t: Tid)
    requires Inv(s) && t in s.threads && s.threads[t].prio < |s.ready| && !Owner(s, t)
    ensures var u := Done(s, DeleteRemove(t));
            u.threads == s.threads && |u.ready| == |s.ready| && u.mutex == s.mutex && Deleting(t) in u.calls
                && !Waiter(u, t)
  {
    if MUTEX in s.queues { WithoutMembers(s.queues[MUTEX], t); }
  }

  /** A READY thread in no list whose priority is set is back in a ready list. */
  lemma Relisted(s: Sys, t: Tid, p: nat)
    requires Inv(s) && t in s.threads && s.threads[t].stat == Ready && p < |s.ready|
    requires !Owner(s, t) && !Waiter(s, t) && Deleting(t) in s.calls
    ensures var e := SetPriority(t, p);
            && Permitted(s, e) && Undisturbed(s, e) && Inv(Next(s, e))
            && PartPermitted(Next(s, e), DeleteClose(t)) && !PartUndisturbed(Next(s, e), DeleteClose(t))
  {
    hide Fits, Inv, Next, ChangePrio;
    var e := SetPriority(t, p);
    FitsFreely(s, t, p);
    assert Permitted(s, e) && Undisturbed(s, e);
    StepInv(s, e);
    PriorityIs(s, e);
    PriorityCalls(s, t, p);
  }

  lemma FitsFreely(s: Sys, t: Tid, p: nat)
    requires Inv(s) && !Owner(s, t) && !Waiter(s, t)
    ensures Fits(s, t, p)
  {
    assert forall i :: 0 <= i < |s.queues[MUTEX]| ==> s.queues[MUTEX][i] in s.queues[MUTEX];
  }

  lemma PriorityCalls(s: Sys, t: Tid, p: nat)
    requires t in s.threads && s.threads[t].stat == Ready && p < |s.ready|
    ensures ChangePrio(s, t, p).calls == s.calls && t in ChangePrio(s, t, p).threads
    ensures p < |ChangePrio(s, t, p).ready| && t in ChangePrio(s, t, p).ready[p]
  {
    hide Unlink;
    assert |Unlink(s, t).ready| == |s.ready| && Unlink(s, t).calls == s.calls by { UnlinkSizes(s, t); }
  }

  lemma UnlinkSizes(s: Sys, t: Tid)
    ensures |Unlink(s, t).ready| == |s.ready| && Unlink(s, t).calls == s.calls
  {
  }

  /** Agreement that makes no exception for threads being deleted. */
  ghost predicate Strict(s: Sys) {
    Agree(s.(calls := multiset{}))
  }

  /** Between the parts of its deletion a READY thread is in no list; its close settles that. */
  lemma HalfDeleted(s: Sys, t: Tid)
    requires Inv(s) && t in s.threads && s.threads[t].stat == Ready && !Owner(s, t)
    requires forall x :: Deleting(x) !in s.calls
    ensures s.threads[t].prio < |s.ready| && Strict(s) && !Strict(Done(s, DeleteRemove(t)))
    ensures var u := Done(s, DeleteRemove(t)); Strict(Done(u, DeleteClose(t)))
  {
    hide ReadyBut, QueuesBut, MutexInv, Unlink, CloseThread;
    PrioInRange(s, t);
    var s0 := s.(calls := multiset{});
    CallsOnly(s, s0);
    UnlinkExactly(s0, t);
    UnlinkCalls(s, t);
    CloseAgree(s0, t);
    CloseForm(s, t);
  }

  lemma UnlinkCalls(s: Sys, t: Tid)
    ensures Unlink(s.(calls := multiset{}), t) == Unlink(s, t).(calls := multiset{})
        && Unlink(s, t).threads == s.threads
  {
  }

  lemma CloseForm(s: Sys, t: Tid)
    requires t in s.threads && s.threads[t].prio < |s.ready|
    ensures var u := Done(s, DeleteRemove(t));
            && t in u.threads && u.threads[t].prio < |u.ready|
            && Done(u, DeleteClose(t)).(calls := multiset{}) == CloseThread(s.(calls := multiset{}), t)
  {
  }

  // ---- From the start ----

  /** Every thread that is created and started stands suspended in no list before it is resumed. */
  lemma Started(s: Sys, t: Tid, prio: nat, tick: u32)
    requires Inv(s) && t !in s.threads && prio < |s.ready|
    ensures Permitted(s, Create(t, prio, tick)) && Undisturbed(s, Create(t, prio, tick))
    ensures var u := Next(s, Create(t, prio, tick));
            && Inv(u) && Permitted(u, Startup(t)) && Undisturbed(u, Startup(t))
            && var v := Next(u, Startup(t)); Inv(v) && t in v.threads && v.threads[t].stat == Suspend && Off(v, t)
  {
    hide Inv, AgreeBut, Off;
    StrangerOff(s, t);
    StepInv(s, Create(t, prio, tick));
    var u := Next(s, Create(t, prio, tick));
    StepInv(u, Startup(t));
    StillOff(s, Next(u, Startup(t)), t);
  }

  lemma StrangerOff(s: Sys, t: Tid)
    requires Inv(s) && t !in s.threads
    ensures Off(s, t)
  {
    hide MutexInv, NoDup;
  }

  /** The two resumes after the start of a kernel: a run that ends with one thread twice in a list. */
  lemma TwoResumesFromBoot(t: Tid, tick: u32)
    ensures exists es :: Breaks(Boot(1, {}), es, Do(ResumeInsert(t)))
  {
    hide Inv, Breaks, Next, Off, Undisturbed, Permitted;
    var (s, create, start) := (Boot(1, {}), Create(t, 0, tick), Startup(t));
    Started(s, t, 0, tick);
    var u := Next(s, create);
    var v := Next(u, start);
    TwoResumes(v, t);
    var es :| Breaks(v, es, Do(ResumeInsert(t)));
    First(u, start, es, Do(ResumeInsert(t)));
    First(s, create, [start] + es, Do(ResumeInsert(t)));
  }

  // ---- A thread that runs, and takes the mutex too often ----

  ghost predicate RunsTo(s: Sys, es: seq<Event>, u: Sys) {
    Inv(s) && PermittedRun(s, es) && After(s, es) == u
  }

  lemma Ahead(s: Sys, e: Event, es: seq<Event>, u: Sys)
    requires Inv(s) && Permitted(s, e) && Undisturbed(s, e)
    requires Inv(Next(s, e)) ==> RunsTo(Next(s, e), es, u)
    ensures RunsTo(s, [e] + es, u)
  {
    StepInv(s, e);
    assert ([e] + es)[1..] == es;
    hide Inv, Next, Undisturbed, Permitted, Agree;
  }

  lemma Stay(s: Sys)
    requires Inv(s)
    ensures RunsTo(s, [], s)
  {
  }

  /** A thread that has been unlinked by its resumer is inserted, and the scheduler picks it. */
  lemma Picked(s: Sys, t: Tid)
    requires Inv(s) && t in s.threads && Off(s, t) && Unlinked(t) in s.calls && Deleting(t) !in s.calls
    requires s.lockNest == 0 && s.ready == [[]] && s.mutex.owner.None?
    ensures exists u, es :: RunsTo(s, es, u) && Running(u) && u.current == t && u.mutex.owner.None?
  {
    hide Inv, Off, Next, RunsTo, Undisturbed, Permitted, Schedule;
    var insert := ResumeInsert(t);
    InsertPermitted(s, t);
    PartStep(s, insert);
    var u := Done(s, insert);
    InsertedFirst(s, t);
    RescheduleStep(u);
    var v := Schedule(u);
    Stay(v);
    Ahead(u, Reschedule, [], v);
    Ahead(s, Do(insert), [Reschedule] + [], v);
  }

  lemma InsertPermitted(s: Sys, t: Tid)
    requires t in s.threads && Off(s, t) && Unlinked(t) in s.calls
    ensures PartPermitted(s, ResumeInsert(t)) && PartUndisturbed(s, ResumeInsert(t))
  {
  }

  lemma InsertedFirst(s: Sys, t: Tid)
    requires t in s.threads && s.threads[t].prio < |s.ready| && s.ready == [[]] && s.lockNest == 0
    requires Deleting(t) !in s.calls
    ensures var v := Schedule(Done(s, ResumeInsert(t))); v.current == t && Running(v) && v.mutex == s.mutex
  {
    var u := Done(s, ResumeInsert(t));
    assert s.threads[t].prio == 0 && s.ready[0] == [] && [] + [t] == [t];
    assert |u.ready| == 1 && u.ready[0] == [t];
    assert TopFrom(u, 0) == Some(0);
  }

  lemma RescheduleStep(s: Sys)
    requires Inv(s)
    ensures Permitted(s, Reschedule) && Undisturbed(s, Reschedule)
    ensures Next(s, Reschedule) == Schedule(s) && Inv(Schedule(s))
  {
    StepInv(s, Reschedule);
  }

  /** From the start of a kernel with one priority, a thread can come to run. */
  lemma FirstThread(t: Tid, tick: u32)
    ensures exists u, es :: RunsTo(Boot(1, {}), es, u) && Running(u) && u.current == t && u.mutex.owner.None?
  {
    hide Inv, RunsTo, Next, Off, Undisturbed, Permitted, Running, Done, Boot;
    var (s, create, start) := (Boot(1, {}), Create(t, 0, tick), Startup(t));
    BootForm();
    Started(s, t, 0, tick);
    StartedForm(s, t, tick);
    var v := Next(Next(s, create), start);
    var (test, unlink) := (ResumeTest(t), ResumeUnlink(t));
    var w := Begun(v, Resuming(t));
    KnownPriority(v, t);
    TestPermitted(v, t);
    PartStep(v, test);
    PartStep(w, unlink);
    StillOff(v, w, t);
    UnlinkOff(w, t);
    var x := Begun(v, Unlinked(t));
    assert Done(w, unlink) == x by { OnwardForm(v, w, x, t); }
    StillOff(v, x, t);
    Picked(x, t);
    var u, es :| RunsTo(x, es, u) && Running(u) && u.current == t && u.mutex.owner.None?;
    Ahead(w, Do(unlink), es, u);
    Ahead(v, Do(test), [Do(unlink)] + es, u);
    Ahead(Next(s, create), start, [Do(test)] + ([Do(unlink)] + es), u);
    Ahead(s, create, [start] + ([Do(test)] + ([Do(unlink)] + es)), u);
  }

  lemma BootForm()
    ensures var s := Boot(1, {});
            s.threads == map[] && s.ready == [[]] && s.lockNest == 0 && s.mutex.owner.None? && s.calls == multiset{}
  {
  }

  lemma StartedForm(s: Sys, t: Tid, tick: u32)
    requires Inv(s) && t !in s.threads && 0 < |s.ready| && Permitted(s, Create(t, 0, tick))
    requires Inv(Next(s, Create(t, 0, tick))) && Permitted(Next(s, Create(t, 0, tick)), Startup(t))
    ensures var v := Next(Next(s, Create(t, 0, tick)), Startup(t));
            v.ready == s.ready && v.lockNest == s.lockNest && v.mutex == s.mutex && v.calls == s.calls
  {
    hide Inv;
  }

  lemma KnownPriority(s: Sys, t: Tid)
    requires Inv(s) && t in s.threads
    ensures s.threads[t].prio < |s.ready|
  {
    PrioInRange(s, t);
  }

  lemma TestPermitted(s: Sys, t: Tid)
    requires t in s.threads && s.threads[t].stat == Suspend && s.threads[t].prio < |s.ready|
    ensures var (test, u, unlink) := (ResumeTest(t), Begun(s, Resuming(t)), ResumeUnlink(t));
            && PartPermitted(s, test) && PartUndisturbed(s, test) && Done(s, test) == u
            && PartPermitted(u, unlink) && PartUndisturbed(u, unlink)
  {
  }

  lemma OnwardForm(v: Sys, w: Sys, x: Sys, t: Tid)
    requires w == Begun(v, Resuming(t)) && x == Begun(v, Unlinked(t)) && Unlink(w, t) == w
    requires t in w.threads && w.threads[t].prio < |w.ready|
    ensures Done(w, ResumeUnlink(t)) == x
  {
  }

  /** After 257 nested takes one release gives the mutex away: hold has wrapped to one. */
  lemma TooManyTakes(s: Sys)
    requires Inv(s) && Running(s) && s.mutex.owner.None?
    ensures Owner(TakeTimes(s, 257), s.current) && KeepsUntil(TakeTimes(s, 257), s.current, 1)
  {
    hide Inv, KeepsUntil, TakeTimes;
    FreeDepth(s);
    KeepsUntilFree(TakeTimes(s, 257));
    assert ReleasesUntilFree(257) == 1;
  }
}

/**
 * scheduler.c, thread.c and the mutex of ipc.c in place: the ready table, the priority bitmap and
 * the thread records, each operation proved to be the step of the transition system.
 */
module KernelObject {
  import opened Base
  import opened Lists
  import opened Bits
  import opened ReadyBitmap
  import opened KernelState
  import opened KernelMutex

  /** A bit of the group is set exactly for the ready lists that are not empty. */
  ghost predicate BitmapFor(g: nat, lists: seq<seq<Tid>>) {
    |lists| <= 32 && forall p: nat :: p < 32 ==> (Bit(g, p) <==> p < |lists| && lists[p] != [])
  }

  lemma BitmapInserted(g: nat, lists: seq<seq<Tid>>, p: nat, xs: seq<Tid>)
    requires BitmapFor(g, lists) && p < |lists| && xs != []
    ensures BitmapFor(Or(g, Pow2(p)), lists[p := xs])
  {
    hide Bit, Pow2, Or, AndNot;
    forall q: nat | q < 32 ensures Bit(Or(g, Pow2(p)), q) <==> Bit(g, q) || p == q {
      SetBit(g, p, q);
    }
  }

  lemma BitmapRemoved(g: nat, lists: seq<seq<Tid>>, lists1: seq<seq<Tid>>, p: nat)
    requires BitmapFor(g, lists) && p < |lists| == |lists1|
    requires forall q :: 0 <= q < |lists| && q != p ==> lists1[q] == lists[q]
    requires lists1[p] != [] ==> lists[p] != []
    ensures BitmapFor(if lists1[p] == [] then AndNot(g, Pow2(p)) else g, lists1)
  {
    hide Bit, Pow2, Or, AndNot;
    forall q: nat | q < 32 ensures Bit(AndNot(g, Pow2(p)), q) <==> Bit(g, q) && p != q {
      ClearBit(g, p, q);
    }
  }

  lemma BitmapSame(g: nat, lists: seq<seq<Tid>>, lists1: seq<seq<Tid>>)
    requires BitmapFor(g, lists) && |lists| == |lists1|
    requires forall q :: 0 <= q < |lists| ==> (lists1[q] == [] <==> lists[q] == [])
    ensures BitmapFor(g, lists1)
  {
    hide Bit;
  }

  class Kernel {
    /** The thread control blocks. */
    var threads: map<Tid, Thread>
    /** number_mask of each thread. */
    var mask: map<Tid, nat>
    /** rt_thread_priority_table. */
    const table: array<seq<Tid>>
    /** rt_thread_ready_priority_group. */
    var group: nat
    /** The suspend lists of the IPC objects. */
    var queues: map<nat, seq<Tid>>
    /** rt_current_thread and rt_scheduler_lock_nest. */
    var current: Tid
    var lockNest: nat
    var mutex: Mutex
    ghost var depth: nat
    /** The calls of other threads that are under way between two regions. */
    ghost var calls: multiset<Call>

    ghost function View(): Sys
      reads this, table
    {
      Sys(threads, table[..], queues, current, lockNest, mutex, depth, calls)
    }

    ghost predicate BitmapAgrees()
      reads this`group, table
    {
      BitmapFor(group, table[..])
    }

    /** number_mask is the bit of the current priority once the thread has been started. */
    ghost predicate MasksAgree()
      reads this`threads, this`mask
    {
      forall t <- threads :: threads[t].stat != Init ==>
        t in mask && threads[t].prio < 32 && mask[t] == Pow2(threads[t].prio)
    }

    ghost predicate Valid()
      reads this, table
    {
      table.Length <= 32 && BitmapAgrees() && MasksAgree() && Agree(View())
    }

    /** rt_system_scheduler_init. */
    constructor (priorities: nat, ipc: set<nat>)
      requires priorities <= 32
      ensures Valid() && fresh(table)
      ensures View() == Sys(map[], seq(priorities, _ => []), map q <- ipc + {MUTEX} :: [], 0, 0,
                            Mutex(1, None, 0xFF, 0), 0, multiset{})
    {
      threads, mask, group := map[], map[], 0;
      table := new seq<Tid>[priorities](_ => []);
      queues := map q <- ipc + {MUTEX} :: [];
      current, lockNest, depth, calls := 0, 0, 0, multiset{};
      mutex := Mutex(1, None, 0xFF, 0);
      new;
      forall p: nat ensures !Bit(0, p) { ZeroBit(p); }
      assert table[..] == seq(priorities, _ => []);
    }

    /** rt_list_remove(&thread->tlist). */
    method ListRemove(t: Tid)
      modifies this`queues, table
      ensures View() == Unlink(old(View()), t)
    {
      forall p | 0 <= p < table.Length {
        table[p] := Without(table[p], t);
      }
      queues := map q <- queues :: Without(queues[q], t);
    }

    /** rt_schedule_insert_thread. */
    method InsertThread(t: Tid)
      requires BitmapAgrees()
      requires t in threads && t in mask && threads[t].prio < table.Length <= 32 && mask[t] == Pow2(threads[t].prio)
      modifies this`threads, this`group, table
      ensures BitmapAgrees() && View() == InsertReady(old(View()), t)
    {
      hide BitmapFor, Pow2, Or, AndNot;
      var p := threads[t].prio;
      ghost var lists := table[..][p := table[p] + [t]];
      BitmapInserted(group, table[..], p, table[p] + [t]);
      threads := threads[t := threads[t].(stat := Ready)];
      group := Or(group, mask[t]);
      table[p] := table[p] + [t];
      assert table[..] == lists;
    }

    /** rt_schedule_remove_thread. */
    method RemoveThread(t: Tid)
      requires BitmapAgrees() && t in threads && t in mask && threads[t].prio < table.Length <= 32
      requires mask[t] == Pow2(threads[t].prio)
      requires forall p :: 0 <= p < table.Length && p != threads[t].prio ==> t !in table[p]
      modifies this`queues, this`group, table
      ensures BitmapAgrees() && View() == Unlink(old(View()), t)
    {
      hide BitmapFor, Pow2, Or, AndNot;
      var p := threads[t].prio;
      forall q: nat | q < table.Length ensures q != p ==> Without(table[q], t) == table[q] {
        WithoutMembers(table[q], t);
      }
      WithoutMembers(table[p], t);
      BitmapRemoved(group, table[..], Unlink(View(), t).ready, p);
      ListRemove(t);
      if table[p] == [] {
        group := AndNot(group, mask[t]);
      }
    }

    /** rt_schedule. */
    method Reschedule()
      requires Valid() && exists t <- threads :: threads[t].stat == Ready && Deleting(t) !in calls
      modifies this`current
      ensures Valid() && View() == Schedule(old(View()))
    {
      hide BitmapFor, AgreeBut, FindFirst;
      if lockNest == 0 {
        ghost var t :| t in threads && threads[t].stat == Ready && Deleting(t) !in calls;
        FirstIsTop(group, View(), t);
        var highest := FindFirst(group);
        var to := table[highest][0];
        if to != current {
          current := to;
        }
        SameListsAgree(old(View()), View());
      }
    }

    /** The region of rt_thread_suspend. */
    method SuspendRegion(t: Tid)
      requires Valid() && t in threads && threads[t].stat != Init
      modifies this`threads, this`queues, this`group, table
      ensures Valid() && View() == SuspendNow(old(View()), t)
    {
      hide BitmapFor, Pow2, Or, AndNot, ReadyBut, QueuesBut;
      PrioInRange(View(), t);
      SuspendAgree(View(), t);
      ReadyOnlyThere(View(), t);
      threads := threads[t := threads[t].(stat := Suspend)];
      RemoveThread(t);
    }

    /** rt_thread_suspend with interrupts disabled, as the IPC lists call it. */
    method ThreadSuspend(t: Tid)
      requires Valid() && t in threads
      modifies this`threads, this`queues, this`group, table
      ensures Valid() && View() == SuspendThread(old(View()), t)
    {
      if threads[t].stat == Ready {
        SuspendRegion(t);
      }
    }

    /** The first region of rt_thread_resume: its rt_list_remove leaves the bitmap alone. */
    method ResumeUnlink(t: Tid)
      requires Valid() && t in threads && threads[t].stat != Ready && Resuming(t) in calls
      modifies this`queues, this`calls, table
      ensures Valid() && View() == Onward(Unlink(old(View()), t), Resuming(t), Unlinked(t))
    {
      hide BitmapFor, ReadyBut, QueuesBut;
      ghost var s := View();
      UnlinkExactly(s, t);
      ListRemoveKeepsBitmap(t);
      ListRemove(t);
      calls := calls - multiset{Resuming(t)} + multiset{Unlinked(t)};
      CallsOnly(Unlink(s, t), View());
    }

    /** Its second region: rt_schedule_insert_thread. */
    method ResumeInsert(t: Tid)
      requires Valid() && t in threads && threads[t].stat != Init && Unlinked(t) in calls
      requires (forall p :: 0 <= p < table.Length ==> t !in table[p]) && forall q <- queues :: t !in queues[q]
      modifies this`threads, this`group, this`calls, table
      ensures Valid() && View() == Over(InsertReady(old(View()), t), Unlinked(t))
    {
      hide BitmapFor, Pow2, Or, AndNot, ReadyBut, QueuesBut;
      ghost var s := View();
      PrioInRange(s, t);
      InsertExactly(s, t);
      InsertThread(t);
      calls := calls - multiset{Unlinked(t)};
      CallsOnly(InsertReady(s, t), View());
    }

    /** The first region of rt_thread_delete: rt_schedule_remove_thread. */
    method DeleteRemove(t: Tid)
      requires Valid() && t in threads && threads[t].stat != Init
      modifies this`queues, this`group, this`calls, table
      ensures Valid() && View() == Begun(Unlink(old(View()), t), Deleting(t))
    {
      hide BitmapFor, Pow2, Or, AndNot, ReadyBut, QueuesBut;
      ghost var s := View();
      PrioInRange(s, t);
      RemovedAgree(s, t);
      ReadyOnlyThere(s, t);
      RemoveThread(t);
      calls := calls + multiset{Deleting(t)};
    }

    /** Its last write, with interrupts enabled. */
    method DeleteClose(t: Tid)
      requires Valid() && t in threads && threads[t].stat != Init && Deleting(t) in calls
      requires forall p :: 0 <= p < table.Length ==> t !in table[p]
      modifies this`threads, this`calls
      ensures Valid() && View() == Over(SetThread(old(View()), t, old(threads)[t].(stat := Closed)), Deleting(t))
    {
      hide BitmapFor, Pow2, ReadyBut, QueuesBut;
      ghost var s := View();
      PrioInRange(s, t);
      BeingDeleted(s, t);
      CloseExactly(s, t);
      threads := threads[t := threads[t].(stat := Closed)];
      calls := calls - multiset{Deleting(t)};
    }

    /** rt_thread_resume with interrupts disabled: rt_ipc_list_resume. */
    method ThreadResume(t: Tid)
      requires Valid() && t in threads
      modifies this`threads, this`queues, this`group, table
      ensures Valid() && View() == ResumeThread(old(View()), t)
    {
      hide BitmapFor, Pow2, Or, AndNot, ReadyBut, QueuesBut;
      ghost var s := View();
      PrioInRange(s, t);
      ResumeAgree(s, t);
      if threads[t].stat == Suspend {
        ListRemoveKeepsBitmap(t);
        ListRemove(t);
        InsertThread(t);
      }
    }

    /** Removing a thread that is in no ready list leaves the bitmap right. */
    lemma ListRemoveKeepsBitmap(t: Tid)
      requires Agree(View()) && t in threads && threads[t].stat != Ready
      ensures Unlink(View(), t).ready == table[..]
    {
      forall p | 0 <= p < table.Length ensures Without(table[p], t) == table[p] {
        assert t !in View().ready[p];
        WithoutMembers(table[p], t);
      }
    }

    /** rt_thread_timeout, called by the thread's timer. */
    method ThreadTimeout(t: Tid)
      requires Valid() && t in threads && threads[t].stat == Suspend
      modifies this, table
      ensures Valid() && View() == TimeoutThread(old(View()), t)
    {
      hide BitmapFor, Pow2, Or, AndNot, ReadyBut, QueuesBut;
      ghost var s := View();
      PrioInRange(s, t);
      TimeoutAgree(s, t);
      threads := threads[t := threads[t].(error := Timedout)];
      SameListsAgree(s, View());
      ListRemoveKeepsBitmap(t);
      ListRemove(t);
      InsertThread(t);
    }

    /** What rt_thread_startup writes before it resumes the thread. */
    method ThreadStartup(t: Tid)
      requires Valid() && t in threads && threads[t].stat == Init
      modifies this`threads, this`mask
      ensures Valid() && View() == StartThread(old(View()), t)
    {
      hide BitmapFor, Pow2, ReadyBut, QueuesBut;
      ghost var s := View();
      PrioInRange(s, t);
      StartAgree(s, t);
      var r := threads[t].(prio := threads[t].initPrio, stat := Suspend);
      threads := threads[t := r];
      mask := mask[t := Pow2(r.prio)];
    }

    /** rt_thread_yield: the guard on the thread's list node means another thread in its ready list. */
    method ThreadYield()
      requires Valid() && current in threads
      modifies this, table
      ensures Valid() && View() == YieldThread(old(View()))
    {
      hide BitmapFor, Pow2, Or, AndNot, ReadyBut, QueuesBut;
      ghost var s := View();
      PrioInRange(s, current);
      YieldAgree(s);
      var (t, p) := (current, threads[current].prio);
      if threads[t].stat == Ready && t in table[p] && |table[p]| >= 2 {
        YieldMoves(s, t);
        ListRemove(t);
        table[p] := table[p] + [t];
        assert table[..] == YieldThread(s).ready;
        BitmapSame(group, s.ready, table[..]);
        assert threads[t := threads[t].(stat := Ready)] == threads;
      }
    }

    /** RT_THREAD_CTRL_CHANGE_PRIORITY. */
    method ChangePriority(t: Tid, p: nat)
      requires Valid() && t in threads && p < table.Length
      modifies this, table
      ensures Valid() && View() == ChangePrio(old(View()), t, p)
    {
      hide BitmapFor, Pow2, Or, AndNot, ReadyBut, QueuesBut;
      ghost var s := View();
      PrioInRange(s, t);
      ChangePrioAgree(s, t, p);
      if threads[t].stat == Ready {
        ReadyOnlyThere(s, t);
        RemoveThread(t);
        threads := threads[t := threads[t].(prio := p)];
        mask := mask[t := Pow2(p)];
        InsertThread(t);
      } else {
        threads := threads[t := threads[t].(prio := p)];
        mask := mask[t := Pow2(p)];
      }
    }

    /** rt_ipc_list_suspend: the search loop for the place in a priority queue. */
    method IpcListSuspend(q: nat, t: Tid, byPrio: bool)
      requires Valid() && t in threads && threads[t].stat == Ready && Deleting(t) !in calls && q in queues
      modifies this, table
      ensures Valid() && View() == SuspendOn(old(View()), q, t, byPrio)
    {
      hide BitmapAgrees, ReadyBut, QueuesBut, SuspendThread;
      ghost var s := View();
      SuspendOnAgree(s, q, t, byPrio);
      SuspendFrame(s, t);
      QueueKnown(s, q);
      ThreadSuspend(t);
      var k := |queues[q]|;
      if byPrio {
        k := FindPlace(q, threads[t].prio);
        SamePlace(s, View(), s.queues[q], s.threads[t].prio);
      }
      queues := queues[q := Inserted(queues[q], k, t)];
    }

    /** rt_enter_critical. */
    method EnterCritical()
      requires Valid()
      modifies this`lockNest
      ensures Valid() && View() == old(View()).(lockNest := old(lockNest) + 1)
    {
      lockNest := lockNest + 1;
      SameListsAgree(old(View()), View());
    }

    /** rt_exit_critical up to the reschedule. */
    method ExitCritical()
      requires Valid()
      modifies this`lockNest
      ensures Valid() && View() == old(View()).(lockNest := Less(old(lockNest)))
    {
      if lockNest > 0 {
        lockNest := lockNest - 1;
      }
      SameListsAgree(old(View()), View());
    }

    /** The time slice part of rt_tick_increase. */
    method TickIncrease()
      requires Valid() && current in threads
      modifies this, table
      ensures Valid() && View() == TickSlice(old(View()))
    {
      hide BitmapFor, AgreeBut, YieldThread;
      ghost var s := View();
      PrioInRange(s, current);
      var r := threads[current];
      var left := Wrap(r.remaining - 1);
      threads := threads[current := r.(remaining := left)];
      SameListsAgree(s, View());
      if left == 0 {
        threads := threads[current := r.(remaining := r.initTick)];
        assert View() == SetThread(s, current, r.(remaining := r.initTick));
        SameListsAgree(s, View());
        ThreadYield();
      }
    }

    /** The sleeping branch of rt_mutex_take: reset the error, boost the owner, then queue up. */
    method TakeBlocking()
      requires Valid() && MutexInv(View()) && Running(View()) && mutex.owner.Some? && mutex.owner.value != current
      modifies this, table
      ensures Valid() && View() == MutexTake(old(View()), true)
    {
      ghost var s := View();
      BoostedState(s);
      ResetError();
      hide Valid, AgreeBut, SuspendOn, ChangePrio, MutexInv, MutexTake;
      Opened();
      var (t, o) := (current, mutex.owner.value);
      if threads[t].prio < threads[o].prio {
        ChangePriority(o, threads[t].prio);
      }
      assert View() == Boosted(s);
      IpcListSuspend(MUTEX, t, true);
    }

    /** thread->error = RT_EOK. */
    method ResetError()
      requires Valid() && current in threads
      modifies this`threads
      ensures Valid() && View() == SetThread(old(View()), current, old(threads)[current].(error := Ok))
    {
      hide AgreeBut;
      threads := threads[current := threads[current].(error := Ok)];
      SameListsAgree(old(View()), View());
    }

    lemma Opened()
      requires Valid()
      ensures table.Length == |View().ready| && forall t <- threads :: threads[t].prio < table.Length
    {
    }

    /** The branches of rt_mutex_take that return at once. */
    method TakeNow(wait: bool)
      requires Valid() && current in threads
      modifies this
      ensures Valid() && View() == TakenNow(old(View()), wait)
    {
      hide BitmapAgrees, AgreeBut;
      ghost var s := View();
      var t := current;
      if mutex.owner == Some(t) {
        threads := threads[t := threads[t].(error := Ok)];
        mutex := mutex.(hold := (mutex.hold + 1) % 256);
        depth := depth + 1;
      } else if mutex.value > 0 {
        threads := threads[t := threads[t].(error := Ok)];
        mutex := Mutex(mutex.value - 1, Some(t), threads[t].prio, (mutex.hold + 1) % 256);
        depth := 1;
      } else {
        threads := threads[t := threads[t].(error := if wait then Ok else Timedout)];
      }
      SameListsAgree(s, View());
    }

    /** rt_mutex_take up to the sleep: true means the caller went to sleep. */
    method TakeMutex(wait: bool) returns (asleep: bool)
      requires Valid() && MutexInv(View()) && Running(View())
      modifies this, table
      ensures Valid() && MutexInv(View()) && View() == MutexTake(old(View()), wait)
      ensures asleep <==> wait && old(mutex.owner.Some? && mutex.owner.value != current)
    {
      OwnerKnown(View());
      TakeMutexInv(View(), wait);
      hide Valid, MutexInv, TakenNow, SuspendOn, ChangePrio;
      asleep := wait && mutex.owner.Some? && mutex.owner.value != current;
      if asleep {
        TakeBlocking();
      } else {
        TakeNow(wait);
      }
    }

    /** The outermost release: restore the priority, then hand over or free. */
    method ReleaseOutermost()
      requires Valid() && MutexInv(View()) && Running(View()) && mutex.owner == Some(current)
      requires (mutex.hold + 255) % 256 == 0
      modifies this, table
      ensures Valid() && Permitted(old(View()), Release) && View() == Next(old(View()), Release)
    {
      ghost var s := View();
      ReleaseForm(s);
      hide Valid, Inv, AgreeBut, ChangePrio, MutexInv, Next;
      Opened();
      if mutex.original != threads[current].prio {
        ChangePriority(current, mutex.original);
      }
      ghost var s1 := View();
      assert s1 == Restored(s);
      HandOver();
    }

    /** Give the mutex to the first waiter, or free it. */
    method HandOver()
      requires Valid() && MUTEX in queues && forall w <- queues[MUTEX] :: w in threads
      modifies this, table
      ensures Valid() && View() == Handed(old(View()))
    {
      hide BitmapFor, ReadyBut, QueuesBut;
      ghost var s := View();
      if queues[MUTEX] != [] {
        var w := queues[MUTEX][0];
        PrioInRange(s, w);
        ThreadResume(w);
        mutex := Mutex(mutex.value, Some(w), threads[w].prio, 1);
        depth := 1;
        SameListsAgree(ResumeThread(s, w), View());
      } else {
        mutex := Mutex(mutex.value + 1, None, 0xFF, 0);
        depth := 0;
        SameListsAgree(s, View());
      }
    }

    /** The branches of rt_mutex_release that keep the owner. */
    method ReleaseNow()
      requires Valid() && Running(View())
      modifies this
      ensures Valid() && View() == ReleasedInside(old(View()))
    {
      hide BitmapFor, AgreeBut;
      ghost var s := View();
      if mutex.owner != Some(current) {
        threads := threads[current := threads[current].(error := Failed)];
      } else {
        mutex := mutex.(hold := (mutex.hold + 255) % 256);
        depth := Less(depth);
      }
      SameListsAgree(s, View());
    }

    /** rt_mutex_release: fails for a caller that is not the owner. */
    method ReleaseMutex() returns (failed: bool)
      requires Valid() && MutexInv(View()) && Running(View())
      modifies this, table
      ensures Valid() && MutexInv(View())
      ensures Permitted(old(View()), Release) && View() == Next(old(View()), Release)
      ensures failed <==> old(mutex.owner != Some(current))
    {
      hide BitmapAgrees, MasksAgree, MutexInv, AgreeBut, Next, ReleasedInside, Permitted;
      ReleaseKeeps(View());
      ReleaseUnfold(View());
      failed := mutex.owner != Some(current);
      if !failed && (mutex.hold + 255) % 256 == 0 {
        ReleaseOutermost();
      } else {
        ReleaseNow();
      }
    }

    /** The first thread of a queue that is less urgent. */
    method FindPlace(q: nat, prio: nat) returns (k: nat)
      requires q in queues && forall x <- queues[q] :: x in threads
      ensures k == Place(View(), queues[q], prio)
    {
      var xs := queues[q];
      k := 0;
      while k < |xs| && threads[xs[k]].prio <= prio
        invariant k <= |xs|
        invariant Place(View(), xs, prio) == k + Place(View(), xs[k..], prio)
      {
        k := k + 1;
      }
    }
  }

  /** What the outermost release does once the priority is restored. */
  ghost function Handed(s: Sys): Sys
    requires MUTEX in s.queues && forall w <- s.queues[MUTEX] :: w in s.threads && s.threads[w].prio < |s.ready|
  {
    var xs := s.queues[MUTEX];
    if xs == [] then s.(mutex := Mutex(s.mutex.value + 1, None, 0xFF, 0), depth := 0)
    else
      ResumeThread(s, xs[0]).(mutex := Mutex(s.mutex.value, Some(xs[0]), s.threads[xs[0]].prio, 1), depth := 1)
  }

  lemma OwnerKnown(s: Sys)
    requires Inv(s)
    ensures MUTEX in s.queues
    ensures s.mutex.owner.None? ==> s.mutex.value == 1
    ensures s.mutex.owner.Some? ==>
              s.mutex.value == 0 && s.mutex.owner.value in s.threads && s.mutex.original < |s.ready|
  {
  }

  lemma ReleaseKeeps(s: Sys)
    requires Inv(s) && Running(s)
    ensures Permitted(s, Release) && Inv(Next(s, Release))
  {
    hide Inv, Next;
    StepInv(s, Release);
  }

  lemma ReleaseForm(s: Sys)
    requires Inv(s) && Running(s) && Owner(s, s.current) && (s.mutex.hold + 255) % 256 == 0
    ensures Permitted(s, Release)
    ensures MUTEX in Restored(s).queues
    ensures forall w <- Restored(s).queues[MUTEX] ::
              w in Restored(s).threads && Restored(s).threads[w].prio < |Restored(s).ready|
    ensures s.mutex.original < |s.ready|
    ensures Next(s, Release) == Handed(Restored(s))
  {
    hide ReadyBut, QueuesBut, SortedByPrio, ChangePrio, ResumeThread;
    NotAWaiter(s);
    RestoredState(s);
  }

  lemma QueueKnown(s: Sys, q: nat)
    requires Agree(s) && q in s.queues
    ensures forall x <- s.queues[q] :: x in s.threads
  {
  }

  /** A thread is in no ready list but that of its priority. */
  lemma ReadyOnlyThere(s: Sys, t: Tid)
    requires Agree(s) && t in s.threads
    ensures forall p :: 0 <= p < |s.ready| && p != s.threads[t].prio ==> t !in s.ready[p]
  {
  }

  /** The lowest set bit of an agreeing bitmap is the first non-empty ready list. */
  lemma SameTop(s: Sys, p: nat)
    requires p < |s.ready| && s.ready[p] != [] && forall q: nat :: q < p ==> s.ready[q] == []
    ensures TopFrom(s, 0) == Some(p)
  {
  }

  /** The search over the bitmap finds the most urgent ready list, if some thread is ready. */
  lemma FirstIsTop(g: nat, s: Sys, t: Tid)
    requires BitmapFor(g, s.ready) && Agree(s)
    requires t in s.threads && s.threads[t].stat == Ready && Deleting(t) !in s.calls
    ensures FindFirst(g) < |s.ready| && s.ready[FindFirst(g)] != [] && TopFrom(s, 0) == Some(FindFirst(g))
  {
    ReadyListed(s, t);
    hide AgreeBut, Bit, FindFirst;
    FindFirstIsLowest(g, s.threads[t].prio);
    SameTop(s, FindFirst(g));
  }

  /** A yielding thread leaves the other ready lists and all queues alone. */
  lemma YieldMoves(s: Sys, t: Tid)
    requires Agree(s) && t in s.threads && s.threads[t].stat == Ready && |s.ready[s.threads[t].prio]| >= 2
    ensures forall p :: 0 <= p < |s.ready| && p != s.threads[t].prio ==> Unlink(s, t).ready[p] == s.ready[p]
    ensures Unlink(s, t).ready[s.threads[t].prio] != []
  {
    var p := s.threads[t].prio;
    forall q | 0 <= q < |s.ready| && q != p ensures Without(s.ready[q], t) == s.ready[q] {
      WithoutMembers(s.ready[q], t);
    }
    var other := if s.ready[p][0] == t then s.ready[p][1] else s.ready[p][0];
    WithoutMembers(s.ready[p], t);
    assert other in Without(s.ready[p], t);
  }
}

/**
 * The objects of pthread_cond.c and pthread_rwlock.c, updated in place: a condition variable over
 * its semaphore, and the regions of the lock's calls in which rw_mutex is held.
 */
module RwLockObject {
  import opened Base
  import opened Lists
  import opened RwLock
  import opened RwLockLaws
  import opened RwLockProgress

  /** pthread_cond_t: the semaphore it is made of. Each method answers with the threads it wakes. */
  class Condition {
    var value: nat
    var sleepers: seq<Tid>

    ghost predicate Valid()
      reads this
    {
      value > 0 ==> sleepers == []
    }

    function AsSem(): Sem
      reads this
    {
      Sem(value, sleepers)
    }

    constructor ()
      ensures Valid() && AsSem() == Sem(0, [])
    {
      value, sleepers := 0, [];
    }

    /** rt_sem_trytake. */
    method TryTake() returns (ok: bool)
      requires Valid()
      modifies this
      ensures Valid() && ok == (old(value) > 0) && sleepers == old(sleepers)
      ensures value == if ok then old(value) - 1 else old(value)
    {
      ok := value > 0;
      if ok { value := value - 1; }
    }

    /** rt_sem_release: the first sleeper takes the count, or it is kept. */
    method Release() returns (woken: seq<Tid>)
      requires Valid()
      modifies this
      ensures Valid() && woken + sleepers == old(sleepers) && |woken| <= 1
      ensures woken == [] <==> old(sleepers) == []
      ensures value == old(value) + if woken == [] then 1 else 0
    {
      if sleepers == [] {
        woken, value := [], value + 1;
      } else {
        woken, sleepers := sleepers[..1], sleepers[1..];
      }
    }

    /** _pthread_cond_timedwait between giving rw_mutex up and asking for it again. */
    method Take(t: Tid) returns (ok: bool)
      requires Valid()
      modifies this
      ensures Valid() && ok == (old(value) > 0)
      ensures AsSem() == if ok then Sem(old(value) - 1, old(sleepers)) else Sem(0, old(sleepers) + [t])
    {
      ok := TryTake();
      if !ok { sleepers := sleepers + [t]; }
    }

    /**
     * pthread_cond_broadcast: tries to take and releases, until taking worked. Every sleeper is
     * woken, once and in order, and one signal is left over if there was none.
     */
    method Broadcast() returns (woken: seq<Tid>)
      requires Valid()
      modifies this
      ensures Valid() && woken == old(sleepers)
      ensures AsSem() == Sem(if old(value) > 0 then old(value) else 1, [])
    {
      woken := [];
      var taken := false;
      while !taken
        invariant Valid() && woken + sleepers == old(sleepers)
        invariant value == old(value) || (value == 1 && sleepers == [] && old(value) == 0)
        invariant taken ==> value > 0
        decreases |sleepers|, if value > 0 then 0 else 1, !taken
      {
        taken := TryTake();
        var more := Release();
        woken := woken + more;
      }
    }
  }

  /** The counters of pthread_rwlock_t and its two condition variables. */
  class Lock {
    var refcount: int
    var waitReaders: int
    var waitWriters: int
    const readers: Condition
    const writers: Condition

    ghost predicate Valid()
      reads this, readers, writers
    {
      readers != writers && readers.Valid() && writers.Valid()
    }

    /** In step with a state of the protocol. */
    ghost predicate Shows(s: Sys)
      reads this, readers, writers
    {
      && Valid() && refcount == s.refcount && waitReaders == s.waitReaders && waitWriters == s.waitWriters
      && readers.AsSem() == s.readSem && writers.AsSem() == s.writeSem
    }

    /** pthread_rwlock_init. */
    constructor ()
      ensures Shows(Fresh()) && fresh(readers) && fresh(writers)
    {
      refcount, waitReaders, waitWriters := 0, 0, 0;
      readers := new Condition();
      writers := new Condition();
    }

    /** The guard of the loop in rdlock and timedrdlock; a caller that has to wait is counted. */
    method TestRead(ghost s: Sys, t: Tid, op: Op) returns (wait: bool)
      requires Shows(s) && op.Read?
      modifies this
      ensures Shows(Tested(s, t, op)) && Tested(s, t, op).pcs[t] == if wait then Waiting(op) else Got(op)
    {
      wait := refcount < 0 || waitWriters > 0;
      if wait { waitReaders := waitReaders + 1; }
    }

    /** The same in wrlock and timedwrlock. */
    method TestWrite(ghost s: Sys, t: Tid, op: Op) returns (wait: bool)
      requires Shows(s) && op.Write?
      modifies this
      ensures Shows(Tested(s, t, op)) && Tested(s, t, op).pcs[t] == if wait then Waiting(op) else Got(op)
    {
      wait := refcount != 0;
      if wait { waitWriters := waitWriters + 1; }
    }

    /** The end of a wait. */
    method Return(ghost s: Sys, t: Tid, op: Op, ok: bool)
      requires Shows(s) && Waits(op)
      modifies this
      ensures Shows(Returned(s, t, op, ok))
    {
      if op.Read? { waitReaders := waitReaders - 1; } else { waitWriters := waitWriters - 1; }
    }

    /** The whole region of tryrdlock and trywrlock, which do not wait. */
    method TryLock(ghost s: Sys, t: Tid, op: Op) returns (ok: bool)
      requires Shows(s) && (op.TryRead? || op.TryWrite?)
      modifies this
      ensures var u := Tested(s, t, op);
              ok == (u.pcs[t] == Got(op)) && Shows(if ok then Granted(u, t, op) else u)
      ensures Inv(s) ==> (ok <==> if op.TryRead? then ReadableNow(s) else Unheld(s))
    {
      ok := if op.TryRead? then !(refcount < 0 || waitWriters > 0) else refcount == 0;
      if ok { refcount := if op.TryRead? then refcount + 1 else -1; }
    }

    /** The lock is granted after the loop. */
    method Grant(ghost s: Sys, t: Tid, op: Op)
      requires Shows(s) && Waits(op)
      modifies this
      ensures Shows(Granted(s, t, op))
    {
      refcount := if op.Read? then refcount + 1 else -1;
    }

    /** The region of pthread_rwlock_unlock: the count goes down, and a writer, or all readers, are woken. */
    method Unlock(ghost s: Sys, t: Tid) returns (woken: seq<Tid>)
      requires Shows(s) && SemsOk(s) && t in s.pcs && s.pcs[t] == Test(Op.Unlock)
      modifies this, readers, writers
      ensures Shows(Told(Dropped(s, t), t)) && Wakes(s.pcs, Told(Dropped(s, t), t).pcs, woken)
    {
      hide Told, SemOk, Wakes;
      ghost var d := Dropped(s, t);
      SameBoth(s, t, Tell);
      if refcount > 0 {
        refcount := refcount - 1;
      } else if refcount == -1 {
        refcount := 0;
      }
      ToldShape(d, t);
      woken := [];
      if waitWriters > 0 {
        if refcount == 0 { woken := writers.Release(); }
      } else if waitReaders > 0 {
        woken := readers.Broadcast();
      }
      SleepersOf(s.pcs, d.pcs, Told(d, t).pcs, t, woken);
    }
  }

  /** Of the threads that sleep before, exactly the woken ones go on afterwards, with success. */
  ghost predicate Wakes(before: Pcs, after: Pcs, woken: seq<Tid>) {
    forall x :: x in before && before[x].Asleep? ==>
      x in after && after[x] == if x in woken then Relock(before[x].op, true) else before[x]
  }

  /** Which threads pthread_rwlock_unlock wakes. */
  function Called(s: Sys): seq<Tid> {
    if s.waitWriters > 0 then
      if s.refcount == 0 && s.writeSem.sleepers != [] then s.writeSem.sleepers[..1] else []
    else if s.waitReaders > 0 then s.readSem.sleepers
    else []
  }

  lemma ToldShape(s: Sys, t: Tid)
    requires SemsOk(s) && t in s.pcs && s.pcs[t] == Tell
    ensures var u := Told(s, t);
            && u.refcount == s.refcount && u.waitReaders == s.waitReaders && u.waitWriters == s.waitWriters
            && u.writeSem == (if s.waitWriters <= 0 || s.refcount != 0 then s.writeSem
                              else if s.writeSem.sleepers == [] then Sem(s.writeSem.value + 1, [])
                              else Sem(s.writeSem.value, s.writeSem.sleepers[1..]))
            && u.readSem == (if s.waitWriters > 0 || s.waitReaders <= 0 then s.readSem
                             else Sem(if s.readSem.value > 0 then s.readSem.value else 1, []))
            && Wakes(s.pcs, u.pcs, Called(s))
  {
    hide SemOk, Released, RwLock.Broadcast;
    var v := To(s, t, Leave);
    SameBoth(s, t, Leave);
    if s.waitWriters > 0 {
      ReleasedSems(v, Write(false));
    } else {
      BroadcastWakesAll(v, Read(false));
    }
  }

  lemma SleepersOf(pcs: Pcs, dropped: Pcs, told: Pcs, t: Tid, woken: seq<Tid>)
    requires t in pcs && !pcs[t].Asleep? && dropped == pcs[t := Tell] && Wakes(dropped, told, woken)
    ensures Wakes(pcs, told, woken)
  {
  }
}

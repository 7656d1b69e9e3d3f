/**
 * pthread_rwlock.c over pthread_cond.c as a transition system: every step of a thread between two
 * points where another one may run, with condition variables made of semaphores, spurious wake-ups
 * and timeouts.
 */
module RwLock {
  import opened Base
  import opened Lists

  type Tid = nat

  /** The semaphore behind a condition variable and the threads asleep on it. */
  datatype Sem = Sem(value: nat, sleepers: seq<Tid>)

  /** What a thread is in the middle of. */
  datatype Op = Read(timed: bool) | Write(timed: bool) | TryRead | TryWrite | Unlock

  /**
   * Where it stands. From Waiting to Back it is counted as waiting; it owns rw_mutex in Test,
   * Got, Waiting, Back with the mutex taken, Tell and Leave.
   */
  datatype Pc =
    | Start(op: Op)
    | Test(op: Op)
    | Got(op: Op)
    | Waiting(op: Op)
    | Taking(op: Op)
    | Asleep(op: Op)
    | Relock(op: Op, ok: bool)
    | Back(op: Op, ok: bool)
    | Tell
    | Leave

  type Pcs = map<Tid, Pc>

  /** readers and writer record who holds the lock; the counters are those of pthread_rwlock_t. */
  datatype Sys = Sys(refcount: int, waitReaders: int, waitWriters: int, owner: Option<Tid>,
                     readSem: Sem, writeSem: Sem, pcs: Pcs,
                     readers: multiset<Tid>, writer: Option<Tid>)

  datatype Event = Call(t: Tid, op: Op) | Step(t: Tid) | Expire(t: Tid) | Spurious(t: Tid)

  predicate Waits(op: Op) {
    op.Read? || op.Write?
  }

  predicate Owns(pc: Pc) {
    pc.Test? || pc.Got? || pc.Waiting? || pc.Back? || pc.Tell? || pc.Leave?
  }

  predicate Counted(pc: Pc) {
    pc.Waiting? || pc.Taking? || pc.Asleep? || pc.Relock? || pc.Back?
  }

  predicate Reads(pc: Pc) {
    Counted(pc) && pc.op.Read?
  }

  predicate Writes(pc: Pc) {
    Counted(pc) && pc.op.Write?
  }

  predicate Holds(s: Sys, t: Tid) {
    t in s.readers || s.writer == Some(t)
  }

  // ---- Semaphores ----

  function SemOf(s: Sys, op: Op): Sem {
    if op.Read? then s.readSem else s.writeSem
  }

  function WithSem(s: Sys, op: Op, sem: Sem): Sys {
    if op.Read? then s.(readSem := sem) else s.(writeSem := sem)
  }

  /** The first sleeper is woken with success, or the semaphore counts up: rt_sem_release. */
  function Released(s: Sys, op: Op): Sys {
    var sem := SemOf(s, op);
    if sem.sleepers == [] then WithSem(s, op, sem.(value := sem.value + 1))
    else WithSem(Woken(s, sem.sleepers[0], true), op, sem.(sleepers := sem.sleepers[1..]))
  }

  /** A sleeper goes on to take rw_mutex again. */
  function Woken(s: Sys, t: Tid, ok: bool): Sys {
    if t in s.pcs && s.pcs[t].Asleep? then s.(pcs := s.pcs[t := Relock(s.pcs[t].op, ok)]) else s
  }

  /** pthread_cond_broadcast: released until it can be taken, and then given back. */
  function Broadcast(s: Sys, op: Op): Sys
    decreases |SemOf(s, op).sleepers|
  {
    var sem := SemOf(s, op);
    if sem.value > 0 then s
    else if sem.sleepers == [] then WithSem(s, op, sem.(value := 1))
    else Broadcast(Released(s, op), op)
  }

  // ---- Steps ----

  function To(s: Sys, t: Tid, pc: Pc): Sys {
    s.(pcs := s.pcs[t := pc])
  }

  /** The test of a call, rw_mutex held. */
  function Tested(s: Sys, t: Tid, op: Op): Sys {
    match op
    case Read(_) =>
      if s.refcount < 0 || s.waitWriters > 0 then To(s, t, Waiting(op)).(waitReaders := s.waitReaders + 1)
      else To(s, t, Got(op))
    case Write(_) =>
      if s.refcount != 0 then To(s, t, Waiting(op)).(waitWriters := s.waitWriters + 1) else To(s, t, Got(op))
    case TryRead => To(s, t, if s.refcount < 0 || s.waitWriters > 0 then Leave else Got(op))
    case TryWrite => To(s, t, if s.refcount != 0 then Leave else Got(op))
    case Unlock => Dropped(s, t)
  }

  /** The lock is granted: one more reader, or the writer. */
  function Granted(s: Sys, t: Tid, op: Op): Sys {
    if op.Read? || op.TryRead? then
      To(s, t, Leave).(refcount := s.refcount + 1, readers := s.readers + multiset{t})
    else To(s, t, Leave).(refcount := -1, writer := Some(t))
  }

  /** The count goes down; then waiters are told. */
  function Dropped(s: Sys, t: Tid): Sys {
    if s.refcount > 0 then To(s, t, Tell).(refcount := s.refcount - 1, readers := s.readers - multiset{t})
    else if s.refcount == -1 then To(s, t, Tell).(refcount := 0, writer := None)
    else To(s, t, Tell)
  }

  /** Waiting writers come first; readers are told all at once. */
  function Told(s: Sys, t: Tid): Sys {
    var u := To(s, t, Leave);
    if s.waitWriters > 0 then if s.refcount == 0 then Released(u, Write(false)) else u
    else if s.waitReaders > 0 then Broadcast(u, Read(false))
    else u
  }

  /** rt_sem_take of the condition variable. */
  function TakenSem(s: Sys, t: Tid, op: Op): Sys {
    var sem := SemOf(s, op);
    if sem.value > 0 then To(WithSem(s, op, sem.(value := sem.value - 1)), t, Relock(op, true))
    else To(WithSem(s, op, sem.(sleepers := sem.sleepers + [t])), t, Asleep(op))
  }

  /** After the wait: counted no longer, and back to the test unless the wait failed. */
  function Returned(s: Sys, t: Tid, op: Op, ok: bool): Sys {
    var u := To(s, t, if ok then Test(op) else Leave);
    if op.Read? then u.(waitReaders := s.waitReaders - 1) else u.(waitWriters := s.waitWriters - 1)
  }

  function Stepped(s: Sys, t: Tid): Sys
    requires t in s.pcs
  {
    match s.pcs[t]
    case Start(op) => if s.owner.None? then To(s, t, Test(op)).(owner := Some(t)) else s
    case Test(op) => Tested(s, t, op)
    case Got(op) => Granted(s, t, op)
    case Waiting(op) => To(s, t, Taking(op)).(owner := None)
    case Taking(op) => TakenSem(s, t, op)
    case Asleep(_) => s
    case Relock(op, ok) => if s.owner.None? then To(s, t, Back(op, ok)).(owner := Some(t)) else s
    case Back(op, ok) => Returned(s, t, op, ok)
    case Tell => Told(s, t)
    case Leave => s.(pcs := s.pcs - {t}, owner := None)
  }

  /** Only holders unlock; a sleeper may wake for no reason, and on a timed call because time is up. */
  predicate Permitted(s: Sys, e: Event) {
    match e
    case Call(t, op) => t !in s.pcs && (op.Unlock? ==> Holds(s, t))
    case Step(t) => t in s.pcs
    case Expire(t) => t in s.pcs && s.pcs[t].Asleep? && Waits(s.pcs[t].op) && s.pcs[t].op.timed
    case Spurious(t) => t in s.pcs && s.pcs[t].Asleep?
  }

  /** A sleeper leaves the semaphore. */
  function Awoken(s: Sys, t: Tid, ok: bool): Sys
    requires t in s.pcs && s.pcs[t].Asleep?
  {
    var op := s.pcs[t].op;
    var sem := SemOf(s, op);
    Woken(WithSem(s, op, sem.(sleepers := Without(sem.sleepers, t))), t, ok)
  }

  function Next(s: Sys, e: Event): Sys
    requires Permitted(s, e)
  {
    match e
    case Call(t, op) => To(s, t, Start(op))
    case Step(t) => Stepped(s, t)
    case Expire(t) => Awoken(s, t, false)
    case Spurious(t) => Awoken(s, t, true)
  }

  // ---- Invariant ----

  ghost function WaitingReaders(pcs: Pcs): set<Tid> {
    set t <- pcs | Reads(pcs[t])
  }

  ghost function WaitingWriters(pcs: Pcs): set<Tid> {
    set t <- pcs | Writes(pcs[t])
  }

  /** rw_mutex is owned by exactly the one thread that is in a critical region. */
  ghost predicate MutexOk(owner: Option<Tid>, pcs: Pcs) {
    forall t <- pcs :: Owns(pcs[t]) <==> owner == Some(t)
  }

  /** rw_refcount is -1 with a writer and no readers, and else the number of readers. */
  ghost predicate CountOk(refcount: int, readers: multiset<Tid>, writer: Option<Tid>) {
    if writer.Some? then refcount == -1 && readers == multiset{} else refcount == |readers|
  }

  /** Only reads and writes wait; who unlocks holds the lock until the count goes down; grants are as tested. */
  ghost predicate PcOk(s: Sys, pc: Pc, t: Tid) {
    && (Counted(pc) ==> Waits(pc.op))
    && ((pc.Start? || pc.Test?) && pc.op.Unlock? ==> Holds(s, t))
    && (pc.Got? ==> !pc.op.Unlock? && if pc.op.Read? || pc.op.TryRead? then s.refcount >= 0 else s.refcount == 0)
  }

  ghost predicate Inv(s: Sys) {
    && MutexOk(s.owner, s.pcs) && (s.owner.Some? ==> s.owner.value in s.pcs)
    && CountOk(s.refcount, s.readers, s.writer)
    && (forall t <- s.pcs :: PcOk(s, s.pcs[t], t))
    && s.waitReaders == |WaitingReaders(s.pcs)| && s.waitWriters == |WaitingWriters(s.pcs)|
  }

  /** One thread moves: the counts change with what it was and is. */
  lemma ReadersMove(pcs: Pcs, t: Tid, pc: Pc)
    ensures |WaitingReaders(pcs[t := pc])|
            == |WaitingReaders(pcs)| - (if t in pcs && Reads(pcs[t]) then 1 else 0) + if Reads(pc) then 1 else 0
  {
    var (was, now) := (WaitingReaders(pcs), WaitingReaders(pcs[t := pc]));
    assert t in was <==> t in pcs && Reads(pcs[t]);
    assert t in now <==> Reads(pc);
    assert now - {t} == was - {t};
    hide WaitingReaders;
    if t in was { assert was == (was - {t}) + {t}; } else { assert was == was - {t}; }
    if t in now { assert now == (now - {t}) + {t}; } else { assert now == now - {t}; }
  }

  lemma WritersMove(pcs: Pcs, t: Tid, pc: Pc)
    ensures |WaitingWriters(pcs[t := pc])|
            == |WaitingWriters(pcs)| - (if t in pcs && Writes(pcs[t]) then 1 else 0) + if Writes(pc) then 1 else 0
  {
    var (was, now) := (WaitingWriters(pcs), WaitingWriters(pcs[t := pc]));
    assert t in was <==> t in pcs && Writes(pcs[t]);
    assert t in now <==> Writes(pc);
    assert now - {t} == was - {t};
    hide WaitingWriters;
    if t in was { assert was == (was - {t}) + {t}; } else { assert was == was - {t}; }
    if t in now { assert now == (now - {t}) + {t}; } else { assert now == now - {t}; }
  }

  lemma Moves(pcs: Pcs, t: Tid, pc: Pc)
    ensures var n := |WaitingReaders(pcs)| - if t in pcs && Reads(pcs[t]) then 1 else 0;
            |WaitingReaders(pcs[t := pc])| == n + if Reads(pc) then 1 else 0
    ensures var n := |WaitingWriters(pcs)| - if t in pcs && Writes(pcs[t]) then 1 else 0;
            |WaitingWriters(pcs[t := pc])| == n + if Writes(pc) then 1 else 0
  {
    ReadersMove(pcs, t, pc);
    WritersMove(pcs, t, pc);
  }

  lemma Goes(pcs: Pcs, t: Tid)
    requires t in pcs && !Counted(pcs[t])
    ensures WaitingReaders(pcs - {t}) == WaitingReaders(pcs) && WaitingWriters(pcs - {t}) == WaitingWriters(pcs)
  {
  }

  // ---- Each step ----

  lemma WokenInv(s: Sys, t: Tid, ok: bool)
    requires Inv(s)
    ensures Inv(Woken(s, t, ok))
  {
    if t in s.pcs && s.pcs[t].Asleep? {
      Moves(s.pcs, t, Relock(s.pcs[t].op, ok));
      hide WaitingReaders, WaitingWriters;
    }
  }

  /** Semaphores are no part of the invariant. */
  lemma SemInv(s: Sys, op: Op, sem: Sem)
    requires Inv(s)
    ensures Inv(WithSem(s, op, sem))
  {
    hide WaitingReaders, WaitingWriters;
  }

  lemma ReleasedInv(s: Sys, op: Op)
    requires Inv(s)
    ensures Inv(Released(s, op))
  {
    hide Inv, Woken, WithSem;
    var sem := SemOf(s, op);
    if sem.sleepers == [] {
      SemInv(s, op, sem.(value := sem.value + 1));
    } else {
      WokenInv(s, sem.sleepers[0], true);
      SemInv(Woken(s, sem.sleepers[0], true), op, sem.(sleepers := sem.sleepers[1..]));
    }
  }

  lemma {:induction false} BroadcastInv(s: Sys, op: Op)
    requires Inv(s)
    ensures Inv(Broadcast(s, op))
    decreases |SemOf(s, op).sleepers|
  {
    hide Inv;
    var sem := SemOf(s, op);
    if sem.value > 0 {
    } else if sem.sleepers == [] {
      SemInv(s, op, sem.(value := 1));
    } else {
      ReleasedInv(s, op);
      BroadcastInv(Released(s, op), op);
    }
  }

  /** A step that moves one thread and at most hands over rw_mutex. */
  lemma HandOverInv(s: Sys, t: Tid, pc: Pc, owner: Option<Tid>)
    requires Inv(s) && t in s.pcs && PcOk(s, pc, t)
    requires owner == if Owns(pc) then Some(t) else if s.owner == Some(t) then None else s.owner
    requires Owns(pc) ==> s.owner.None? || s.owner == Some(t)
    requires Reads(pc) == Reads(s.pcs[t]) && Writes(pc) == Writes(s.pcs[t])
    ensures Inv(To(s, t, pc).(owner := owner))
  {
    hide WaitingReaders, WaitingWriters, CountOk, Reads, Writes;
    Moves(s.pcs, t, pc);
    var u := To(s, t, pc).(owner := owner);
    forall x <- u.pcs ensures PcOk(u, u.pcs[x], x) {
      assert PcOk(s, if x == t then pc else s.pcs[x], x);
    }
  }

  /** After the wait the thread is counted no longer. */
  lemma ReturnedInv(s: Sys, t: Tid, op: Op, ok: bool)
    requires Inv(s) && t in s.pcs && s.pcs[t] == Back(op, ok)
    ensures Inv(Returned(s, t, op, ok))
  {
    hide WaitingReaders, WaitingWriters, CountOk;
    Moves(s.pcs, t, if ok then Test(op) else Leave);
    assert PcOk(s, s.pcs[t], t);
  }

  lemma StepInv(s: Sys, t: Tid)
    requires Inv(s) && t in s.pcs
    ensures Inv(Stepped(s, t))
  {
    hide WaitingReaders, WaitingWriters, CountOk, Tested, Granted, TakenSem, Told, Returned;
    assert PcOk(s, s.pcs[t], t);
    match s.pcs[t]
    case Start(op) => if s.owner.None? { HandOverInv(s, t, Test(op), Some(t)); }
    case Test(op) => TestedInv(s, t, op);
    case Got(op) => GrantedInv(s, t, op);
    case Waiting(op) => HandOverInv(s, t, Taking(op), None);
    case Taking(op) => TakenSemInv(s, t, op);
    case Asleep(_) => {}
    case Relock(op, ok) => if s.owner.None? { HandOverInv(s, t, Back(op, ok), Some(t)); }
    case Back(op, ok) => ReturnedInv(s, t, op, ok);
    case Tell => ToldInv(s, t);
    case Leave => Goes(s.pcs, t);
  }

  lemma TestedInv(s: Sys, t: Tid, op: Op)
    requires Inv(s) && t in s.pcs && s.pcs[t] == Test(op)
    ensures Inv(Tested(s, t, op))
  {
    hide WaitingReaders, WaitingWriters;
    if op.Unlock? {
      DroppedInv(s, t);
    } else {
      Moves(s.pcs, t, Tested(s, t, op).pcs[t]);
    }
  }

  /** Who else is about to unlock still holds the lock. */
  lemma OthersKeep(s: Sys, t: Tid, x: Tid)
    requires Inv(s) && t in s.pcs && s.pcs[t] == Test(Unlock) && x in s.pcs && x != t
    ensures PcOk(Dropped(s, t), s.pcs[x], x)
  {
    hide WaitingReaders, WaitingWriters;
    assert PcOk(s, s.pcs[x], x) && PcOk(s, s.pcs[t], t);
    assert Owns(s.pcs[t]) <==> s.owner == Some(t);
    assert Owns(s.pcs[x]) <==> s.owner == Some(x);
  }

  lemma DroppedCount(s: Sys, t: Tid)
    requires Inv(s) && t in s.pcs && s.pcs[t] == Test(Unlock)
    ensures var u := Dropped(s, t); CountOk(u.refcount, u.readers, u.writer)
  {
    hide WaitingReaders, WaitingWriters, MutexOk;
    assert PcOk(s, s.pcs[t], t);
    if t in s.readers {
      assert s.readers == (s.readers - multiset{t}) + multiset{t};
    }
  }

  lemma DroppedInv(s: Sys, t: Tid)
    requires Inv(s) && t in s.pcs && s.pcs[t] == Test(Unlock)
    ensures Inv(Dropped(s, t))
  {
    hide WaitingReaders, WaitingWriters, CountOk, PcOk;
    Moves(s.pcs, t, Tell);
    DroppedCount(s, t);
    var u := Dropped(s, t);
    forall x <- u.pcs ensures PcOk(u, u.pcs[x], x) {
      if x != t { OthersKeep(s, t, x); } else { TellOk(u, x); }
    }
  }

  lemma TellOk(s: Sys, t: Tid)
    ensures PcOk(s, Tell, t)
  {
  }

  lemma GrantedInv(s: Sys, t: Tid, op: Op)
    requires Inv(s) && t in s.pcs && s.pcs[t] == Got(op)
    ensures Inv(Granted(s, t, op))
  {
    hide WaitingReaders, WaitingWriters;
    Moves(s.pcs, t, Leave);
    assert PcOk(s, s.pcs[t], t);
    var u := Granted(s, t, op);
    forall x <- u.pcs ensures PcOk(u, u.pcs[x], x) {
      if x != t {
        assert PcOk(s, s.pcs[x], x);
        assert Owns(s.pcs[x]) <==> s.owner == Some(x);
        assert Owns(s.pcs[t]) <==> s.owner == Some(t);
      }
    }
  }

  lemma TakenSemInv(s: Sys, t: Tid, op: Op)
    requires Inv(s) && t in s.pcs && s.pcs[t] == Taking(op)
    ensures Inv(TakenSem(s, t, op))
  {
    hide WaitingReaders, WaitingWriters;
    Moves(s.pcs, t, Relock(op, true));
    Moves(s.pcs, t, Asleep(op));
  }

  lemma ToldInv(s: Sys, t: Tid)
    requires Inv(s) && t in s.pcs && s.pcs[t] == Tell
    ensures Inv(Told(s, t))
  {
    hide WaitingReaders, WaitingWriters, Released, Broadcast;
    Moves(s.pcs, t, Leave);
    var u := To(s, t, Leave);
    assert Inv(u);
    ReleasedInv(u, Write(false));
    BroadcastInv(u, Read(false));
  }

  lemma EventInv(s: Sys, e: Event)
    requires Inv(s) && Permitted(s, e)
    ensures Inv(Next(s, e))
  {
    hide WaitingReaders, WaitingWriters, Stepped;
    match e
    case Call(t, op) => Moves(s.pcs, t, Start(op));
    case Step(t) => StepInv(s, t);
    case Expire(t) => AwokenInv(s, t, false);
    case Spurious(t) => AwokenInv(s, t, true);
  }

  lemma AwokenInv(s: Sys, t: Tid, ok: bool)
    requires Inv(s) && t in s.pcs && s.pcs[t].Asleep?
    ensures Inv(Awoken(s, t, ok))
  {
    hide Inv, Woken;
    var op := s.pcs[t].op;
    var sem := SemOf(s, op).(sleepers := Without(SemOf(s, op).sleepers, t));
    SemInv(s, op, sem);
    WokenInv(WithSem(s, op, sem), t, ok);
  }

  // ---- Runs ----

  ghost predicate PermittedRun(s: Sys, es: seq<Event>)
    decreases |es|
  {
    es == [] || (Permitted(s, es[0]) && PermittedRun(Next(s, es[0]), es[1..]))
  }

  ghost function After(s: Sys, es: seq<Event>): Sys
    requires PermittedRun(s, es)
    decreases |es|
  {
    if es == [] then s else After(Next(s, es[0]), es[1..])
  }

  lemma {:induction false} RunInv(s: Sys, es: seq<Event>)
    requires Inv(s) && PermittedRun(s, es)
    ensures Inv(After(s, es))
    decreases |es|
  {
    hide Inv, Next;
    if es != [] {
      EventInv(s, es[0]);
      RunInv(Next(s, es[0]), es[1..]);
    }
  }

  /** pthread_rwlock_init. */
  ghost function Fresh(): Sys {
    Sys(0, 0, 0, None, Sem(0, []), Sem(0, []), map[], multiset{}, None)
  }

  /**
   * In every reachable state rw_refcount is -1 exactly when one writer and no reader holds the
   * lock, and otherwise the number of read holds; the waiting counters count the threads inside
   * the wait; and one thread at most is in a critical region.
   */
  lemma Exclusion(es: seq<Event>)
    requires PermittedRun(Fresh(), es)
    ensures var s := After(Fresh(), es);
            && (s.refcount == -1 <==> s.writer.Some?) && (s.writer.Some? ==> s.readers == multiset{})
            && (s.refcount != -1 ==> s.refcount == |s.readers|)
            && s.waitReaders == |WaitingReaders(s.pcs)| && s.waitWriters == |WaitingWriters(s.pcs)|
            && forall t, u :: t in s.pcs && u in s.pcs && Owns(s.pcs[t]) && Owns(s.pcs[u]) ==> t == u
  {
    assert WaitingReaders(map[]) == {} && WaitingWriters(map[]) == {};
    RunInv(Fresh(), es);
  }
}

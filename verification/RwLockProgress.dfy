/**
 * Nobody is stranded: while the read-write lock is free and threads wait for it, one of them, or a
 * thread that will wake one, is on its way. A timed writer that gives up can break this for readers;
 * when it does is stated exactly.
 */
module RwLockProgress {
  import opened Base
  import opened Lists
  import opened RwLock

  predicate OfKind(op: Op, reading: bool) {
    if reading then op.Read? else op.Write?
  }

  predicate Sleeps(pc: Pc, reading: bool) {
    pc.Asleep? && pc.op.Read? == reading
  }

  /** The list of a semaphore holds exactly the threads asleep on it, and only an empty one counts up. */
  ghost predicate SemOk(sem: Sem, pcs: Pcs, reading: bool) {
    && NoDup(sem.sleepers) && (sem.value > 0 ==> sem.sleepers == [])
    && forall t :: t in sem.sleepers <==> t in pcs && Sleeps(pcs[t], reading)
  }

  ghost predicate SemsOk(s: Sys) {
    SemOk(s.readSem, s.pcs, true) && SemOk(s.writeSem, s.pcs, false)
  }

  // ---- Semaphores ----

  /** A thread that moves without falling asleep or waking up. */
  lemma SameSleepers(sem: Sem, pcs: Pcs, reading: bool, t: Tid, pc: Pc)
    requires SemOk(sem, pcs, reading)
    requires !Sleeps(pc, reading) && (t in pcs ==> !Sleeps(pcs[t], reading))
    ensures SemOk(sem, pcs[t := pc], reading) && SemOk(sem, pcs - {t}, reading)
  {
  }

  lemma FallsAsleep(sem: Sem, pcs: Pcs, reading: bool, t: Tid, pc: Pc)
    requires SemOk(sem, pcs, reading) && sem.value == 0
    requires Sleeps(pc, reading) && (t in pcs ==> !Sleeps(pcs[t], reading))
    ensures SemOk(sem.(sleepers := sem.sleepers + [t]), pcs[t := pc], reading)
  {
    PushNoDup(sem.sleepers, t);
  }

  lemma WakesUp(sem: Sem, pcs: Pcs, reading: bool, t: Tid, pc: Pc)
    requires SemOk(sem, pcs, reading) && !Sleeps(pc, reading)
    ensures SemOk(sem.(sleepers := Without(sem.sleepers, t)), pcs[t := pc], reading)
  {
    WithoutMembers(sem.sleepers, t);
    WithoutNoDup(sem.sleepers, t);
    assert sem.sleepers == [] ==> Without(sem.sleepers, t) == [];
  }

  /** rt_sem_release: the first sleeper, if there is one, goes on with success. */
  lemma ReleasedSems(s: Sys, op: Op)
    requires SemsOk(s)
    ensures var u := Released(s, op);
            && SemsOk(u) && u.(pcs := s.pcs, readSem := s.readSem, writeSem := s.writeSem) == s
            && var sem := SemOf(s, op);
               if sem.sleepers == [] then u == WithSem(s, op, sem.(value := sem.value + 1))
               else && sem.sleepers[0] in s.pcs && s.pcs[sem.sleepers[0]].Asleep?
                    && u == WithSem(Woken(s, sem.sleepers[0], true), op, sem.(sleepers := sem.sleepers[1..]))
  {
    var sem := SemOf(s, op);
    if sem.sleepers != [] {
      var t := sem.sleepers[0];
      assert Sleeps(s.pcs[t], op.Read?);
      var pc := Relock(s.pcs[t].op, true);
      WakesUp(sem, s.pcs, op.Read?, t, pc);
      WithoutHead(sem.sleepers);
      SameSleepers(if op.Read? then s.writeSem else s.readSem, s.pcs, !op.Read?, t, pc);
    }
  }

  /**
   * pthread_cond_broadcast: nobody sleeps any more, every sleeper goes on with success, the
   * semaphore can be taken at least once, and nothing else changes.
   */
  lemma {:induction false} BroadcastWakesAll(s: Sys, op: Op)
    requires SemsOk(s)
    ensures var u := Broadcast(s, op);
            && SemsOk(u)
            && u.(pcs := s.pcs) == WithSem(s, op, Sem(if SemOf(s, op).value > 0 then SemOf(s, op).value else 1, []))
            && u.pcs == map t | t in s.pcs :: if t in SemOf(s, op).sleepers then Relock(s.pcs[t].op, true) else s.pcs[t]
    decreases |SemOf(s, op).sleepers|
  {
    var sem := SemOf(s, op);
    if sem.value == 0 && sem.sleepers != [] {
      var v := Released(s, op);
      ReleasedSems(s, op);
      assert SemOf(v, op) == sem.(sleepers := sem.sleepers[1..]);
      PopNoDup(sem.sleepers);
      BroadcastWakesAll(v, op);
    }
  }

  lemma TakenSems(s: Sys, t: Tid, op: Op)
    requires SemsOk(s) && t in s.pcs && s.pcs[t] == Taking(op)
    ensures SemsOk(TakenSem(s, t, op))
  {
    hide SemOk;
    if SemOf(s, op).value > 0 {
      SameBoth(s, t, Relock(op, true));
      CountsDown(SemOf(s, op), s.pcs[t := Relock(op, true)], op.Read?);
    } else {
      FallsAsleep(SemOf(s, op), s.pcs, op.Read?, t, Asleep(op));
      SameSleepers(if op.Read? then s.writeSem else s.readSem, s.pcs, !op.Read?, t, Asleep(op));
    }
  }

  lemma StepSems(s: Sys, t: Tid)
    requires Inv(s) && SemsOk(s) && t in s.pcs
    ensures SemsOk(Stepped(s, t))
  {
    hide Inv, SemOk, Released, Broadcast, TakenSem;
    match s.pcs[t]
    case Asleep(_) => {}
    case Taking(op) =>
      TakenSems(s, t, op);
    case Tell =>
      SameBoth(s, t, Leave);
      var u := To(s, t, Leave);
      ReleasedSems(u, Write(false));
      BroadcastWakesAll(u, Read(false));
    case Leave => SameBoth(s, t, Leave);
    case _ => SameBoth(s, t, Stepped(s, t).pcs[t]);
  }

  lemma CountsDown(sem: Sem, pcs: Pcs, reading: bool)
    requires SemOk(sem, pcs, reading) && sem.value > 0
    ensures SemOk(sem.(value := sem.value - 1), pcs, reading)
  {
  }

  lemma SameBoth(s: Sys, t: Tid, pc: Pc)
    requires SemsOk(s) && !pc.Asleep? && (t in s.pcs ==> !s.pcs[t].Asleep?)
    ensures SemOk(s.readSem, s.pcs[t := pc], true) && SemOk(s.writeSem, s.pcs[t := pc], false)
    ensures SemOk(s.readSem, s.pcs - {t}, true) && SemOk(s.writeSem, s.pcs - {t}, false)
  {
    SameSleepers(s.readSem, s.pcs, true, t, pc);
    SameSleepers(s.writeSem, s.pcs, false, t, pc);
  }

  lemma AwokenSems(s: Sys, t: Tid, ok: bool)
    requires SemsOk(s) && t in s.pcs && s.pcs[t].Asleep?
    ensures SemsOk(Awoken(s, t, ok))
  {
    var op := s.pcs[t].op;
    WakesUp(SemOf(s, op), s.pcs, op.Read?, t, Relock(op, ok));
    SameSleepers(if op.Read? then s.writeSem else s.readSem, s.pcs, !op.Read?, t, Relock(op, ok));
  }

  // ---- Progress ----

  /** A thread that will need a signal, or has yet to take one. */
  predicate Needs(pc: Pc, reading: bool) {
    (pc.Waiting? || pc.Taking? || pc.Asleep?) && OfKind(pc.op, reading)
  }

  /** A thread that will wake one of the kind, take the lock, or is one of the kind that was woken. */
  predicate Due(pc: Pc, reading: bool, value: nat) {
    match pc
    case Tell => true
    case Test(op) => op.Write? || OfKind(op, reading)
    case Got(op) => op.Write? || OfKind(op, reading)
    case Relock(op, ok) => ok && OfKind(op, reading)
    case Back(op, ok) => ok && OfKind(op, reading)
    case Taking(op) => value > 0 && OfKind(op, reading)
    case _ => false
  }

  /** A thread of the kind would be let in. */
  predicate Open(s: Sys, reading: bool) {
    s.refcount == 0 && (reading ==> s.waitWriters == 0)
  }

  function Value(s: Sys, reading: bool): nat {
    if reading then s.readSem.value else s.writeSem.value
  }

  ghost predicate SomeNeeds(pcs: Pcs, reading: bool) {
    exists t :: t in pcs && Needs(pcs[t], reading)
  }

  ghost predicate SomeDue(pcs: Pcs, reading: bool, value: nat) {
    exists t :: t in pcs && Due(pcs[t], reading, value)
  }

  ghost predicate Moving(s: Sys, reading: bool) {
    Open(s, reading) && SomeNeeds(s.pcs, reading) ==> SomeDue(s.pcs, reading, Value(s, reading))
  }

  ghost predicate Progress(s: Sys, reading: bool) {
    Inv(s) && SemsOk(s) && Moving(s, reading)
  }

  /** One thread moves and needs no more than before, or stays due if it was. */
  lemma MovesOn(s: Sys, u: Sys, reading: bool, t: Tid, pc: Pc)
    requires Moving(s, reading) && u.pcs == s.pcs[t := pc] && Value(u, reading) == Value(s, reading)
    requires Open(u, reading) ==> Open(s, reading)
    requires Open(u, reading) && Needs(pc, reading) ==> t in s.pcs && Needs(s.pcs[t], reading)
    requires t in s.pcs && Due(s.pcs[t], reading, Value(s, reading)) ==> Due(pc, reading, Value(s, reading))
    ensures Moving(u, reading)
  {
    hide Needs, Due, Open, Value;
    if Open(u, reading) && SomeNeeds(u.pcs, reading) {
      var x :| x in u.pcs && Needs(u.pcs[x], reading);
      assert x in s.pcs && Needs(s.pcs[x], reading);
      var y :| y in s.pcs && Due(s.pcs[y], reading, Value(s, reading));
      assert y in u.pcs && Due(u.pcs[y], reading, Value(u, reading));
    }
  }

  /** Witnessed by one thread. */
  lemma DueNow(u: Sys, reading: bool, t: Tid)
    requires t in u.pcs && Due(u.pcs[t], reading, Value(u, reading))
    ensures Moving(u, reading)
  {
  }

  /** Whoever needs a signal of its kind is counted. */
  lemma NeedsCounted(s: Sys, reading: bool)
    requires Inv(s) && SomeNeeds(s.pcs, reading)
    ensures if reading then s.waitReaders > 0 else s.waitWriters > 0
  {
    var t :| t in s.pcs && Needs(s.pcs[t], reading);
    if reading {
      assert t in WaitingReaders(s.pcs);
    } else {
      assert t in WaitingWriters(s.pcs);
    }
  }

  lemma NobodySleeps(sem: Sem, pcs: Pcs, reading: bool, x: Tid)
    requires SemOk(sem, pcs, reading) && sem.sleepers == [] && x in pcs
    ensures !Sleeps(pcs[x], reading)
  {
  }

  /** After a signal that left nobody asleep, whoever needs one can take one. */
  lemma CanTake(u: Sys, reading: bool)
    requires SemsOk(u) && Inv(u) && u.owner.Some? && u.pcs[u.owner.value] == Leave
    requires (if reading then u.readSem else u.writeSem).sleepers == [] && Value(u, reading) > 0
    ensures Moving(u, reading)
  {
    hide WaitingReaders, WaitingWriters, CountOk, PcOk;
    if SomeNeeds(u.pcs, reading) {
      var x :| x in u.pcs && Needs(u.pcs[x], reading);
      assert Owns(u.pcs[x]) <==> u.owner == Some(x);
      NobodySleeps(if reading then u.readSem else u.writeSem, u.pcs, reading, x);
      DueNow(u, reading, x);
    }
  }

  /** The thread that let the lock go tells a writer first, or all the readers. */
  lemma ToldMoving(s: Sys, reading: bool, t: Tid)
    requires Inv(s) && SemsOk(s) && t in s.pcs && s.pcs[t] == Tell
    ensures Moving(Told(s, t), reading)
  {
    hide WaitingReaders, WaitingWriters, CountOk, SemOk, Released, Broadcast;
    ToldInv(s, t);
    StepSems(s, t);
    SameBoth(s, t, Leave);
    assert Owns(s.pcs[t]) <==> s.owner == Some(t);
    var u := Told(s, t);
    var v := To(s, t, Leave);
    HandOverInv(s, t, Leave, Some(t));
    if s.waitWriters > 0 {
      ReleasedSems(v, Write(false));
      if s.refcount == 0 && !reading { SignalMoving(v, u, t); } else { NotOpen(u, reading); }
    } else {
      if SomeNeeds(u.pcs, false) {
        NeedsCounted(u, false);
        BroadcastWakesAll(v, Read(false));
      }
      if s.waitReaders > 0 {
        BroadcastWakesAll(v, Read(false));
        if reading { StaysLeave(v, t); CanTake(u, true); }
      } else if SomeNeeds(u.pcs, true) {
        NeedsCounted(u, true);
      }
    }
  }

  /** A thread that is leaving is not asleep, so no broadcast moves it. */
  lemma StaysLeave(v: Sys, t: Tid)
    requires SemsOk(v) && t in v.pcs && v.pcs[t] == Leave
    ensures var pcs := Broadcast(v, Read(false)).pcs; t in pcs && pcs[t] == Leave
  {
    BroadcastWakesAll(v, Read(false));
    assert t !in v.readSem.sleepers;
  }

  lemma SignalMoving(v: Sys, u: Sys, t: Tid)
    requires SemsOk(v) && Inv(u) && SemsOk(u) && u == Released(v, Write(false))
    requires t in v.pcs && v.pcs[t] == Leave && v.owner == Some(t) && Inv(v)
    ensures Moving(u, false)
  {
    hide WaitingReaders, WaitingWriters, CountOk, Released;
    ReleasedSems(v, Write(false));
    var sem := v.writeSem;
    if sem.sleepers == [] {
      CanTake(u, false);
    } else {
      var x := sem.sleepers[0];
      assert x in v.pcs && Sleeps(v.pcs[x], false);
      assert PcOk(v, v.pcs[x], x);
      DueNow(u, false, x);
    }
  }

  /** The step in which a writer whose wait has failed counts itself out. */
  predicate GivesUp(s: Sys, e: Event) {
    e.Step? && e.t in s.pcs && s.pcs[e.t].Back? && s.pcs[e.t].op.Write? && !s.pcs[e.t].ok
  }

  /** A writer gives up only while the lock is held, another writer waits, or no reader waits. */
  predicate Orderly(s: Sys, e: Event) {
    GivesUp(s, e) ==> s.refcount != 0 || s.waitWriters > 1 || s.waitReaders == 0
  }

  lemma GivingUp(s: Sys, t: Tid)
    requires Inv(s) && GivesUp(s, Step(t)) && Orderly(s, Step(t))
    ensures Moving(Stepped(s, t), true)
  {
    var u := Stepped(s, t);
    StepInv(s, t);
    hide Inv;
    if u.refcount == 0 && u.waitWriters == 0 && SomeNeeds(u.pcs, true) {
      NeedsCounted(u, true);
    }
  }

  /**
   * If the last waiting writer gives up while the lock is free and readers need a signal, they
   * are not stranded exactly if some other thread will wake one or is one that was woken.
   */
  lemma GivingUpExactly(s: Sys, t: Tid)
    requires GivesUp(s, Step(t)) && s.refcount == 0 && s.waitWriters == 1 && SomeNeeds(s.pcs, true)
    ensures Moving(Stepped(s, t), true) <==> exists x :: x in s.pcs && x != t && Due(s.pcs[x], true, s.readSem.value)
  {
    var u := Stepped(s, t);
    var r :| r in s.pcs && Needs(s.pcs[r], true);
    assert r in u.pcs && Needs(u.pcs[r], true);
    assert u.pcs == s.pcs[t := Leave] && Open(u, true) && Value(u, true) == s.readSem.value;
    if x :| x in s.pcs && x != t && Due(s.pcs[x], true, s.readSem.value) {
      DueNow(u, true, x);
    }
    if Moving(u, true) {
      var x :| x in u.pcs && Due(u.pcs[x], true, Value(u, true));
      assert x != t && Due(s.pcs[x], true, s.readSem.value);
    }
  }

  lemma StepMoving(s: Sys, reading: bool, t: Tid)
    requires Progress(s, reading) && t in s.pcs && (reading ==> Orderly(s, Step(t)))
    ensures Moving(Stepped(s, t), reading)
  {
    hide WaitingReaders, WaitingWriters, MutexOk, CountOk, SemOk, Moving, SomeNeeds, SomeDue, Told;
    assert PcOk(s, s.pcs[t], t);
    var u := Stepped(s, t);
    match s.pcs[t]
    case Start(op) => if u != s { MovesOn(s, u, reading, t, Test(op)); }
    case Test(op) => TestMoving(s, reading, t, op);
    case Got(op) => NotOpen(u, reading);
    case Waiting(op) => MovesOn(s, u, reading, t, Taking(op));
    case Taking(op) =>
      if SemOf(s, op).value > 0 && OfKind(op, reading) {
        DueNow(u, reading, t);
      } else {
        MovesOn(s, u, reading, t, u.pcs[t]);
      }
    case Asleep(_) => {}
    case Relock(op, ok) => if u != s { MovesOn(s, u, reading, t, Back(op, ok)); }
    case Back(op, ok) =>
      if op.Write? && ok {
        DueNow(u, reading, t);
      } else if op.Write? && reading {
        GivingUp(s, t);
      } else {
        MovesOn(s, u, reading, t, u.pcs[t]);
      }
    case Tell => ToldMoving(s, reading, t);
    case Leave => LeaveMoving(s, reading, t);
  }

  lemma NotOpen(u: Sys, reading: bool)
    requires u.refcount != 0 || (reading && u.waitWriters != 0)
    ensures Moving(u, reading)
  {
  }

  lemma TestMoving(s: Sys, reading: bool, t: Tid, op: Op)
    requires Progress(s, reading) && t in s.pcs && s.pcs[t] == Test(op)
    ensures Moving(Tested(s, t, op), reading)
  {
    hide Inv, SemsOk, Moving, SomeNeeds, SomeDue;
    var u := Tested(s, t, op);
    if op.Unlock? {
      DueNow(u, reading, t);
    } else if !Open(u, reading) {
      NotOpen(u, reading);
    } else {
      MovesOn(s, u, reading, t, u.pcs[t]);
    }
  }

  lemma LeaveMoving(s: Sys, reading: bool, t: Tid)
    requires Moving(s, reading) && t in s.pcs && s.pcs[t] == Leave
    ensures Moving(Stepped(s, t), reading)
  {
    var u := Stepped(s, t);
    if Open(u, reading) && SomeNeeds(u.pcs, reading) {
      var x :| x in u.pcs && Needs(u.pcs[x], reading);
      assert x in s.pcs && Needs(s.pcs[x], reading);
      var y :| y in s.pcs && Due(s.pcs[y], reading, Value(s, reading));
      assert y in u.pcs && Due(u.pcs[y], reading, Value(u, reading));
    }
  }

  lemma EventMoving(s: Sys, reading: bool, e: Event)
    requires Progress(s, reading) && Permitted(s, e) && (reading ==> Orderly(s, e))
    ensures Moving(Next(s, e), reading)
  {
    hide Inv, SemsOk, Moving, Stepped;
    var u := Next(s, e);
    match e
    case Call(t, op) => MovesOn(s, u, reading, t, Start(op));
    case Step(t) => StepMoving(s, reading, t);
    case Expire(t) => MovesOn(s, u, reading, t, u.pcs[t]);
    case Spurious(t) => MovesOn(s, u, reading, t, u.pcs[t]);
  }

  lemma EventSems(s: Sys, e: Event)
    requires Inv(s) && SemsOk(s) && Permitted(s, e)
    ensures SemsOk(Next(s, e))
  {
    hide Inv, Stepped, SemOk;
    match e
    case Call(t, op) => SameBoth(s, t, Start(op));
    case Step(t) => StepSems(s, t);
    case Expire(t) => AwokenSems(s, t, false);
    case Spurious(t) => AwokenSems(s, t, true);
  }

  lemma EventProgress(s: Sys, reading: bool, e: Event)
    requires Progress(s, reading) && Permitted(s, e) && (reading ==> Orderly(s, e))
    ensures Progress(Next(s, e), reading)
  {
    hide Inv, SemsOk, Moving, Next, Orderly;
    EventInv(s, e);
    EventSems(s, e);
    EventMoving(s, reading, e);
  }

  // ---- Runs ----

  /** A run in which no writer gives up while readers need it. */
  ghost predicate OrderlyRun(s: Sys, es: seq<Event>)
    requires PermittedRun(s, es)
    decreases |es|
  {
    es == [] || (Orderly(s, es[0]) && OrderlyRun(Next(s, es[0]), es[1..]))
  }

  lemma {:induction false} RunProgress(s: Sys, reading: bool, es: seq<Event>)
    requires Progress(s, reading) && PermittedRun(s, es) && (reading ==> OrderlyRun(s, es))
    ensures Progress(After(s, es), reading)
    decreases |es|
  {
    hide Progress, Next, Orderly;
    if es != [] {
      EventProgress(s, reading, es[0]);
      RunProgress(Next(s, es[0]), reading, es[1..]);
    }
  }

  lemma FreshProgress(reading: bool)
    ensures Progress(Fresh(), reading)
  {
    assert WaitingReaders(map[]) == {} && WaitingWriters(map[]) == {};
  }

  /** Timeouts or not: while the lock is free and a writer sleeps, some thread will get it or wake one. */
  lemma WritersNotStranded(es: seq<Event>, t: Tid)
    requires PermittedRun(Fresh(), es)
    requires var s := After(Fresh(), es); s.refcount == 0 && t in s.pcs && Sleeps(s.pcs[t], false)
    ensures var s := After(Fresh(), es); exists x :: x in s.pcs && Due(s.pcs[x], false, s.writeSem.value)
  {
    FreshProgress(false);
    RunProgress(Fresh(), false, es);
    hide WaitingReaders, WaitingWriters, MutexOk, CountOk, SemOk;
    var s := After(Fresh(), es);
    assert PcOk(s, s.pcs[t], t);
    assert Needs(s.pcs[t], false);
  }

  /** Unless the last waiting writer gives up with the lock free and readers waiting, nobody is stranded. */
  lemma NobodyStranded(es: seq<Event>)
    requires PermittedRun(Fresh(), es) && OrderlyRun(Fresh(), es)
    ensures var s := After(Fresh(), es);
            s.refcount == 0 && s.pcs != map[] ==> exists x :: x in s.pcs && !s.pcs[x].Asleep?
  {
    FreshProgress(false);
    FreshProgress(true);
    RunProgress(Fresh(), false, es);
    RunProgress(Fresh(), true, es);
    var s := After(Fresh(), es);
    hide MutexOk, CountOk, SemOk;
    if s.refcount == 0 && s.pcs != map[] {
      var t :| t in s.pcs;
      assert PcOk(s, s.pcs[t], t);
      if s.pcs[t].Asleep? && s.pcs[t].op.Write? {
        assert Needs(s.pcs[t], false);
      } else if s.pcs[t].Asleep? && s.waitWriters > 0 {
        var w :| w in WaitingWriters(s.pcs);
        assert !s.pcs[w].Asleep? || Needs(s.pcs[w], false);
      } else if s.pcs[t].Asleep? {
        assert Needs(s.pcs[t], true);
      }
    }
  }

  // ---- A writer that gives up ----

  lemma {:induction false} Extend(s: Sys, es: seq<Event>, e: Event)
    requires PermittedRun(s, es) && Permitted(After(s, es), e)
    ensures PermittedRun(s, es + [e]) && After(s, es + [e]) == Next(After(s, es), e)
    decreases |es|
  {
    if es == [] {
      assert (es + [e])[1..] == [];
    } else {
      Extend(Next(s, es[0]), es[1..], e);
      assert (es + [e])[1..] == es[1..] + [e];
    }
  }

  /** A run of Fresh() to s. */
  ghost predicate Reaches(es: seq<Event>, s: Sys) {
    PermittedRun(Fresh(), es) && After(Fresh(), es) == s
  }

  lemma Then(es: seq<Event>, s: Sys, e: Event) returns (more: seq<Event>)
    requires Reaches(es, s) && Permitted(s, e)
    ensures Reaches(more, Next(s, e))
  {
    Extend(Fresh(), es, e);
    more := es + [e];
  }

  /** Thread t goes on for n steps. */
  function Steps(s: Sys, t: Tid, n: nat): Sys
    decreases n
  {
    if n == 0 || t !in s.pcs then s else Steps(Stepped(s, t), t, n - 1)
  }

  lemma {:induction false} ThenSteps(es: seq<Event>, s: Sys, t: Tid, n: nat) returns (more: seq<Event>)
    requires Reaches(es, s)
    ensures Reaches(more, Steps(s, t, n))
    decreases n
  {
    if n == 0 || t !in s.pcs {
      more := es;
    } else {
      more := Then(es, s, Step(t));
      more := ThenSteps(more, Stepped(s, t), t, n - 1);
    }
  }

  /** A call that runs for n steps. */
  lemma ThenCall(es: seq<Event>, s: Sys, t: Tid, op: Op, n: nat) returns (more: seq<Event>)
    requires Reaches(es, s) && Permitted(s, Call(t, op))
    ensures Reaches(more, Steps(To(s, t, Start(op)), t, n))
  {
    hide Reaches, Steps;
    more := Then(es, s, Call(t, op));
    more := ThenSteps(more, To(s, t, Start(op)), t, n);
  }

  /** Thread 1 reads, thread 2 waits to write, thread 3 waits to read. */
  function Crowded(): Sys {
    Sys(1, 1, 1, None, Sem(0, [3]), Sem(0, [2]), map[2 := Asleep(Write(true)), 3 := Asleep(Read(false))],
        multiset{1}, None)
  }

  /** The writer has given up and the reader has left; thread 3 sleeps with the lock free. */
  function Stranded(): Sys {
    Sys(0, 1, 0, None, Sem(0, [3]), Sem(1, []), map[3 := Asleep(Read(false))], multiset{}, None)
  }

  lemma FourSteps(s: Sys, t: Tid)
    requires t in s.pcs && t in Stepped(s, t).pcs
    requires var u := Stepped(Stepped(s, t), t); t in u.pcs && t in Stepped(u, t).pcs
    ensures Steps(s, t, 4) == Stepped(Stepped(Stepped(Stepped(s, t), t), t), t)
  {
    var u := Stepped(Stepped(s, t), t);
    assert Steps(s, t, 4) == Steps(Stepped(s, t), t, 3) == Steps(u, t, 2) == Steps(Stepped(u, t), t, 1);
  }

  /** Thread 1 reads, and thread 2 waits to write. */
  function Written(): Sys {
    Sys(1, 0, 1, None, Sem(0, []), Sem(0, [2]), map[2 := Asleep(Write(true))], multiset{1}, None)
  }

  /** Thread 1 reads alone. */
  function Alone(): Sys {
    Sys(1, 0, 0, None, Sem(0, []), Sem(0, []), map[], multiset{1}, None)
  }

  lemma OneReads()
    ensures Steps(To(Fresh(), 1, Start(Read(false))), 1, 4) == Alone()
  {
    FourSteps(To(Fresh(), 1, Start(Read(false))), 1);
  }

  lemma TwoWaits()
    ensures Steps(To(Alone(), 2, Start(Write(true))), 2, 4) == Written()
  {
    FourSteps(To(Alone(), 2, Start(Write(true))), 2);
  }

  lemma ThreeWaits()
    ensures Steps(To(Written(), 3, Start(Read(false))), 3, 4) == Crowded()
  {
    FourSteps(To(Written(), 3, Start(Read(false))), 3);
  }

  /** The writer's time is up, and before it has rw_mutex back thread 1 unlocks. */
  function Unlocked(): Sys {
    Sys(0, 1, 1, None, Sem(0, [3]), Sem(1, []), map[2 := Relock(Write(true), false), 3 := Asleep(Read(false))],
        multiset{}, None)
  }

  lemma OneUnlocks()
    ensures Steps(To(Awoken(Crowded(), 2, false), 1, Start(Unlock)), 1, 4) == Unlocked()
  {
    var s := To(Awoken(Crowded(), 2, false), 1, Start(Unlock));
    var a := Stepped(s, 1);
    var b := Stepped(a, 1);
    assert b.pcs[1] == Tell && b.refcount == 0 && b.readers == multiset{};
    var c := Stepped(b, 1);
    assert c.pcs[1] == Leave && c.writeSem == Sem(1, []);
    FourSteps(s, 1);
  }

  lemma TwoGivesUp()
    ensures Steps(Unlocked(), 2, 3) == Stranded()
  {
    var a := Stepped(Unlocked(), 2);
    var b := Stepped(a, 2);
    assert Steps(Unlocked(), 2, 3) == Steps(a, 2, 2) == Steps(b, 2, 1) == Stepped(b, 2);
    assert b.pcs[2] == Leave;
  }

  /**
   * Such a writer can strand a reader: its wait times out, the signal of the last unlock is left
   * unused, and nobody tells the reader. Nothing but a spurious wake-up or another caller's unlock
   * can free it.
   */
  lemma TimedWriterStrandsReader() returns (es: seq<Event>)
    ensures PermittedRun(Fresh(), es) && After(Fresh(), es) == Stranded()
    ensures !OrderlyRun(Fresh(), es)
  {
    hide Steps, After, PermittedRun;
    es := [];
    assert Reaches([], Fresh()) by { ReachNone(); }
    OneReads();
    es := ThenCall(es, Fresh(), 1, Read(false), 4);
    TwoWaits();
    es := ThenCall(es, Alone(), 2, Write(true), 4);
    ThreeWaits();
    es := ThenCall(es, Written(), 3, Read(false), 4);
    es := Then(es, Crowded(), Expire(2));
    OneUnlocks();
    es := ThenCall(es, Awoken(Crowded(), 2, false), 1, Unlock, 4);
    TwoGivesUp();
    es := ThenSteps(es, Unlocked(), 2, 3);
    if OrderlyRun(Fresh(), es) {
      NobodyStranded(es);
    }
  }

  lemma ReachNone()
    ensures Reaches([], Fresh())
  {
  }
}

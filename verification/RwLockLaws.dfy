/**
 * What each step of a call on the read-write lock decides, in terms of who holds the lock and who
 * waits: the answers of the tests, what an unlock gives up and whom it tells, and how a wait ends.
 */
module RwLockLaws {
  import opened Base
  import opened Lists
  import opened RwLock
  import opened RwLockProgress

  /** Nobody holds the lock. */
  ghost predicate Unheld(s: Sys) {
    s.writer.None? && s.readers == multiset{}
  }

  /** A read lock may be had: no writer holds the lock and none waits for it. */
  ghost predicate ReadableNow(s: Sys) {
    s.writer.None? && WaitingWriters(s.pcs) == {}
  }

  /**
   * The test of a call lets it go on exactly if no writer holds the lock or waits, for reading, and
   * exactly if nobody holds it, for writing. Otherwise a try gives up and another call waits.
   */
  lemma TestExactly(s: Sys, t: Tid)
    requires Inv(s) && t in s.pcs && s.pcs[t].Test? && !s.pcs[t].op.Unlock?
    ensures var (u, op) := (Next(s, Step(t)), s.pcs[t].op);
            && u.pcs == s.pcs[t := u.pcs[t]] && u.readers == s.readers && u.writer == s.writer
            && u.pcs[t] == if (if op.Read? || op.TryRead? then ReadableNow(s) else Unheld(s)) then Got(op)
                           else if op.TryRead? || op.TryWrite? then Leave else Waiting(op)
  {
  }

  /** The call that goes on has the lock, as one more reader or as the writer, and leaves. */
  lemma GotExactly(s: Sys, t: Tid)
    requires Inv(s) && t in s.pcs && s.pcs[t].Got?
    ensures var (u, op) := (Next(s, Step(t)), s.pcs[t].op);
            && u.pcs == s.pcs[t := Leave]
            && if op.Read? || op.TryRead? then u.readers == s.readers + multiset{t} && u.writer == s.writer == None
               else u.readers == s.readers == multiset{} && u.writer == Some(t)
  {
  }

  /** A try from its test on: it has the lock two steps later, or it is about to leave without. */
  lemma TryExactly(s: Sys, t: Tid)
    requires Inv(s) && t in s.pcs && (s.pcs[t] == Test(TryRead) || s.pcs[t] == Test(TryWrite))
    ensures var (u, op) := (Next(s, Step(t)), s.pcs[t].op);
            && t in u.pcs
            && var v := if u.pcs[t] == Leave then u else Next(u, Step(t));
               && v.pcs == s.pcs[t := Leave]
               && (if op.TryRead? then v.readers == s.readers + (if ReadableNow(s) then multiset{t} else multiset{})
                                       && v.writer == s.writer
                   else v.readers == s.readers && v.writer == if Unheld(s) then Some(t) else s.writer)
  {
    TestExactly(s, t);
    EventInv(s, Step(t));
    var u := Next(s, Step(t));
    if u.pcs[t].Got? {
      GotExactly(u, t);
    }
  }

  /** A tryrdlock and a trywrlock of a new lock are granted. */
  lemma FreshIsGranted(t: Tid)
    ensures Tested(Fresh(), t, TryRead).pcs[t] == Got(TryRead) && Tested(Fresh(), t, TryWrite).pcs[t] == Got(TryWrite)
  {
  }

  /** An unlock takes its caller off the readers, or the writer off, and goes on to tell the others. */
  lemma UnlockExactly(s: Sys, t: Tid)
    requires Inv(s) && t in s.pcs && s.pcs[t] == Test(Unlock)
    ensures var u := Next(s, Step(t));
            && u.pcs == s.pcs[t := Tell] && Holds(s, t)
            && (if s.writer.Some? then s.writer == Some(t) && u.writer == None && u.readers == multiset{}
                else u.writer == None && u.readers == s.readers - multiset{t})
  {
  }

  /**
   * An unlock tells one writer if writers wait and nobody holds the lock any more; it tells all
   * readers if readers wait and no writers; and it tells nobody otherwise.
   */
  lemma TellExactly(s: Sys, t: Tid)
    requires Inv(s) && SemsOk(s) && t in s.pcs && s.pcs[t] == Tell
    ensures var (u, v) := (Next(s, Step(t)), To(s, t, Leave));
            if WaitingWriters(s.pcs) != {} then
              if Unheld(s) then
                && u.readSem == s.readSem
                && if s.writeSem.sleepers == [] then
                     u.pcs == v.pcs && u.writeSem == s.writeSem.(value := s.writeSem.value + 1)
                   else
                     var w := s.writeSem.sleepers[0];
                     && w in v.pcs && v.pcs[w].Asleep? && u.pcs == v.pcs[w := Relock(v.pcs[w].op, true)]
                     && u.writeSem == s.writeSem.(sleepers := s.writeSem.sleepers[1..])
              else u == v
            else if WaitingReaders(s.pcs) != {} then
              && u.writeSem == s.writeSem && u.readSem.sleepers == [] && u.readSem.value > 0
              && u.pcs.Keys == s.pcs.Keys
              && forall x <- v.pcs ::
                   u.pcs[x] == if v.pcs[x].Asleep? && v.pcs[x].op.Read? then Relock(v.pcs[x].op, true) else v.pcs[x]
            else u == v
  {
    var v := To(s, t, Leave);
    SameBoth(s, t, Leave);
    if WaitingWriters(s.pcs) != {} {
      assert |WaitingWriters(s.pcs)| > 0;
      if Unheld(s) { ReleasedSems(v, Write(false)); }
    } else if WaitingReaders(s.pcs) != {} {
      assert |WaitingReaders(s.pcs)| > 0;
      BroadcastWakesAll(v, Read(false));
    }
  }

  /** A wait ends with the test again, or, if it has failed, with leaving; the lock changes hands in neither case. */
  lemma BackExactly(s: Sys, t: Tid)
    requires Inv(s) && t in s.pcs && s.pcs[t].Back?
    ensures var u := Next(s, Step(t));
            && u.pcs == s.pcs[t := if s.pcs[t].ok then Test(s.pcs[t].op) else Leave]
            && u.readers == s.readers && u.writer == s.writer
  {
  }

  /** A wait fails exactly if the time of a timed call is up. */
  lemma ExpireExactly(s: Sys, e: Event, t: Tid)
    requires Inv(s) && SemsOk(s) && Permitted(s, e) && t in s.pcs && s.pcs[t].Asleep?
    ensures t in Next(s, e).pcs
    ensures Next(s, e).pcs[t] == Relock(s.pcs[t].op, false) <==> e == Expire(t)
  {
    hide Inv, SemsOk, Told, Broadcast, Released, Stepped;
    if e.Step? {
      if s.pcs[e.t] == Tell { TellExactly(s, e.t); } else { StepLeavesAsleep(s, e.t, t); }
    }
  }

  lemma StepLeavesAsleep(s: Sys, x: Tid, t: Tid)
    requires x in s.pcs && t in s.pcs && s.pcs[t].Asleep? && s.pcs[x] != Tell
    ensures t in Stepped(s, x).pcs && Stepped(s, x).pcs[t] == s.pcs[t]
  {
    hide Told, Broadcast, Released;
  }

  /** rw_mutex is taken exactly if it is free, by a call that starts and by one that comes back from its wait. */
  lemma TakesMutexExactly(s: Sys, t: Tid)
    requires Inv(s) && t in s.pcs && (s.pcs[t].Start? || s.pcs[t].Relock?)
    ensures var u := Next(s, Step(t));
            if exists x :: x in s.pcs && Owns(s.pcs[x]) then u == s
            else
              && u.owner == Some(t) && u.readers == s.readers && u.writer == s.writer
              && u.pcs == s.pcs[t := if s.pcs[t].Start? then Test(s.pcs[t].op) else Back(s.pcs[t].op, s.pcs[t].ok)]
  {
  }
}

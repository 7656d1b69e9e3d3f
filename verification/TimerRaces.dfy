/**
 * Calls of timer.c that come between the steps of another call on the same timer: what was tested
 * before the region does not hold any more in it or behind it. Each is a permitted run.
 */
module TimerRaces {
  import opened Base
  import opened Lists
  import opened Timers

  lemma ArmedList(s: Sys, t: Tid)
    requires t in s.timers
    ensures t in Armed(s, t).list && (t in s.list ==> !NoDup(Armed(s, t).list))
    ensures var u := Armed(s, t);
            && t in u.timers && u.calls == s.calls && u.now == s.now && u.phase == s.phase
            && u.timers[t] == s.timers[t].(deadline := s.now + s.timers[t].init, active := true)
  {
    hide NoDup, Place, Inserted;
    var v := Timed(s, t, s.now + s.timers[t].init);
    var k := Place(v, v.list, v.timers[t].deadline);
    InsertedMembers(s.list, k, t);
    if t in s.list {
      LinkedTwice(s.list, k, t);
    }
  }

  // ---- Two stops ----

  /** One call past its test, the whole of another one, and the region of the first. */
  function StopsBegun(t: Tid): seq<Event> {
    [StopTest(t)] + (StopSteps(t) + [StopUnlink(t)])
  }

  lemma StopsRun(s: Sys, t: Tid)
    requires t in s.timers && s.timers[t].active
    ensures RunsTo(s, StopsBegun(t), Enter(Cleared(Off(s, t), t), Unlinked(t)))
  {
    hide RunsTo, Without, Inv;
    var s1 := Enter(s, Stopping(t));
    var s2 := Cleared(Off(s1, t), t);
    var u := Enter(Cleared(Off(s, t), t), Unlinked(t));
    assert Permitted(s, StopTest(t)) && Next(s, StopTest(t)) == s1;
    assert Permitted(s2, StopUnlink(t)) && Next(s2, StopUnlink(t)) == u by {
      WithoutMembers(s.list, t);
      WithoutMembers(Without(s.list, t), t);
      assert s2.calls - multiset{Stopping(t)} == s.calls;
    }
    One(s, StopTest(t));
    StopRun(s1, t);
    One(s2, StopUnlink(t));
    hide Permitted, Next, Enter, Off, Cleared, StopSteps;
    Join(s1, StopSteps(t), s2, [StopUnlink(t)], u);
    Join(s, [StopTest(t)], s1, StopSteps(t) + [StopUnlink(t)], u);
  }

  function StopsAndStart(s: Sys, t: Tid): seq<Event>
    requires t in s.timers
  {
    StopsBegun(t) + (StartSteps(s, t) + [StopClear(t)])
  }

  /** A timer that is listed and inactive is linked a second time by the next start. */
  ghost predicate ListedInactive(u: Sys, t: Tid) {
    && t in u.list && t in u.timers && !u.timers[t].active && u.timers[t].init < HALF
    && RunsTo(u, StartSteps(u, t), Armed(u, t)) && !NoDup(Armed(u, t).list)
  }

  lemma LinkedAgain(u: Sys, t: Tid)
    requires t in u.list && t in u.timers && !u.timers[t].active && u.timers[t].init < HALF
    ensures ListedInactive(u, t) && !Inv(u)
  {
    hide RunsTo, NoDup, Armed;
    StartRun(u, t);
    ArmedList(u, t);
  }

  /** A start between the two writes of the flag: the second write clears the flag of a listed timer. */
  lemma TwoStops(s: Sys, t: Tid)
    requires t in s.timers && s.timers[t].active && s.timers[t].init < HALF
    ensures PermittedRun(s, StopsAndStart(s, t))
    ensures ListedInactive(After(s, StopsAndStart(s, t)), t) && !Inv(After(s, StopsAndStart(s, t)))
  {
    hide NoDup, Inv, Armed, PermittedRun, After, ListedInactive;
    var v := Enter(Cleared(Off(s, t), t), Unlinked(t));
    StopsRun(s, t);
    StartRun(v, t);
    ArmedList(v, t);
    var w := Armed(v, t);
    var u := Next(w, StopClear(t));
    One(w, StopClear(t));
    LinkedAgain(u, t);
    assert StartSteps(v, t) == StartSteps(s, t);
    hide StopsBegun, StartSteps, Next, RunsTo;
    Join(v, StartSteps(s, t), w, [StopClear(t)], u);
    Join(s, StopsBegun(t), v, StartSteps(s, t) + [StopClear(t)], u);
    RunsToIs(s, StopsAndStart(s, t), u);
  }

  /** From the start of the kernel: a timer is made and started, two calls stop it, and one starts it between them. */
  lemma TwoStopsFromBoot(t: Tid, ticks: u32, on: bool)
    requires ticks < HALF
    ensures var made := Next(Boot(), Init(t, ticks, on));
            var es := [Init(t, ticks, on)] + (StartSteps(made, t) + StopsAndStart(Armed(made, t), t));
            && PermittedRun(Boot(), es)
            && ListedInactive(After(Boot(), es), t)
  {
    hide PermittedRun, After, Armed, StartSteps, StopsAndStart, ListedInactive, Inv;
    var e := Init(t, ticks, on);
    var made := Next(Boot(), e);
    var v := Armed(made, t);
    One(Boot(), e);
    StartRun(made, t);
    ArmedList(made, t);
    TwoStops(v, t);
    var u := After(v, StopsAndStart(v, t));
    Join(made, StartSteps(made, t), v, StopsAndStart(v, t), u);
    Join(Boot(), [e], made, StartSteps(made, t) + StopsAndStart(v, t), u);
  }

  // ---- Two starts ----

  /** Two starts of an inactive timer that both pass the test link it twice. */
  lemma TwoStarts(s: Sys, t: Tid)
    requires t in s.timers && !s.timers[t].active && s.timers[t].init < HALF
    ensures var es := StartBegun(t) + (StartSteps(s, t) + StartRest(t, s.now + s.timers[t].init));
            PermittedRun(s, es) && !NoDup(After(s, es).list) && !Inv(After(s, es))
  {
    hide NoDup, RunsTo, PermittedRun, After, Armed;
    var d := s.now + s.timers[t].init;
    var v := Enter(s, Computed(t, d));
    BegunRun(s, t);
    StartRun(v, t);
    ArmedList(v, t);
    RestRun(Armed(v, t), t, d);
    assert StartSteps(v, t) == StartSteps(s, t);
    hide StartBegun, StartSteps, StartRest, RestDone;
    var (w, u) := (Armed(v, t), RestDone(Armed(v, t), t, d));
    Join(v, StartSteps(s, t), w, StartRest(t, d), u);
    Join(s, StartBegun(t), v, StartSteps(s, t) + StartRest(t, d), u);
    RunsToIs(s, StartBegun(t) + (StartSteps(s, t) + StartRest(t, d)), u);
  }

  // ---- Late steps ----

  /** One tick at which nothing is due. */
  lemma TickRun(s: Sys)
    requires s.phase == Idle && (s.list != [] ==> s.now + 1 < DeadlineOf(s, s.list[0]))
    ensures RunsTo(s, [TickUp] + [EndCheck], s.(now := s.now + 1))
  {
    hide RunsTo;
    var v := Next(s, TickUp);
    assert Next(v, EndCheck) == s.(now := s.now + 1);
    One(s, TickUp);
    One(v, EndCheck);
    Join(s, [TickUp], v, [EndCheck], Next(v, EndCheck));
  }

  /** A start up to its region, the tick the timer is due at, and only then the region. */
  function LateStart(t: Tid, d: nat): seq<Event> {
    StartBegun(t) + ([StartWrite(t, d)] + (([TickUp] + [EndCheck]) + [StartLink(t)]))
  }

  /** A timer that is linked when its time has come is called a tick late. */
  lemma LinkedLate(s: Sys, t: Tid)
    requires t in s.timers && !s.timers[t].active && s.timers[t].init == 1 && s.phase == Idle && s.list == []
    ensures PermittedRun(s, LateStart(t, s.now + 1))
    ensures var u := After(s, LateStart(t, s.now + 1));
            && u.list == [t] && !Inv(u) && PermittedRun(u, [TickUp] + [Fire])
            && After(u, [TickUp] + [Fire]).fired == s.fired + [Firing(t, s.now + 1, s.now + 2)]
  {
    hide RunsTo, Inserted, PermittedRun, After, Inv, Returned, FireHead, Without;
    var d := s.now + 1;
    var s1 := Enter(s, Computed(t, d));
    var s2 := Move(Timed(s1, t, d), Computed(t, d), Written(t));
    var s3 := s2.(now := s.now + 1);
    var u := Exit(Linked(s3, t), Written(t));
    InsertedAt([], 0, t, 0);
    assert u.list == [t] && u.phase == Idle && DeadlineOf(u, t) == u.now && u.fired == s.fired;
    hide Linked, DeadlineOf;
    BegunRun(s, t);
    assert Permitted(s1, StartWrite(t, d)) && Next(s1, StartWrite(t, d)) == s2;
    TickRun(s2);
    assert Permitted(s3, StartLink(t)) && Next(s3, StartLink(t)) == u;
    FiresNow(u, t);
    hide Permitted, Next, Move, Timed, Enter, Exit, StartBegun;
    One(s1, StartWrite(t, d));
    One(s3, StartLink(t));
    Join(s2, [TickUp] + [EndCheck], s3, [StartLink(t)], u);
    Join(s1, [StartWrite(t, d)], s2, ([TickUp] + [EndCheck]) + [StartLink(t)], u);
    Join(s, StartBegun(t), s1, [StartWrite(t, d)] + (([TickUp] + [EndCheck]) + [StartLink(t)]), u);
    RunsToIs(s, LateStart(t, d), u);
  }

  lemma FiresNow(u: Sys, t: Tid)
    requires u.phase == Idle && u.list == [t] && t in u.timers && DeadlineOf(u, t) == u.now
    ensures !Inv(u) && PermittedRun(u, [TickUp] + [Fire])
    ensures After(u, [TickUp] + [Fire]).fired == u.fired + [Firing(t, u.now, u.now + 1)]
  {
    var v := Next(u, TickUp);
    assert t in u.list;
    hide RunsTo;
    One(u, TickUp);
    One(v, Fire);
    Join(u, [TickUp], v, [Fire], Next(v, Fire));
    RunsToIs(u, [TickUp] + [Fire], Next(v, Fire));
  }

  /** A start of t that has read the tick; a tick; a whole start of t and one of x. */
  function StartsAcross(s: Sys, t: Tid, x: Tid): seq<Event>
    requires t in s.timers && x in s.timers
  {
    var u := s.(now := s.now + 1);
    StartBegun(t) + (([TickUp] + [EndCheck]) + (StartSteps(u, t) + StartSteps(u, x)))
  }

  lemma AcrossRun(s: Sys, t: Tid, x: Tid)
    requires t in s.timers && !s.timers[t].active && s.timers[t].init == 2 && s.phase == Idle && s.list == []
    requires x in s.timers && !s.timers[x].active && s.timers[x].init == 2 && x != t
    ensures var s2 := Enter(s, Computed(t, s.now + 2)).(now := s.now + 1);
            && t in s2.timers && x in Armed(s2, t).timers
            && RunsTo(s, StartsAcross(s, t, x), Armed(Armed(s2, t), x))
  {
    hide RunsTo, Armed;
    var s1 := Enter(s, Computed(t, s.now + 2));
    var s2 := s1.(now := s.now + 1);
    BegunRun(s, t);
    TickRun(s1);
    StartsBoth(s2, t, x);
    assert StartSteps(s2, t) == StartSteps(s.(now := s.now + 1), t);
    assert StartSteps(s2, x) == StartSteps(s.(now := s.now + 1), x);
    hide StartBegun, StartSteps, DeadlineOf;
    var (steps, u) := (StartSteps(s2, t) + StartSteps(s2, x), Armed(Armed(s2, t), x));
    Join(s1, [TickUp] + [EndCheck], s2, steps, u);
    Join(s, StartBegun(t), s1, ([TickUp] + [EndCheck]) + steps, u);
  }

  /** The timeout of a listed timer is rewritten behind a later one: its time comes and it is not called. */
  lemma WrittenLate(s: Sys, t: Tid, x: Tid)
    requires t in s.timers && !s.timers[t].active && s.timers[t].init == 2 && s.phase == Idle && s.list == []
    requires x in s.timers && !s.timers[x].active && s.timers[x].init == 2 && x != t
    ensures PermittedRun(s, StartsAcross(s, t, x) + [StartWrite(t, s.now + 2)])
    ensures var u := After(s, StartsAcross(s, t, x) + [StartWrite(t, s.now + 2)]);
            && !Inv(u) && u.list == [x, t] && PermittedRun(u, [TickUp] + [EndCheck])
            && var v := After(u, [TickUp] + [EndCheck]);
               v.phase == Idle && v.list == [x, t] && DeadlineOf(v, t) == v.now && v.fired == s.fired
  {
    hide RunsTo, PermittedRun, After, Armed, Inv, StartsAcross, StartSteps;
    var d := s.now + 2;
    var s2 := Enter(s, Computed(t, d)).(now := s.now + 1);
    AcrossRun(s, t, x);
    StartsBoth(s2, t, x);
    var v := Armed(Armed(s2, t), x);
    var u := Next(v, StartWrite(t, d));
    One(v, StartWrite(t, d));
    TickRun(u);
    Overtaken(u, x, t);
    hide Next;
    Join(s, StartsAcross(s, t, x), v, [StartWrite(t, d)], u);
    RunsToIs(s, StartsAcross(s, t, x) + [StartWrite(t, d)], u);
    RunsToIs(u, [TickUp] + [EndCheck], u.(now := u.now + 1));
  }

  lemma Overtaken(u: Sys, x: Tid, t: Tid)
    requires u.list == [x, t] && DeadlineOf(u, t) < DeadlineOf(u, x)
    ensures !Inv(u)
  {
    hide NoDup, DeadlineOf;
    assert DeadlineOf(u, u.list[1]) < DeadlineOf(u, u.list[0]);
  }

  /** Both are started at the same tick for the same time. */
  lemma StartsBoth(s: Sys, t: Tid, x: Tid)
    requires t in s.timers && x in s.timers && x != t && s.list == [] && s.timers[t].init == s.timers[x].init < HALF
    requires !s.timers[t].active && !s.timers[x].active
    ensures var d := s.now + s.timers[t].init;
            && t in Armed(s, t).timers && x in Armed(s, t).timers
            && var u := Armed(Armed(s, t), x);
               && RunsTo(s, StartSteps(s, t) + StartSteps(s, x), u)
               && u.(timers := s.timers) == s.(list := [x, t]) && t in u.timers && x in u.timers
               && u.timers[t].deadline == u.timers[x].deadline == d && u.timers.Keys == s.timers.Keys
  {
    hide RunsTo, Armed;
    var v := Armed(s, t);
    StartRun(s, t);
    OnlyArmed(s, t);
    StartRun(v, x);
    FirstArmed(v, t, x);
    assert StartSteps(v, x) == StartSteps(s, x);
    Join(s, StartSteps(s, t), v, StartSteps(s, x), Armed(v, x));
  }

  lemma OnlyArmed(s: Sys, t: Tid)
    requires t in s.timers && s.list == []
    ensures var u := Armed(s, t);
            u.(timers := s.timers) == s.(list := [t])
            && u.timers == s.timers[t := s.timers[t].(deadline := s.now + s.timers[t].init, active := true)]
  {
    hide Inserted;
    InsertedAt([], 0, t, 0);
    assert Inserted([], 0, t) == [t];
  }

  /** A timer that is due at the same time as the only listed one comes before it. */
  lemma FirstArmed(s: Sys, t: Tid, x: Tid)
    requires t in s.timers && x in s.timers && x != t && s.list == [t]
    requires s.timers[t].deadline == s.now + s.timers[x].init
    ensures var u := Armed(s, x);
            u.(timers := s.timers) == s.(list := [x, t])
            && u.timers == s.timers[x := s.timers[x].(deadline := s.now + s.timers[x].init, active := true)]
  {
    hide Inserted;
    InsertedAt([t], 0, x, 0);
    InsertedAt([t], 0, x, 1);
    assert Inserted([t], 0, x) == [x, t];
  }

  // ---- A timer started in its own timeout function ----

  /** A periodic timer that its timeout function stops and starts again is linked twice by the check. */
  lemma OwnTimeout(s: Sys, t: Tid)
    requires s.phase == Callback(t) && t in s.timers && s.timers[t].active && s.timers[t].periodic
    requires s.timers[t].init < HALF
    ensures var es := StopSteps(t) + (StartSteps(s, t) + [Return]);
            PermittedRun(s, es) && !NoDup(After(s, es).list) && !Inv(After(s, es))
  {
    hide NoDup, RunsTo, PermittedRun, After, Armed;
    StopRun(s, t);
    var v := Cleared(Off(s, t), t);
    StartRun(v, t);
    ArmedList(v, t);
    var w := Armed(v, t);
    var w1 := Cleared(w.(phase := Checking), t);
    ArmedList(w1, t);
    var u := Next(w, Return);
    assert u == Armed(w1, t);
    assert StartSteps(v, t) == StartSteps(s, t);
    One(w, Return);
    hide StopSteps, StartSteps, Next;
    Join(v, StartSteps(s, t), w, [Return], u);
    Join(s, StopSteps(t), v, StartSteps(s, t) + [Return], u);
    RunsToIs(s, StopSteps(t) + (StartSteps(s, t) + [Return]), u);
  }
}

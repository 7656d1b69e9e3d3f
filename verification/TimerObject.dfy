/**
 * rt_timer_list and the timer blocks of timer.c, changed in place with 32-bit times. The ghost field
 * is the system of true times that each method is proved to follow.
 */
module TimerObject {
  import opened Base
  import opened Lists
  import opened Timers

  /** A timer as the kernel keeps it. */
  datatype Block = Block(initTick: u32, timeoutTick: u32, active: bool, periodic: bool)

  class TimerList {
    var tick: u32
    var list: seq<Tid>
    var blocks: map<Tid, Block>
    /** The true time, the true deadlines, where the check stands, and what has fired. */
    ghost var sys: Sys

    ghost predicate Valid()
      reads this
    {
      && Inv(sys) && tick == Wrap(sys.now) && list == sys.list && blocks.Keys == sys.timers.Keys
      && forall t <- blocks ::
           var r := sys.timers[t];
           blocks[t] == Block(r.init, Wrap(r.deadline), r.active, r.periodic)
    }

    constructor ()
      ensures Valid() && sys == Boot()
    {
      tick, list, blocks := 0, [], map[];
      sys := Boot();
    }

    /** rt_timer_init and rt_timer_create. */
    method InitTimer(t: Tid, ticks: u32, periodic: bool)
      requires Valid() && t !in blocks
      modifies this
      ensures Valid() && sys == Next(old(sys), Init(t, ticks, periodic))
    {
      StepInv(sys, Init(t, ticks, periodic));
      hide Inv, Wrap;
      blocks := blocks[t := Block(ticks, 0, false, periodic)];
      sys := Next(sys, Init(t, ticks, periodic));
    }

    lemma Compare(t: Tid, deadline: nat)
      requires Valid() && t in list && sys.now <= deadline < sys.now + HALF
      ensures t in blocks
      ensures Wrap(blocks[t].timeoutTick - Wrap(deadline)) < HALF <==> DeadlineOf(sys, t) >= deadline
    {
      hide NoDup, Sorted, Wrap;
      ModularOrderExactly(sys.timers[t].deadline, deadline);
    }

    /** The search loop of rt_timer_start. */
    method FindPlace(timeout: u32, ghost deadline: nat) returns (k: nat)
      requires Valid() && sys.now <= deadline < sys.now + HALF && timeout == Wrap(deadline)
      ensures k == Place(sys, list, deadline)
    {
      hide Inv, DeadlineOf, Wrap, Place;
      k := 0;
      assert list[0..] == list;
      while k < |list|
        invariant k <= |list| && k + Place(sys, list[k..], deadline) == Place(sys, list, deadline)
      {
        PlaceHead(sys, list[k..], deadline);
        var t := list[k];
        Compare(t, deadline);
        if Wrap(blocks[t].timeoutTick - timeout) < HALF {
          return;
        }
        assert list[k..][1..] == list[k + 1..];
        k := k + 1;
      }
      PlaceHead(sys, [], deadline);
    }

    /** The write of timeout_tick alone. */
    method SetTimeout(t: Tid, timeout: u32, ghost d: nat)
      requires Valid() && timeout == Wrap(d) && t in sys.timers && Inv(Timed(sys, t, d))
      modifies this
      ensures Valid() && sys == Timed(old(sys), t, d) && tick == old(tick)
    {
      hide Inv, Wrap;
      blocks := blocks[t := blocks[t].(timeoutTick := timeout)];
      sys := Timed(sys, t, d);
    }

    /** What the region of rt_timer_start does to list and flag. */
    method Link(t: Tid)
      requires Valid() && t in sys.timers && t !in sys.list && sys.phase != Callback(t)
      requires Ahead(sys, DeadlineOf(sys, t))
      modifies this
      ensures Valid() && sys == Linked(old(sys), t)
    {
      hide Inv, Wrap, Inserted, Place;
      LinkedInv(sys, t);
      var k := FindPlace(blocks[t].timeoutTick, DeadlineOf(sys, t));
      list := Inserted(list, k, t);
      blocks := blocks[t := blocks[t].(active := true)];
      sys := Linked(sys, t);
    }

    /** The step of a start that writes the timeout computed before. */
    method WriteTimeout(t: Tid, timeout: u32, ghost d: nat)
      requires Valid() && timeout == Wrap(d) && Permitted(sys, StartWrite(t, d)) && Undisturbed(sys, StartWrite(t, d))
      modifies this
      ensures Valid() && sys == Next(old(sys), StartWrite(t, d))
    {
      hide Inv, Wrap, Timed;
      TimedExactly(sys, t, d);
      StepInv(sys, StartWrite(t, d));
      TimedFacts(sys, t, d);
      SetTimeout(t, timeout, d);
      sys := Move(sys, Computed(t, d), Written(t));
    }

    /** The step of a start that links the timer for the timeout that has been written. */
    method LinkTimer(t: Tid)
      requires Valid() && Permitted(sys, StartLink(t)) && Undisturbed(sys, StartLink(t))
      modifies this
      ensures Valid() && sys == Next(old(sys), StartLink(t))
    {
      hide Inv, Wrap, Linked;
      StepInv(sys, StartLink(t));
      LinkedFacts(sys, t);
      Link(t);
      sys := Exit(sys, Written(t));
    }

    lemma WrapAdd(x: int, y: int)
      ensures Wrap(Wrap(x) + y) == Wrap(x + y)
    {
    }

    /** rt_timer_start past its test when nothing comes between its steps. */
    method Arm(t: Tid)
      requires Valid() && t in sys.timers && !sys.timers[t].active && InRange(sys.timers[t]) && sys.phase != Callback(t)
      modifies this
      ensures Valid() && sys == Armed(old(sys), t)
    {
      hide Inv, Wrap, Linked;
      ghost var d := sys.now + sys.timers[t].init;
      WrapAdd(sys.now, sys.timers[t].init);
      InactiveOff(sys, t);
      TimedExactly(sys, t, d);
      SetTimeout(t, Wrap(tick + blocks[t].initTick), d);
      Link(t);
    }

    /** rt_timer_start when nothing comes between its steps. */
    method StartTimer(t: Tid) returns (ok: bool)
      requires Valid() && t in sys.timers && InRange(sys.timers[t]) && sys.phase != Callback(t)
      modifies this
      ensures Valid() && ok == !old(sys).timers[t].active
      ensures ok ==> RunsTo(old(sys), StartSteps(old(sys), t), sys)
      ensures !ok ==> sys == old(sys)
    {
      hide Inv, Wrap, Armed, RunsTo;
      if blocks[t].active {
        return false;
      }
      StartRun(sys, t);
      Arm(t);
      ok := true;
    }

    /** The region of rt_timer_stop. */
    method UnlinkTimer(t: Tid)
      requires Valid() && Permitted(sys, StopUnlink(t))
      modifies this
      ensures Valid() && sys == Next(old(sys), StopUnlink(t))
    {
      hide Inv, Wrap;
      StepInv(sys, StopUnlink(t));
      list := Without(list, t);
      sys := Next(sys, StopUnlink(t));
    }

    /** The step of a stop that clears the flag, interrupts being enabled again. */
    method ClearFlag(t: Tid)
      requires Valid() && Permitted(sys, StopClear(t)) && Undisturbed(sys, StopClear(t))
      modifies this
      ensures Valid() && sys == Next(old(sys), StopClear(t))
    {
      hide Inv, Wrap;
      StepInv(sys, StopClear(t));
      blocks := blocks[t := blocks[t].(active := false)];
      sys := Next(sys, StopClear(t));
    }

    /** rt_timer_stop when nothing comes between its steps. */
    method StopTimer(t: Tid) returns (ok: bool)
      requires Valid() && t in sys.timers
      modifies this
      ensures Valid() && ok == old(sys).timers[t].active
      ensures ok ==> RunsTo(old(sys), StopSteps(t), sys)
      ensures !ok ==> sys == old(sys)
    {
      hide Inv, Wrap, RunsTo;
      ok := blocks[t].active;
      if ok {
        StopRun(sys, t);
        StopInv(sys, t);
        list := Without(list, t);
        blocks := blocks[t := blocks[t].(active := false)];
        sys := Cleared(Off(sys, t), t);
      }
    }

    method Tick()
      requires Valid() && Permitted(sys, TickUp)
      modifies this
      ensures Valid() && sys == Next(old(sys), TickUp)
    {
      StepInv(sys, TickUp);
      tick := Wrap(tick + 1);
      sys := Next(sys, TickUp);
    }

    /** The test of the check loop: the head, if it is due, is unlinked. */
    method TakeDue() returns (due: Option<Tid>)
      requires Valid() && sys.phase == Checking
      modifies this
      ensures Valid() && due.Some? == HeadDue(old(sys))
      ensures sys == if due.Some? then Next(old(sys), Fire) else Next(old(sys), EndCheck)
      ensures due.Some? ==> sys.phase == Callback(due.value)
    {
      if list != [] {
        var t := list[0];
        assert t in sys.list;
        ModularOrderExactly(sys.now, sys.timers[t].deadline);
        if Wrap(tick - blocks[t].timeoutTick) < HALF {
          StepInv(sys, Fire);
          list := list[1..];
          sys := Next(sys, Fire);
          return Some(t);
        }
      }
      StepInv(sys, EndCheck);
      sys := Next(sys, EndCheck);
      due := None;
    }

    /** What the check does after the timeout function of t. */
    method AfterCallback(t: Tid)
      requires Valid() && sys.phase == Callback(t) && Permitted(sys, Return)
      requires sys.timers[t].periodic && sys.timers[t].active ==> InRange(sys.timers[t])
      modifies this
      ensures Valid() && sys == Next(old(sys), Return)
    {
      hide Inv, Linked;
      ReturnInv(sys);
      var again := blocks[t].periodic && blocks[t].active;
      blocks := blocks[t := blocks[t].(active := false)];
      sys := Cleared(sys.(phase := Checking), t);
      if again {
        Arm(t);
      }
    }

    /** rt_timer_check when no timeout function touches a timer: all that is due fires, in order. */
    method Check()
      requires Valid() && sys.phase == Checking
      requires forall t <- sys.timers :: sys.timers[t].periodic ==> InRange(sys.timers[t])
      modifies this
      ensures Valid() && sys.phase == Idle && sys.now == old(sys).now
      ensures sys.fired == old(sys).fired + Firings(Due(old(sys)), sys.now)
      ensures forall t <- sys.list :: sys.now < DeadlineOf(sys, t)
    {
      hide Inv, Due, DeadlineOf, Next, HeadDue;
      ghost var done: seq<Tid> := [];
      while true
        invariant Valid() && sys.phase == Checking && sys.now == old(sys).now
        invariant forall t <- sys.timers :: sys.timers[t].periodic ==> InRange(sys.timers[t])
        invariant done + Due(sys) == Due(old(sys))
        invariant sys.fired == old(sys).fired + Firings(done, sys.now)
        decreases |Due(sys)|
      {
        ghost var s := sys;
        var due := TakeDue();
        if due.None? {
          NothingDue(s);
          break;
        }
        CheckStep(s);
        FireAndReturn(s);
        AfterCallback(due.value);
        done := done + [due.value];
        assert Due(s) == [due.value] + Due(sys);
      }
    }
  }
}

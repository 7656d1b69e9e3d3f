/**
 * The hard timers of timer.c. Time is counted without bound here; the kernel's words hold it
 * modulo 2^32. A start tests the flag, reads the tick, writes the timeout and links the timer in an
 * interrupt-disabled region; a stop tests the flag, unlinks the timer in a region and clears the
 * flag after it. Each of these is one step, with those of other calls in between, and so is each
 * round of the loop of rt_timer_check up to the timeout function and after it. Any step may come
 * inside a check as well, although only those of calls made by timeout functions do in the kernel.
 */
module Timers {
  import opened Base
  import opened Lists

  type Tid = nat

  /** RT_TICK_MAX / 2: the longest time is below it. */
  const HALF: int := 0x7FFF_FFFF

  datatype Timer = Timer(init: u32, deadline: nat, active: bool, periodic: bool)

  /** Where a call of rt_timer_start or rt_timer_stop stands, past its test of the flag. */
  datatype Call =
    | Starting(t: Tid)
    | Computed(t: Tid, deadline: nat)
    | Written(t: Tid)
    | Stopping(t: Tid)
    | Unlinked(t: Tid)

  /** Whether rt_timer_check is at work, and whose timeout function is being called. */
  datatype Phase = Idle | Checking | Callback(t: Tid)

  /** Timer t was due at one time and its function was called at another. */
  datatype Firing = Firing(t: Tid, due: nat, at: nat)

  datatype Sys = Sys(now: nat, list: seq<Tid>, timers: map<Tid, Timer>, phase: Phase, fired: seq<Firing>,
                     calls: multiset<Call>)

  datatype Event =
    | Init(t: Tid, ticks: u32, on: bool)
    | StartTest(t: Tid)
    | StartRead(t: Tid)
    | StartWrite(t: Tid, deadline: nat)
    | StartLink(t: Tid)
    | StopTest(t: Tid)
    | StopUnlink(t: Tid)
    | StopClear(t: Tid)
    | SetTime(t: Tid, ticks: u32)
    | SetPeriodic(t: Tid, on: bool)
    | TickUp
    | Fire
    | Return
    | EndCheck

  predicate InRange(r: Timer) {
    1 <= r.init < HALF
  }

  function DeadlineOf(s: Sys, t: Tid): nat {
    if t in s.timers then s.timers[t].deadline else 0
  }

  /** The place before the first timer that is due at the same time or later. */
  function Place(s: Sys, xs: seq<Tid>, d: nat): (k: nat)
    ensures k <= |xs|
    ensures forall i :: 0 <= i < k ==> DeadlineOf(s, xs[i]) < d
    ensures k < |xs| ==> d <= DeadlineOf(s, xs[k])
  {
    if xs == [] || d <= DeadlineOf(s, xs[0]) then 0 else 1 + Place(s, xs[1..], d)
  }

  lemma PlaceHead(s: Sys, xs: seq<Tid>, d: nat)
    ensures Place(s, xs, d) == if xs == [] || d <= DeadlineOf(s, xs[0]) then 0 else 1 + Place(s, xs[1..], d)
  {
  }

  /** The write of timeout_tick. */
  function Timed(s: Sys, t: Tid, d: nat): Sys
    requires t in s.timers
  {
    s.(timers := s.timers[t := s.timers[t].(deadline := d)])
  }

  /** The region of rt_timer_start, for the timeout as it has been written. */
  function Linked(s: Sys, t: Tid): Sys
    requires t in s.timers
  {
    s.(list := Inserted(s.list, Place(s, s.list, DeadlineOf(s, t)), t),
       timers := s.timers[t := s.timers[t].(active := true)])
  }

  /** rt_timer_start past its test of the flag, when nothing comes in between. */
  function Armed(s: Sys, t: Tid): Sys
    requires t in s.timers
  {
    Linked(Timed(s, t, s.now + s.timers[t].init), t)
  }

  function Off(s: Sys, t: Tid): Sys {
    s.(list := Without(s.list, t))
  }

  function Cleared(s: Sys, t: Tid): Sys
    requires t in s.timers
  {
    s.(timers := s.timers[t := s.timers[t].(active := false)])
  }

  function Enter(s: Sys, c: Call): Sys {
    s.(calls := s.calls + multiset{c})
  }

  function Move(s: Sys, was: Call, now: Call): Sys {
    s.(calls := s.calls - multiset{was} + multiset{now})
  }

  function Exit(s: Sys, c: Call): Sys {
    s.(calls := s.calls - multiset{c})
  }

  predicate HeadDue(s: Sys) {
    s.list != [] && DeadlineOf(s, s.list[0]) <= s.now
  }

  /** The head leaves the list and its timeout function is called. */
  function FireHead(s: Sys): Sys
    requires s.list != []
  {
    var t := s.list[0];
    s.(list := s.list[1..], phase := Callback(t), fired := s.fired + [Firing(t, DeadlineOf(s, t), s.now)])
  }

  /** After the timeout function: a periodic timer that is still active starts again. */
  function Returned(s: Sys, t: Tid): Sys
    requires t in s.timers
  {
    var s1 := Cleared(s.(phase := Checking), t);
    if s.timers[t].periodic && s.timers[t].active then Armed(s1, t) else s1
  }

  /** What the kernel asks: a timer that exists, and the assertion on init_tick where it is read. */
  predicate Permitted(s: Sys, e: Event) {
    match e
    case Init(t, _, _) => t !in s.timers
    case StartTest(t) => t in s.timers
    case StartRead(t) => t in s.timers && Starting(t) in s.calls && s.timers[t].init < HALF
    case StartWrite(t, d) => t in s.timers && Computed(t, d) in s.calls
    case StartLink(t) => t in s.timers && Written(t) in s.calls
    case StopTest(t) => t in s.timers
    case StopUnlink(t) => t in s.timers && Stopping(t) in s.calls
    case StopClear(t) => t in s.timers && Unlinked(t) in s.calls
    case SetTime(t, _) => t in s.timers
    case SetPeriodic(t, _) => t in s.timers
    case TickUp => s.phase == Idle
    case Fire => s.phase == Checking && HeadDue(s)
    case Return =>
      && s.phase.Callback? && s.phase.t in s.timers
      && (s.timers[s.phase.t].periodic && s.timers[s.phase.t].active ==> s.timers[s.phase.t].init < HALF)
    case EndCheck => s.phase == Checking && !HeadDue(s)
  }

  function Next(s: Sys, e: Event): Sys
    requires Permitted(s, e)
  {
    match e
    case Init(t, ticks, on) => s.(timers := s.timers[t := Timer(ticks, 0, false, on)])
    case StartTest(t) => if s.timers[t].active then s else Enter(s, Starting(t))
    case StartRead(t) => Move(s, Starting(t), Computed(t, s.now + s.timers[t].init))
    case StartWrite(t, d) => Move(Timed(s, t, d), Computed(t, d), Written(t))
    case StartLink(t) => Exit(Linked(s, t), Written(t))
    case StopTest(t) => if s.timers[t].active then Enter(s, Stopping(t)) else s
    case StopUnlink(t) => Move(Off(s, t), Stopping(t), Unlinked(t))
    case StopClear(t) => Exit(Cleared(s, t), Unlinked(t))
    case SetTime(t, ticks) => s.(timers := s.timers[t := s.timers[t].(init := ticks)])
    case SetPeriodic(t, on) => s.(timers := s.timers[t := s.timers[t].(periodic := on)])
    case TickUp => s.(now := s.now + 1, phase := Checking)
    case Fire => FireHead(s)
    case Return => Returned(s, s.phase.t)
    case EndCheck => s.(phase := Idle)
  }

  // ---- Invariant ----

  ghost predicate Sorted(s: Sys, xs: seq<Tid>) {
    forall i, j :: 0 <= i < j < |xs| ==> DeadlineOf(s, xs[i]) <= DeadlineOf(s, xs[j])
  }

  /** A time that has not passed, outside a check has not even come, and is within half the range of the tick. */
  predicate Ahead(s: Sys, d: nat) {
    s.now + (if s.phase == Idle then 1 else 0) <= d < s.now + HALF
  }

  ghost predicate InWindow(s: Sys) {
    forall t <- s.list :: Ahead(s, DeadlineOf(s, t))
  }

  /**
   * The timers of the list are active and listed once; the others are inactive, but for one whose
   * timeout function is being called or that a stop has unlinked before it clears the flag.
   */
  ghost predicate Listed(s: Sys) {
    && NoDup(s.list)
    && (forall t <- s.list :: t in s.timers && s.timers[t].active && s.phase != Callback(t))
    && forall t <- s.timers ::
         s.timers[t].active ==> t in s.list || s.phase == Callback(t) || Unlinked(t) in s.calls
  }

  /** Every call of a timeout function was made at the very tick it was due. */
  ghost predicate OnTime(s: Sys) {
    forall f <- s.fired :: f.due == f.at <= s.now
  }

  ghost predicate Inv(s: Sys) {
    Listed(s) && Sorted(s, s.list) && InWindow(s) && OnTime(s)
  }

  // ---- Each step ----

  /** The neighbours of a listed timer allow the deadline d. */
  ghost predicate InPlace(s: Sys, t: Tid, d: nat) {
    forall i :: 0 <= i < |s.list| && s.list[i] == t ==>
                  && (i > 0 ==> DeadlineOf(s, s.list[i - 1]) <= d)
                  && (i + 1 < |s.list| ==> d <= DeadlineOf(s, s.list[i + 1]))
  }

  /**
   * What has to hold when a step of a call runs that has tested the flag before: a timer is linked
   * while it is in no list, outside its own timeout function and ahead of its time; its timeout is
   * rewritten in the list only where its neighbours allow it; its flag is cleared only off the list.
   */
  ghost predicate Undisturbed(s: Sys, e: Event) {
    match e
    case StartWrite(t, d) => t in s.list ==> Ahead(s, d) && InPlace(s, t, d)
    case StartLink(t) => t !in s.list && s.phase != Callback(t) && Ahead(s, DeadlineOf(s, t))
    case StopClear(t) => t !in s.list
    case _ => true
  }

  lemma TimedFacts(s: Sys, t: Tid, d: nat)
    requires t in s.timers
    ensures var u := Timed(s, t, d);
            && u.timers.Keys == s.timers.Keys && u.(timers := s.timers) == s
            && (forall x :: DeadlineOf(u, x) == if x == t then d else DeadlineOf(s, x))
            && forall x <- s.timers :: u.timers[x].active == s.timers[x].active
  {
  }

  lemma TimedExactly(s: Sys, t: Tid, d: nat)
    requires Inv(s) && t in s.timers
    ensures Inv(Timed(s, t, d)) <==> (t in s.list ==> Ahead(s, d) && InPlace(s, t, d))
  {
    hide NoDup, DeadlineOf, Timed, Sorted;
    var u := Timed(s, t, d);
    TimedFacts(s, t, d);
    TimedSorted(s, t, d);
    if t in s.list {
      assert Ahead(u, DeadlineOf(u, t)) <==> Ahead(s, d);
    }
  }

  /** A list of different timers stays sorted exactly if the neighbours of the changed one allow it. */
  lemma TimedSorted(s: Sys, t: Tid, d: nat)
    requires t in s.timers && NoDup(s.list) && Sorted(s, s.list)
    ensures Sorted(Timed(s, t, d), s.list) <==> InPlace(s, t, d)
  {
    hide DeadlineOf, Timed;
    var (u, xs) := (Timed(s, t, d), s.list);
    TimedFacts(s, t, d);
    if InPlace(s, t, d) {
      forall i, j | 0 <= i < j < |xs| ensures DeadlineOf(u, xs[i]) <= DeadlineOf(u, xs[j]) {
        if xs[i] == t {
          assert d <= DeadlineOf(s, xs[i + 1]) <= DeadlineOf(s, xs[j]);
        } else if xs[j] == t {
          assert DeadlineOf(s, xs[i]) <= DeadlineOf(s, xs[j - 1]) <= d;
        }
      }
    }
    if Sorted(u, xs) {
      forall i | 0 <= i < |xs| && xs[i] == t
        ensures i > 0 ==> DeadlineOf(s, xs[i - 1]) <= d
        ensures i + 1 < |xs| ==> d <= DeadlineOf(s, xs[i + 1])
      {
        if i > 0 { assert DeadlineOf(u, xs[i - 1]) <= DeadlineOf(u, xs[i]); }
        if i + 1 < |xs| { assert DeadlineOf(u, xs[i]) <= DeadlineOf(u, xs[i + 1]); }
      }
    }
  }

  lemma LinkedFacts(s: Sys, t: Tid)
    requires t in s.timers
    ensures var u := Linked(s, t);
            && u.timers.Keys == s.timers.Keys && u.(timers := s.timers, list := s.list) == s
            && u.list == Inserted(s.list, Place(s, s.list, DeadlineOf(s, t)), t)
            && (forall x :: DeadlineOf(u, x) == DeadlineOf(s, x))
            && forall x <- s.timers :: u.timers[x].active == (x == t || s.timers[x].active)
  {
  }

  lemma LinkedInv(s: Sys, t: Tid)
    requires Inv(s) && t in s.timers && t !in s.list && Ahead(s, DeadlineOf(s, t)) && s.phase != Callback(t)
    ensures Inv(Linked(s, t))
  {
    hide NoDup, Sorted, Place, Inserted, Linked, DeadlineOf;
    LinkedFacts(s, t);
    InsertedMembers(s.list, Place(s, s.list, DeadlineOf(s, t)), t);
    LinkedSorted(s, t);
  }

  lemma LinkedSorted(s: Sys, t: Tid)
    requires Sorted(s, s.list) && t in s.timers
    ensures Sorted(Linked(s, t), Linked(s, t).list)
  {
    hide DeadlineOf, Place, Inserted, Linked;
    var (u, d) := (Linked(s, t), DeadlineOf(s, t));
    var k := Place(s, s.list, d);
    LinkedFacts(s, t);
    forall i, j | 0 <= i < j < |u.list|
      ensures DeadlineOf(u, u.list[i]) <= DeadlineOf(u, u.list[j])
    {
      InsertedAt(s.list, k, t, i);
      InsertedAt(s.list, k, t, j);
      if i <= k < j {
        assert d <= DeadlineOf(s, s.list[k]) <= DeadlineOf(s, s.list[j - 1]);
      }
    }
  }

  /** The region of a start keeps the invariant exactly if nothing has happened to the timer that matters. */
  lemma LinkedExactly(s: Sys, t: Tid)
    requires Inv(s) && t in s.timers
    ensures Inv(Linked(s, t)) <==> t !in s.list && s.phase != Callback(t) && Ahead(s, DeadlineOf(s, t))
  {
    hide NoDup, Sorted, Place, Inserted, Linked, DeadlineOf;
    var k := Place(s, s.list, DeadlineOf(s, t));
    LinkedFacts(s, t);
    InsertedAt(s.list, k, t, k);
    InsertedMembers(s.list, k, t);
    if t in s.list {
      LinkedTwice(s.list, k, t);
    } else if s.phase != Callback(t) && Ahead(s, DeadlineOf(s, t)) {
      LinkedInv(s, t);
    } else {
      assert t in Linked(s, t).list;
    }
  }

  lemma LinkedTwice(xs: seq<Tid>, k: nat, t: Tid)
    requires t in xs && k <= |xs|
    ensures !NoDup(Inserted(xs, k, t))
  {
    var i :| 0 <= i < |xs| && xs[i] == t;
    InsertedAt(xs, k, t, k);
    InsertedAt(xs, k, t, if i < k then i else i + 1);
  }

  /** The region of a stop leaves the timer active: the call that is pending accounts for it. */
  lemma UnlinkInv(s: Sys, t: Tid)
    requires Inv(s) && t in s.timers
    ensures Inv(Move(Off(s, t), Stopping(t), Unlinked(t)))
  {
    hide NoDup, DeadlineOf;
    WithoutMembers(s.list, t);
    WithoutNoDup(s.list, t);
    var u := Move(Off(s, t), Stopping(t), Unlinked(t));
    assert forall x :: DeadlineOf(u, x) == DeadlineOf(s, x) by { DeadlinesKept(s, u); }
    forall i, j | 0 <= i < j < |u.list|
      ensures DeadlineOf(u, u.list[i]) <= DeadlineOf(u, u.list[j])
    {
      OriginMonotone(s.list, t, i, j);
    }
    assert forall x :: Unlinked(x) in s.calls ==> Unlinked(x) in u.calls;
    hide Without;
  }

  /** The flag is cleared rightly exactly if no start has linked the timer since. */
  lemma ClearedExactly(s: Sys, t: Tid)
    requires Inv(s) && t in s.timers
    ensures Inv(Cleared(s, t)) <==> t !in s.list
    ensures Inv(Exit(Cleared(s, t), Unlinked(t))) <==> t !in s.list
  {
    hide NoDup;
    var u := Exit(Cleared(s, t), Unlinked(t));
    assert forall x :: x != t && Unlinked(x) in s.calls ==> Unlinked(x) in u.calls;
    assert forall x :: DeadlineOf(u, x) == DeadlineOf(s, x);
    hide DeadlineOf;
  }

  /** Calls that come and go without touching a flag write that is due. */
  lemma CallsInv(s: Sys, calls: multiset<Call>)
    requires forall t :: Unlinked(t) in s.calls <==> Unlinked(t) in calls
    ensures Inv(s.(calls := calls)) <==> Inv(s)
  {
    hide NoDup;
    DeadlinesKept(s, s.(calls := calls));
    hide DeadlineOf;
  }

  /** A head that is not due means that nothing is due. */
  lemma NothingElseDue(s: Sys)
    requires Inv(s) && !HeadDue(s)
    ensures forall t <- s.list :: s.now < DeadlineOf(s, t)
  {
    forall t <- s.list ensures s.now < DeadlineOf(s, t) {
      var i :| 0 <= i < |s.list| && s.list[i] == t;
      assert DeadlineOf(s, s.list[0]) <= DeadlineOf(s, s.list[i]);
    }
  }

  lemma FireInv(s: Sys)
    requires Inv(s) && s.phase == Checking && HeadDue(s)
    ensures Inv(FireHead(s))
  {
    PopNoDup(s.list);
    FireSorted(s);
    hide NoDup, Sorted;
  }

  lemma FireSorted(s: Sys)
    requires Sorted(s, s.list) && s.list != []
    ensures Sorted(FireHead(s), s.list[1..])
  {
    hide DeadlineOf;
    assert forall x :: DeadlineOf(FireHead(s), x) == DeadlineOf(s, x) by { DeadlinesKept(s, FireHead(s)); }
  }

  lemma DeadlinesKept(s: Sys, u: Sys)
    requires u.timers == s.timers
    ensures forall x :: DeadlineOf(u, x) == DeadlineOf(s, x)
  {
  }

  /** The timer whose function has returned is off the list; it is armed again from there. */
  lemma ReturnInv(s: Sys)
    requires Inv(s) && Permitted(s, Return)
    ensures var t := s.phase.t;
            var s1 := Cleared(s.(phase := Checking), t);
            && Inv(s1) && t !in s1.list
            && (s.timers[t].periodic && s.timers[t].active ==> Inv(Armed(s1, t)))
  {
    var t := s.phase.t;
    var s1 := Cleared(s.(phase := Checking), t);
    CallbackOver(s);
    hide Inv, Cleared;
    if s.timers[t].periodic && s.timers[t].active {
      ArmedInv(s1, t);
    }
  }

  lemma CallbackOver(s: Sys)
    requires Inv(s) && s.phase.Callback? && s.phase.t in s.timers
    ensures Inv(Cleared(s.(phase := Checking), s.phase.t)) && s.phase.t !in s.list
  {
    hide NoDup;
    var u := Cleared(s.(phase := Checking), s.phase.t);
    assert forall x :: DeadlineOf(u, x) == DeadlineOf(s, x);
    hide DeadlineOf;
  }

  lemma ArmedInv(s: Sys, t: Tid)
    requires Inv(s) && t in s.timers && t !in s.list && s.phase != Callback(t) && Ahead(s, s.now + s.timers[t].init)
    ensures Inv(Armed(s, t))
  {
    hide Inv, Timed, Linked;
    var d := s.now + s.timers[t].init;
    TimedExactly(s, t, d);
    TimedFacts(s, t, d);
    LinkedInv(Timed(s, t, d), t);
  }

  /** Init and control of a timer leave flags, deadlines and the list alone. */
  lemma RecordInv(s: Sys, t: Tid, r: Timer)
    requires Inv(s)
    requires t in s.timers ==> r.active == s.timers[t].active && r.deadline == s.timers[t].deadline
    requires t !in s.timers ==> !r.active
    ensures Inv(s.(timers := s.timers[t := r]))
  {
    hide NoDup;
    var u := s.(timers := s.timers[t := r]);
    assert forall x <- s.timers :: DeadlineOf(u, x) == DeadlineOf(s, x);
    hide DeadlineOf;
  }

  lemma WriteStep(s: Sys, t: Tid, d: nat)
    requires Inv(s) && Permitted(s, StartWrite(t, d))
    ensures Inv(Next(s, StartWrite(t, d))) <==> Undisturbed(s, StartWrite(t, d))
  {
    hide Inv, InPlace, Timed;
    TimedExactly(s, t, d);
    TimedFacts(s, t, d);
    CallsInv(Timed(s, t, d), Next(s, StartWrite(t, d)).calls);
  }

  lemma LinkStep(s: Sys, t: Tid)
    requires Inv(s) && Permitted(s, StartLink(t))
    ensures Inv(Next(s, StartLink(t))) <==> Undisturbed(s, StartLink(t))
  {
    hide Inv, Linked;
    LinkedExactly(s, t);
    LinkedFacts(s, t);
    CallsInv(Linked(s, t), Next(s, StartLink(t)).calls);
  }

  /** Tests, and the reading of the tick, change nothing but the calls. */
  lemma CallStep(s: Sys, e: Event)
    requires Inv(s) && Permitted(s, e) && (e.StartTest? || e.StartRead? || e.StopTest?)
    ensures Inv(Next(s, e))
  {
    hide Inv;
    CallsInv(s, Next(s, e).calls);
  }

  /** Every step of every call keeps the invariant exactly if it is undisturbed. */
  lemma StepInv(s: Sys, e: Event)
    requires Inv(s) && Permitted(s, e)
    ensures Inv(Next(s, e)) <==> Undisturbed(s, e)
  {
    match e
    case Init(t, ticks, on) => RecordInv(s, t, Timer(ticks, 0, false, on));
    case SetTime(t, ticks) => RecordInv(s, t, s.timers[t].(init := ticks));
    case SetPeriodic(t, on) => RecordInv(s, t, s.timers[t].(periodic := on));
    case StartWrite(t, d) => WriteStep(s, t, d);
    case StartLink(t) => LinkStep(s, t);
    case StopUnlink(t) => UnlinkInv(s, t);
    case StopClear(t) => ClearedExactly(s, t);
    case TickUp => TickInv(s);
    case Fire => FireInv(s);
    case Return => ReturnStep(s);
    case EndCheck => EndInv(s);
    case _ => CallStep(s, e);
  }

  lemma ReturnStep(s: Sys)
    requires Inv(s) && Permitted(s, Return)
    ensures Inv(Next(s, Return))
  {
    hide Inv, Armed, Cleared;
    ReturnInv(s);
  }

  lemma TickInv(s: Sys)
    requires Inv(s) && s.phase == Idle
    ensures Inv(Next(s, TickUp))
  {
    hide NoDup;
  }

  lemma EndInv(s: Sys)
    requires Inv(s) && Permitted(s, EndCheck)
    ensures Inv(Next(s, EndCheck))
  {
    NothingElseDue(s);
    hide NoDup;
  }

  // ---- Runs ----

  ghost predicate PermittedRun(s: Sys, es: seq<Event>)
    decreases |es|
  {
    es == [] || (Permitted(s, es[0]) && PermittedRun(Next(s, es[0]), es[1..]))
  }

  ghost function After(s: Sys, es: seq<Event>): Sys
    requires PermittedRun(s, es)
    decreases |es|
  {
    if es == [] then s else After(Next(s, es[0]), es[1..])
  }

  ghost predicate UndisturbedRun(s: Sys, es: seq<Event>)
    requires PermittedRun(s, es)
    decreases |es|
  {
    es == [] || (Undisturbed(s, es[0]) && UndisturbedRun(Next(s, es[0]), es[1..]))
  }

  /** The invariant holds in every state of the run. */
  ghost predicate AlwaysInv(s: Sys, es: seq<Event>)
    requires PermittedRun(s, es)
    decreases |es|
  {
    Inv(s) && (es == [] || AlwaysInv(Next(s, es[0]), es[1..]))
  }

  /** Over any run of all the calls the list is in order throughout exactly if every step is undisturbed. */
  lemma {:induction false} RunInv(s: Sys, es: seq<Event>)
    requires Inv(s) && PermittedRun(s, es)
    ensures AlwaysInv(s, es) <==> UndisturbedRun(s, es)
    ensures UndisturbedRun(s, es) ==> Inv(After(s, es))
    decreases |es|
  {
    hide Inv, Undisturbed, Permitted;
    if es != [] {
      StepInv(s, es[0]);
      if Undisturbed(s, es[0]) {
        RunInv(Next(s, es[0]), es[1..]);
      }
    }
  }

  ghost predicate RunsTo(s: Sys, es: seq<Event>, u: Sys) {
    PermittedRun(s, es) && After(s, es) == u
  }

  /** One more event in front of a run. */
  lemma OneMore(s: Sys, e: Event, es: seq<Event>, u: Sys)
    requires Permitted(s, e) && RunsTo(Next(s, e), es, u)
    ensures RunsTo(s, [e] + es, u)
  {
    hide Next, Permitted;
    assert ([e] + es)[1..] == es;
  }

  lemma Stay(s: Sys)
    ensures RunsTo(s, [], s)
  {
  }

  lemma {:induction false} RunAppend(s: Sys, a: seq<Event>, b: seq<Event>)
    ensures PermittedRun(s, a + b) <==> PermittedRun(s, a) && PermittedRun(After(s, a), b)
    ensures PermittedRun(s, a + b) ==>
              && After(s, a + b) == After(After(s, a), b)
              && (UndisturbedRun(s, a + b) <==> UndisturbedRun(s, a) && UndisturbedRun(After(s, a), b))
    decreases |a|
  {
    hide Next, Undisturbed, Permitted;
    if a == [] {
      assert a + b == b;
    } else {
      assert (a + b)[0] == a[0] && (a + b)[1..] == a[1..] + b;
      if Permitted(s, a[0]) {
        RunAppend(Next(s, a[0]), a[1..], b);
      }
    }
  }

  lemma RunsToIs(s: Sys, es: seq<Event>, u: Sys)
    requires RunsTo(s, es, u)
    ensures PermittedRun(s, es) && After(s, es) == u
  {
  }

  lemma Join(s: Sys, a: seq<Event>, u: Sys, b: seq<Event>, v: Sys)
    requires RunsTo(s, a, u) && RunsTo(u, b, v)
    ensures RunsTo(s, a + b, v)
  {
    hide PermittedRun, After;
    RunAppend(s, a, b);
  }

  lemma One(s: Sys, e: Event)
    requires Permitted(s, e)
    ensures RunsTo(s, [e], Next(s, e))
  {
    hide Permitted, Next;
    assert [e] + [] == [e];
    Stay(Next(s, e));
    OneMore(s, e, [], Next(s, e));
  }

  /** Before any timer exists. */
  ghost function Boot(): (s: Sys)
    ensures Inv(s)
  {
    Sys(0, [], map[], Idle, [], multiset{})
  }

  // ---- Whole calls ----

  /** A start past its test and its reading of the tick. */
  function StartBegun(t: Tid): seq<Event> {
    [StartTest(t)] + [StartRead(t)]
  }

  lemma BegunRun(s: Sys, t: Tid)
    requires t in s.timers && !s.timers[t].active && s.timers[t].init < HALF
    ensures RunsTo(s, StartBegun(t), Enter(s, Computed(t, s.now + s.timers[t].init)))
  {
    hide RunsTo;
    var s1 := Enter(s, Starting(t));
    assert Next(s1, StartRead(t)).calls == s.calls + multiset{Computed(t, s.now + s.timers[t].init)};
    One(s, StartTest(t));
    One(s1, StartRead(t));
    Join(s, [StartTest(t)], s1, [StartRead(t)], Next(s1, StartRead(t)));
  }

  /** What is left of the start behind its reading of the tick. */
  function StartRest(t: Tid, d: nat): seq<Event> {
    [StartWrite(t, d)] + [StartLink(t)]
  }

  function RestDone(s: Sys, t: Tid, d: nat): Sys
    requires t in s.timers
  {
    Exit(Linked(Move(Timed(s, t, d), Computed(t, d), Written(t)), t), Written(t))
  }

  lemma RestRun(s: Sys, t: Tid, d: nat)
    requires t in s.timers && Computed(t, d) in s.calls
    ensures RunsTo(s, StartRest(t, d), RestDone(s, t, d))
    ensures t in s.list ==> !NoDup(RestDone(s, t, d).list)
  {
    hide RunsTo, Place, Inserted, NoDup;
    var s1 := Move(Timed(s, t, d), Computed(t, d), Written(t));
    assert Permitted(s, StartWrite(t, d)) && Next(s, StartWrite(t, d)) == s1;
    assert Permitted(s1, StartLink(t)) && Next(s1, StartLink(t)) == RestDone(s, t, d);
    if t in s.list {
      LinkedTwice(s.list, Place(s1, s.list, d), t);
    }
    hide Permitted, Next, Move, RestDone, Timed;
    One(s, StartWrite(t, d));
    One(s1, StartLink(t));
    Join(s, [StartWrite(t, d)], s1, [StartLink(t)], RestDone(s, t, d));
  }

  /** A start that nothing interrupts. */
  function StartSteps(s: Sys, t: Tid): seq<Event>
    requires t in s.timers
  {
    StartBegun(t) + StartRest(t, s.now + s.timers[t].init)
  }

  lemma StartRun(s: Sys, t: Tid)
    requires t in s.timers && !s.timers[t].active && s.timers[t].init < HALF
    ensures RunsTo(s, StartSteps(s, t), Armed(s, t))
  {
    hide RunsTo;
    var d := s.now + s.timers[t].init;
    var v := Enter(s, Computed(t, d));
    BegunRun(s, t);
    RestRun(v, t, d);
    StartEnds(s, t, v);
    hide StartBegun, StartRest, Armed, RestDone;
    Join(s, StartBegun(t), v, StartRest(t, d), Armed(s, t));
  }

  lemma StartEnds(s: Sys, t: Tid, v: Sys)
    requires t in s.timers && v == Enter(s, Computed(t, s.now + s.timers[t].init))
    ensures RestDone(v, t, s.now + s.timers[t].init) == Armed(s, t)
  {
    hide Linked;
    var d := s.now + s.timers[t].init;
    var w := Move(Timed(v, t, d), Computed(t, d), Written(t));
    assert w.calls - multiset{Written(t)} == s.calls;
    LinkedCalls(Timed(s, t, d), w.calls, t);
  }

  lemma LinkedCalls(s: Sys, calls: multiset<Call>, t: Tid)
    requires t in s.timers
    ensures Linked(s.(calls := calls), t) == Linked(s, t).(calls := calls)
    ensures Linked(s, t).calls == s.calls
  {
    hide Place, Inserted;
    PlaceCalls(s.(calls := calls), s, s.list, s.timers[t].deadline);
  }

  lemma {:induction false} PlaceCalls(s: Sys, u: Sys, xs: seq<Tid>, d: nat)
    requires u.timers == s.timers
    ensures Place(s, xs, d) == Place(u, xs, d)
  {
    if xs != [] { PlaceCalls(s, u, xs[1..], d); }
  }

  lemma InactiveOff(s: Sys, t: Tid)
    requires Inv(s) && t in s.timers && !s.timers[t].active
    ensures t !in s.list
  {
  }

  lemma StopInv(s: Sys, t: Tid)
    requires Inv(s) && t in s.timers
    ensures Inv(Cleared(Off(s, t), t))
  {
    hide Inv;
    WithoutMembers(s.list, t);
    UnlinkInv(s, t);
    var u := Move(Off(s, t), Stopping(t), Unlinked(t));
    ClearedExactly(u, t);
    CallsInv(Exit(Cleared(u, t), Unlinked(t)), s.calls);
  }

  /** A stop that nothing interrupts. */
  function StopSteps(t: Tid): seq<Event> {
    [StopTest(t)] + ([StopUnlink(t)] + [StopClear(t)])
  }

  lemma StopRun(s: Sys, t: Tid)
    requires t in s.timers && s.timers[t].active
    ensures RunsTo(s, StopSteps(t), Cleared(Off(s, t), t))
  {
    hide RunsTo, Without, Permitted, Next, Enter, Move;
    StopForms(s, t);
    var u := Cleared(Off(s, t), t);
    var s1 := Enter(s, Stopping(t));
    var s2 := Move(Off(s1, t), Stopping(t), Unlinked(t));
    One(s, StopTest(t));
    One(s1, StopUnlink(t));
    One(s2, StopClear(t));
    Join(s1, [StopUnlink(t)], s2, [StopClear(t)], u);
    Join(s, [StopTest(t)], s1, [StopUnlink(t)] + [StopClear(t)], u);
  }

  /** The three steps one by one. */
  lemma StopForms(s: Sys, t: Tid)
    requires t in s.timers && s.timers[t].active
    ensures var s1 := Enter(s, Stopping(t));
            var s2 := Move(Off(s1, t), Stopping(t), Unlinked(t));
            && Permitted(s, StopTest(t)) && Next(s, StopTest(t)) == s1
            && Permitted(s1, StopUnlink(t)) && Next(s1, StopUnlink(t)) == s2
            && Permitted(s2, StopClear(t)) && Next(s2, StopClear(t)) == Cleared(Off(s, t), t)
  {
    hide Without;
    var s2 := Move(Off(Enter(s, Stopping(t)), t), Stopping(t), Unlinked(t));
    assert s2.calls - multiset{Unlinked(t)} == s.calls;
  }

  // ---- When a timer fires ----

  /** From the n-th firing on, timer t fired, and the first time it did was at d. */
  ghost predicate FirstFiredAt(s: Sys, n: nat, t: Tid, d: nat) {
    exists i :: n <= i < |s.fired| && s.fired[i] == Firing(t, d, d) && forall j :: n <= j < i ==> s.fired[j].t != t
  }

  ghost predicate NotFiredSince(s: Sys, n: nat, t: Tid) {
    n <= |s.fired| && forall j :: n <= j < |s.fired| ==> s.fired[j].t != t
  }

  /** Timer t is armed for time d, or has fired then. */
  ghost predicate Promised(s: Sys, n: nat, t: Tid, d: nat) {
    || (t in s.list && DeadlineOf(s, t) == d && NotFiredSince(s, n, t))
    || FirstFiredAt(s, n, t, d)
  }

  /** A step of another start that rewrites the timeout of t. */
  predicate Rewrites(e: Event, t: Tid) {
    e.StartWrite? && e.t == t
  }

  lemma StepPromise(s: Sys, e: Event, n: nat, t: Tid, d: nat)
    requires Inv(s) && Permitted(s, e) && Undisturbed(s, e) && e != StopUnlink(t) && !Rewrites(e, t)
    requires Promised(s, n, t, d)
    ensures Promised(Next(s, e), n, t, d)
  {
    hide NoDup, Sorted;
    var u := Next(s, e);
    if FirstFiredAt(s, n, t, d) {
      FiredGrows(s, e);
    } else if e.Fire? {
      FirePromise(s, n, t, d);
    } else {
      hide FirstFiredAt;
      StaysArmed(s, e, t);
    }
  }

  lemma FiredGrows(s: Sys, e: Event)
    requires Permitted(s, e)
    ensures s.fired <= Next(s, e).fired
  {
    hide Inserted, Place, Without;
  }

  /** Only the check takes a timer off the list that nobody stops, and its deadline stays unless it is rewritten. */
  lemma StaysArmed(s: Sys, e: Event, t: Tid)
    requires Inv(s) && Permitted(s, e) && Undisturbed(s, e) && t in s.list
    requires e != StopUnlink(t) && !Rewrites(e, t) && !e.Fire?
    ensures t in Next(s, e).list && DeadlineOf(Next(s, e), t) == DeadlineOf(s, t) && Next(s, e).fired == s.fired
  {
    hide NoDup, Sorted, InWindow, OnTime, Place, Inserted, InPlace, Linked, Returned, Without;
    match e
    case StartLink(x) =>
      LinkedFacts(s, x);
      InsertedMembers(s.list, Place(s, s.list, DeadlineOf(s, x)), x);
    case StopUnlink(x) => WithoutMembers(s.list, x);
    case Return => ReturnFacts(s, t);
    case _ => {}
  }

  lemma FirePromise(s: Sys, n: nat, t: Tid, d: nat)
    requires Inv(s) && s.phase == Checking && HeadDue(s)
    requires t in s.list && DeadlineOf(s, t) == d && NotFiredSince(s, n, t)
    ensures Promised(FireHead(s), n, t, d)
  {
    hide Sorted;
    var u := FireHead(s);
    PopNoDup(s.list);
    hide NoDup;
    DeadlinesKept(s, u);
    if t == s.list[0] {
      assert u.fired[|s.fired|] == Firing(t, d, d);
    }
  }

  lemma {:induction false} RunPromise(s: Sys, es: seq<Event>, n: nat, t: Tid, d: nat)
    requires Inv(s) && PermittedRun(s, es) && UndisturbedRun(s, es) && Promised(s, n, t, d)
    requires StopUnlink(t) !in es && forall e <- es :: !Rewrites(e, t)
    ensures Promised(After(s, es), n, t, d)
    decreases |es|
  {
    hide Promised, Inv, Permitted, Undisturbed;
    if es != [] {
      StepInv(s, es[0]);
      StepPromise(s, es[0], n, t, d);
      RunPromise(Next(s, es[0]), es[1..], n, t, d);
    }
  }

  /** Timer t is off the list with its timeout written, and has not fired. */
  ghost predicate Waits(s: Sys, n: nat, t: Tid, d: nat) {
    t in s.timers && t !in s.list && s.phase != Callback(t) && DeadlineOf(s, t) == d && |s.fired| >= n
    && NotFiredSince(s, n, t)
  }

  lemma StepWaits(s: Sys, e: Event, n: nat, t: Tid, d: nat)
    requires Permitted(s, e) && Waits(s, n, t, d) && e != StartLink(t) && !Rewrites(e, t)
    ensures Waits(Next(s, e), n, t, d)
  {
    hide Place, Inserted, Without, Returned, Linked, FireHead;
    match e
    case StartLink(x) => LinkWaits(s, x, n, t, d);
    case StopUnlink(x) => WithoutMembers(s.list, x);
    case Return => ReturnFacts(s, t);
    case Fire => FireWaits(s, n, t, d);
    case _ => RecordWaits(s, e, n, t, d);
  }

  lemma LinkWaits(s: Sys, x: Tid, n: nat, t: Tid, d: nat)
    requires Permitted(s, StartLink(x)) && Waits(s, n, t, d) && x != t
    ensures Waits(Next(s, StartLink(x)), n, t, d)
  {
    hide Place, Inserted, Linked;
    LinkedFacts(s, x);
    InsertedMembers(s.list, Place(s, s.list, DeadlineOf(s, x)), x);
  }

  lemma FireWaits(s: Sys, n: nat, t: Tid, d: nat)
    requires HeadDue(s) && Waits(s, n, t, d)
    ensures Waits(FireHead(s), n, t, d)
  {
  }

  lemma RecordFacts(s: Sys, e: Event, t: Tid)
    requires Permitted(s, e) && t in s.timers && !Rewrites(e, t)
    requires !e.StartLink? && !e.StopUnlink? && !e.Return? && !e.Fire?
    ensures var u := Next(s, e);
            && u.list == s.list && u.fired == s.fired && (u.phase.Callback? ==> u.phase == s.phase)
            && t in u.timers && u.timers[t].deadline == s.timers[t].deadline
  {
    hide Place, Inserted, Without, Linked, Returned, FireHead;
  }

  lemma RecordWaits(s: Sys, e: Event, n: nat, t: Tid, d: nat)
    requires Permitted(s, e) && Waits(s, n, t, d) && !Rewrites(e, t)
    requires !e.StartLink? && !e.StopUnlink? && !e.Return? && !e.Fire?
    ensures Waits(Next(s, e), n, t, d)
  {
    hide Next;
    RecordFacts(s, e, t);
  }

  /** The end of a timeout function lists no timer but its own. */
  lemma ReturnFacts(s: Sys, t: Tid)
    requires s.phase.Callback? && s.phase.t in s.timers && s.phase.t != t
    ensures var u := Returned(s, s.phase.t);
            && (t in u.list <==> t in s.list) && u.phase == Checking && u.fired == s.fired
            && DeadlineOf(u, t) == DeadlineOf(s, t) && u.timers.Keys == s.timers.Keys
  {
    hide Place, Inserted, Linked, Timed;
    var x := s.phase.t;
    var s1 := Cleared(s.(phase := Checking), x);
    var s2 := Timed(s1, x, s.now + s.timers[x].init);
    TimedFacts(s1, x, s.now + s.timers[x].init);
    LinkedFacts(s2, x);
    InsertedMembers(s.list, Place(s2, s.list, DeadlineOf(s2, x)), x);
  }

  lemma {:induction false} RunWaits(s: Sys, es: seq<Event>, n: nat, t: Tid, d: nat)
    requires Inv(s) && PermittedRun(s, es) && UndisturbedRun(s, es) && Waits(s, n, t, d)
    requires StartLink(t) !in es && forall e <- es :: !Rewrites(e, t)
    ensures Inv(After(s, es)) && Waits(After(s, es), n, t, d)
    decreases |es|
  {
    hide Waits, Inv, Permitted, Undisturbed, Next;
    if es != [] {
      StepInv(s, es[0]);
      StepWaits(s, es[0], n, t, d);
      RunWaits(Next(s, es[0]), es[1..], n, t, d);
    }
  }

  /** What a listed timer is promised, it gets: the check of the tick calls it, and none before does. */
  lemma PromiseKept(s: Sys, n: nat, t: Tid, d: nat)
    requires Inv(s) && Promised(s, n, t, d)
    ensures s.now < d ==> t in s.list && NotFiredSince(s, n, t)
    ensures s.now >= d && s.phase == Idle ==> FirstFiredAt(s, n, t, d)
  {
    hide NoDup, Sorted;
  }

  lemma LinkedPromised(s: Sys, n: nat, t: Tid, d: nat)
    requires Waits(s, n, t, d) && Permitted(s, StartLink(t))
    ensures Promised(Next(s, StartLink(t)), n, t, d)
  {
    hide Place, Inserted;
    InsertedMembers(s.list, Place(s, s.list, d), t);
  }

  /**
   * A start has read the tick and computed the deadline d; the timer is in no list. However much
   * later the timeout is written and the timer linked, unless it is stopped or another start
   * rewrites its timeout it fires at d: not before, and by the time the check of that tick has ended.
   */
  lemma FiresExactlyThen(s: Sys, t: Tid, d: nat, before: seq<Event>, later: seq<Event>)
    requires Inv(s) && t in s.timers && t !in s.list && s.phase != Callback(t)
    requires PermittedRun(s, [StartWrite(t, d)] + (before + ([StartLink(t)] + later)))
    requires UndisturbedRun(s, [StartWrite(t, d)] + (before + ([StartLink(t)] + later)))
    requires StartLink(t) !in before && StopUnlink(t) !in later
    requires forall e <- before + later :: !Rewrites(e, t)
    ensures var (u, n) := (After(s, [StartWrite(t, d)] + (before + ([StartLink(t)] + later))), |s.fired|);
            && (u.now < d ==> t in u.list && NotFiredSince(u, n, t))
            && (u.now >= d && u.phase == Idle ==> FirstFiredAt(u, n, t, d))
  {
    var (n, rest) := (|s.fired|, [StartLink(t)] + later);
    assert ([StartWrite(t, d)] + (before + rest))[1..] == before + rest;
    var s1 := Next(s, StartWrite(t, d));
    StepInv(s, StartWrite(t, d));
    assert Waits(s1, n, t, d);
    hide Waits, Inv, Permitted, Undisturbed, Next;
    RunAppend(s1, before, rest);
    RunWaits(s1, before, n, t, d);
    var s2 := After(s1, before);
    assert rest[1..] == later;
    LinkedPromised(s2, n, t, d);
    StepInv(s2, StartLink(t));
    RunPromise(Next(s2, StartLink(t)), later, n, t, d);
    RunInv(Next(s2, StartLink(t)), later);
    PromiseKept(After(Next(s2, StartLink(t)), later), n, t, d);
  }

  /** A periodic timer that has just fired is armed again, one period after the tick it was due. */
  lemma PeriodKept(s: Sys)
    requires Inv(s) && Permitted(s, Return) && s.timers[s.phase.t].periodic && s.timers[s.phase.t].active
    ensures var t := s.phase.t;
            t in Next(s, Return).list && DeadlineOf(Next(s, Return), t) == s.now + s.timers[t].init
  {
    var t := s.phase.t;
    var s2 := Timed(Cleared(s.(phase := Checking), t), t, s.now + s.timers[t].init);
    InsertedMembers(s.list, Place(s2, s.list, s.now + s.timers[t].init), t);
  }

  /** A timer that is not periodic, or was stopped by then, is inactive and off the list after its timeout function. */
  lemma OnceOnly(s: Sys)
    requires Inv(s) && Permitted(s, Return) && !(s.timers[s.phase.t].periodic && s.timers[s.phase.t].active)
    ensures var (u, t) := (Next(s, Return), s.phase.t);
            u.list == s.list && t !in u.list && t in u.timers && u.timers[t] == s.timers[t].(active := false)
  {
    hide NoDup;
  }

  /** A start goes on past its test exactly if the timer is inactive, and a stop exactly if it is active. */
  lemma TestsExactly(s: Sys, t: Tid)
    requires t in s.timers
    ensures var u := Next(s, StartTest(t));
            u == s.(calls := s.calls + if s.timers[t].active then multiset{} else multiset{Starting(t)})
    ensures var u := Next(s, StopTest(t));
            u == s.(calls := s.calls + if s.timers[t].active then multiset{Stopping(t)} else multiset{})
  {
  }

  // ---- One check ----

  /** The timers at the head of the list that are due. */
  function Due(s: Sys): seq<Tid> {
    s.list[..Place(s, s.list, s.now + 1)]
  }

  lemma {:induction false} PlaceIs(s: Sys, xs: seq<Tid>, d: nat, k: nat)
    requires k <= |xs| && (forall i :: 0 <= i < k ==> DeadlineOf(s, xs[i]) < d)
    requires k < |xs| ==> d <= DeadlineOf(s, xs[k])
    ensures Place(s, xs, d) == k
    decreases k
  {
    PlaceHead(s, xs, d);
    if k > 0 {
      PlaceIs(s, xs[1..], d, k - 1);
    }
  }

  /** One round of the check calls the first due timer and leaves the other due ones as they are. */
  lemma CheckStep(s: Sys)
    requires Inv(s) && s.phase == Checking && HeadDue(s)
    requires forall t <- s.timers :: s.timers[t].periodic ==> InRange(s.timers[t])
    ensures Permitted(Next(s, Fire), Return)
    ensures Due(s) != [] && Due(Next(Next(s, Fire), Return)) == Due(s)[1..]
    ensures s.list[0] in s.timers && DeadlineOf(s, s.list[0]) == s.now
  {
    hide Place, NoDup, Sorted, Returned, DeadlineOf;
    HeadFacts(s);
    var xs := s.list;
    var k := Place(s, xs, s.now + 1);
    PlaceHead(s, xs, s.now + 1);
    var u := Returned(FireHead(s), xs[0]);
    RearmedAfter(s, u, xs[1..], k - 1);
    PlaceIs(u, u.list, s.now + 1, k - 1);
    assert xs[1..][..k - 1] == xs[..k][1..];
  }

  lemma HeadFacts(s: Sys)
    requires Inv(s) && HeadDue(s) && s.phase == Checking
    ensures s.list[0] in s.timers && s.list[0] !in s.list[1..] && DeadlineOf(s, s.list[0]) == s.now
  {
    assert s.list[0] in s.list;
  }

  /** A timer that is armed again comes after those that are due now. */
  lemma RearmedAfter(s: Sys, u: Sys, ys: seq<Tid>, k: nat)
    requires k <= |ys| && s.list != [] && ys == s.list[1..] && s.list[0] in s.timers && s.list[0] !in ys
    requires u == Returned(FireHead(s), s.list[0])
    requires s.timers[s.list[0]].periodic ==> InRange(s.timers[s.list[0]])
    requires forall i :: 0 <= i < k ==> DeadlineOf(s, ys[i]) <= s.now
    requires k < |ys| ==> s.now < DeadlineOf(s, ys[k])
    ensures k <= |u.list| && u.list[..k] == ys[..k] && u.now == s.now
    ensures forall i :: 0 <= i < k ==> DeadlineOf(u, u.list[i]) <= s.now
    ensures k < |u.list| ==> s.now < DeadlineOf(u, u.list[k])
  {
    var t := s.list[0];
    var s1 := Cleared(FireHead(s).(phase := Checking), t);
    assert s1.list == ys && s1.now == s.now && t in s1.timers && s1.timers[t].init == s.timers[t].init;
    assert u == if s.timers[t].periodic && s.timers[t].active then Armed(s1, t) else s1;
    assert forall x :: DeadlineOf(s1, x) == DeadlineOf(s, x);
    hide DeadlineOf, Returned, FireHead, Cleared;
    if s.timers[t].periodic && s.timers[t].active {
      ArmedAfter(s1, t, k);
    }
  }

  lemma ArmedAfter(s: Sys, t: Tid, k: nat)
    requires t in s.timers && t !in s.list && k <= |s.list| && InRange(s.timers[t])
    requires forall i :: 0 <= i < k ==> DeadlineOf(s, s.list[i]) <= s.now
    requires k < |s.list| ==> s.now < DeadlineOf(s, s.list[k])
    ensures var u := Armed(s, t);
            && u.list[..k] == s.list[..k] && u.now == s.now
            && (forall i :: 0 <= i < k ==> DeadlineOf(u, u.list[i]) <= s.now)
            && (k < |u.list| ==> s.now < DeadlineOf(u, u.list[k]))
  {
    hide DeadlineOf, Place, Linked, Timed;
    var d := s.now + s.timers[t].init;
    var v := Timed(s, t, d);
    TimedFacts(s, t, d);
    LinkedFacts(v, t);
    var p := Place(v, s.list, d);
    assert forall x <- s.list :: DeadlineOf(v, x) == DeadlineOf(s, x);
    assert k <= p;
    if k < |Linked(v, t).list| {
      InsertedAt(s.list, p, t, k);
    }
  }

  lemma NothingDue(s: Sys)
    requires Inv(s) && s.phase == Checking && !HeadDue(s)
    ensures var u := Next(s, EndCheck);
            Due(s) == [] && u.phase == Idle && u.now == s.now && u.fired == s.fired
            && forall t <- u.list :: u.now < DeadlineOf(u, t)
  {
    NothingElseDue(s);
  }

  lemma FireAndReturn(s: Sys)
    requires Inv(s) && s.phase == Checking && HeadDue(s) && Permitted(Next(s, Fire), Return)
    requires DeadlineOf(s, s.list[0]) == s.now && Due(s) != []
    ensures var u := Next(Next(s, Fire), Return);
            && Due(s)[0] == s.list[0] && Next(s, Fire).phase == Callback(s.list[0])
            && Next(s, Fire).timers == s.timers
            && u.phase == Checking && u.now == s.now && u.timers.Keys == s.timers.Keys
            && u.fired == s.fired + [Firing(s.list[0], s.now, s.now)]
            && forall t <- s.timers :: u.timers[t].periodic == s.timers[t].periodic
                && u.timers[t].init == s.timers[t].init
  {
    hide Inv;
  }

  /** The timers ts, all called at the tick they were due. */
  ghost function Firings(ts: seq<Tid>, now: nat): seq<Firing> {
    seq(|ts|, i requires 0 <= i < |ts| => Firing(ts[i], now, now))
  }

  // ---- Words ----

  /** The kernel's comparison of two times is the comparison of the true times exactly within these bounds. */
  lemma ModularOrderExactly(a: nat, b: nat)
    requires -TWO32 < a - b < TWO32
    ensures (Wrap(Wrap(a) - Wrap(b)) < HALF <==> a >= b) <==> a - b < HALF && b - a <= TWO32 - HALF
  {
    WrapDifference(a, b);
  }

  /** Just outside of them it goes wrong either way. */
  lemma ModularOrderFails(a: nat)
    ensures !(Wrap(Wrap(a + HALF) - Wrap(a)) < HALF)
    ensures Wrap(Wrap(a) - Wrap(a + TWO32 - HALF + 1)) < HALF
  {
    ModularOrderExactly(a + HALF, a);
    ModularOrderExactly(a, a + TWO32 - HALF + 1);
  }

  lemma WrapDifference(a: nat, b: nat)
    requires -TWO32 < a - b < TWO32
    ensures Wrap(Wrap(a) - Wrap(b)) == if a >= b then a - b else a - b + TWO32
  {
    assert (a % TWO32 - b % TWO32) % TWO32 == (a - b) % TWO32;
  }
}

/** The event object of ipc.c: a set of 32 event bits and the threads waiting for some of them. */
module Events {
  import opened Lists
  import opened Masks

  type Tid = nat

  /** event_set and event_info of a thread: the bits, and the AND, OR and CLEAR flags. */
  datatype Want = Want(set0: bv32, all: bool, any: bool, clear: bool)

  datatype Waiter = Waiter(t: Tid, want: Want)

  /** RT_EVENT_FLAG_AND wins over RT_EVENT_FLAG_OR. */
  predicate Satisfied(w: Want, events: bv32) {
    if w.all then Within(w.set0, events) else w.any && Meet(w.set0, events) != 0
  }

  /** The condition bit by bit: under AND no wanted bit is missing, under OR some wanted bit is there. */
  ghost predicate Met(w: Want, events: bv32) {
    if w.all then !Lacks(events, w.set0) else w.any && Shares(w.set0, events)
  }

  lemma MetExactly(w: Want, events: bv32)
    ensures Satisfied(w, events) <==> Met(w, events)
  {
    hide Within, Meet, Lacks, Shares;
    WithinBits(w.set0, events);
    MeetBits(w.set0, events);
  }

  /** The bits a waiter is given: all it asked for, or those of them that are there. */
  function Given(w: Want, events: bv32): bv32 {
    if w.all then w.set0 else Meet(w.set0, events)
  }

  function Cleared(w: Want, given: bv32, events: bv32): bv32 {
    if w.clear then Minus(events, given) else events
  }

  // ---- The pass over the waiters ----

  /** kept are the waiters that stay, woken those that leave with the bits they were given. */
  datatype Outcome = Outcome(events: bv32, kept: seq<Waiter>, woken: seq<Waiter>)

  /** The loop of rt_event_send: one pass, the event set shrinking on the way. */
  function Pass(events: bv32, ws: seq<Waiter>): Outcome {
    if ws == [] then Outcome(events, [], [])
    else if Satisfied(ws[0].want, events) then
      var given := Given(ws[0].want, events);
      var o := Pass(Cleared(ws[0].want, given, events), ws[1..]);
      o.(woken := [ws[0].(want := ws[0].want.(set0 := given))] + o.woken)
    else
      var o := Pass(events, ws[1..]);
      o.(kept := [ws[0]] + o.kept)
  }

  /** A smaller event set satisfies nobody new. */
  lemma SmallerSatisfiesLess(w: Want, a: bv32, b: bv32)
    requires Within(a, b) && Satisfied(w, a)
    ensures Satisfied(w, b)
  {
    hide Meet, Within;
    if w.all {
      WithinTransitive(w.set0, a, b);
    } else {
      MeetMonotone(w.set0, a, b);
    }
  }

  lemma ClearedWithin(w: Want, given: bv32, events: bv32)
    ensures Within(Cleared(w, given, events), events)
  {
    hide Within, Minus;
    MinusWithin(events, given);
    WithinItself(events);
  }

  lemma {:induction false} PassWithin(events: bv32, ws: seq<Waiter>)
    ensures Within(Pass(events, ws).events, events)
    decreases ws
  {
    hide Within, Satisfied, Given, Cleared;
    WithinItself(events);
    if ws != [] {
      var next := if Satisfied(ws[0].want, events) then Cleared(ws[0].want, Given(ws[0].want, events), events)
          else events;
      PassWithin(next, ws[1..]);
      ClearedWithin(ws[0].want, Given(ws[0].want, events), events);
      WithinTransitive(Pass(next, ws[1..]).events, next, events);
    }
  }

  /** One pass is enough: nobody who stays is satisfied by the set that is left. */
  lemma {:induction false} PassLeavesNone(events: bv32, ws: seq<Waiter>)
    ensures forall w <- Pass(events, ws).kept :: w in ws && !Satisfied(w.want, Pass(events, ws).events)
    decreases ws
  {
    hide Within, Satisfied, Given, Cleared;
    if ws != [] {
      var w := ws[0];
      var rest := ws[1..];
      if Satisfied(w.want, events) {
        PassLeavesNone(Cleared(w.want, Given(w.want, events), events), rest);
      } else {
        PassLeavesNone(events, rest);
        PassWithin(events, rest);
        if Satisfied(w.want, Pass(events, rest).events) {
          SmallerSatisfiesLess(w.want, Pass(events, rest).events, events);
        }
      }
    }
  }

  /** What a woken waiter was given: bits it asked for that had been sent, all of them under AND, some under OR. */
  ghost predicate FairlyGiven(ws: seq<Waiter>, events: bv32, g: Waiter) {
    exists w <- ws :: w.t == g.t && g.want == w.want.(set0 := g.want.set0)
      && Within(g.want.set0, w.want.set0) && Within(g.want.set0, events)
      && (if w.want.all then g.want.set0 == w.want.set0 else g.want.set0 != 0)
  }

  lemma {:induction false} PassGivesFairly(events: bv32, ws: seq<Waiter>)
    ensures forall g <- Pass(events, ws).woken :: FairlyGiven(ws, events, g)
    decreases ws
  {
    hide Within, Satisfied, Given, Cleared, FairlyGiven;
    WithinItself(events);
    if ws != [] {
      var (w, rest) := (ws[0], ws[1..]);
      var given := Given(w.want, events);
      var next := if Satisfied(w.want, events) then Cleared(w.want, given, events) else events;
      PassGivesFairly(next, rest);
      ClearedWithin(w.want, given, events);
      forall g <- Pass(events, ws).woken
        ensures FairlyGiven(ws, events, g)
      {
        if g in Pass(next, rest).woken {
          StillFair(ws, events, next, g);
        } else {
          GivenFairly(ws, events);
        }
      }
    }
  }

  lemma StillFair(ws: seq<Waiter>, events: bv32, next: bv32, g: Waiter)
    requires ws != [] && Within(next, events) && FairlyGiven(ws[1..], next, g)
    ensures FairlyGiven(ws, events, g)
  {
    hide Within;
    WithinTransitive(g.want.set0, next, events);
    assert forall w <- ws[1..] :: w in ws;
  }

  lemma GivenFairly(ws: seq<Waiter>, events: bv32)
    requires ws != [] && Satisfied(ws[0].want, events)
    ensures FairlyGiven(ws, events, ws[0].(want := ws[0].want.(set0 := Given(ws[0].want, events))))
  {
    hide Within, Satisfied, Given;
    GivenWithin(ws[0].want, events);
    assert ws[0] in ws;
  }

  lemma GivenWithin(w: Want, events: bv32)
    requires Satisfied(w, events)
    ensures Within(Given(w, events), w.set0) && Within(Given(w, events), events)
    ensures if w.all then Given(w, events) == w.set0 else Given(w, events) != 0
  {
    hide Within, Meet;
    MeetWithin(w.set0, events);
    WithinItself(w.set0);
  }

  /** The bits given to the woken waiters that asked for clearing. */
  ghost function Consumed(woken: seq<Waiter>): bv32 {
    if woken == [] then 0
    else Union(if woken[0].want.clear then woken[0].want.set0 else 0, Consumed(woken[1..]))
  }

  /** Events are consumed by CLEAR waiters only: what is gone was given to one of them. */
  lemma {:induction false} PassConserves(events: bv32, ws: seq<Waiter>)
    ensures Pass(events, ws).events == Minus(events, Consumed(Pass(events, ws).woken))
    decreases ws
  {
    hide Satisfied, Given, Minus, Union;
    MinusNothing(events);
    if ws != [] {
      var w := ws[0].want;
      if Satisfied(w, events) {
        var given := Given(w, events);
        var next := Cleared(w, given, events);
        var o := Pass(next, ws[1..]);
        PassConserves(next, ws[1..]);
        MinusTwice(events, if w.clear then given else 0, Consumed(o.woken));
        assert Pass(events, ws).woken[1..] == o.woken;
      } else {
        PassConserves(events, ws[1..]);
      }
    }
  }

  /** No event bit is given to two CLEAR waiters by the same send. */
  lemma {:induction false} ConsumedOnce(events: bv32, ws: seq<Waiter>, i: nat, j: nat)
    requires i < j < |Pass(events, ws).woken|
    requires Pass(events, ws).woken[i].want.clear
    ensures Meet(Pass(events, ws).woken[i].want.set0, Pass(events, ws).woken[j].want.set0) == 0
    decreases ws
  {
    hide Meet, Within, Satisfied, Given, Minus;
    var w := ws[0];
    if !Satisfied(w.want, events) {
      ConsumedOnce(events, ws[1..], i, j);
    } else {
      var given := Given(w.want, events);
      var next := Cleared(w.want, given, events);
      var o := Pass(next, ws[1..]);
      if i > 0 {
        ConsumedOnce(next, ws[1..], i - 1, j - 1);
      } else {
        PassGivesFairly(next, ws[1..]);
        assert o.woken[j - 1] in o.woken;
        MinusDisjoint(events, given, o.woken[j - 1].want.set0);
      }
    }
  }

  // ---- The protocol ----

  datatype Sys = Sys(events: bv32, waiters: seq<Waiter>)

  datatype Event =
    | Send(bits: bv32)
    | Recv(t: Tid, want: Want, timeout: int, k: nat)
    | Leave(t: Tid)
    | Reset

  ghost predicate Waits(s: Sys, t: Tid) {
    exists w <- s.waiters :: w.t == t
  }

  ghost predicate Permitted(s: Sys, e: Event) {
    match e
    case Send(_) => true
    case Recv(t, _, _, k) => !Waits(s, t) && k <= |s.waiters|
    case Leave(t) => Waits(s, t)
    case Reset => true
  }

  /** The waiters other than t. */
  function Others(ws: seq<Waiter>, t: Tid): (r: seq<Waiter>)
    ensures forall w <- r :: w in ws
  {
    if ws == [] then [] else (if ws[0].t == t then [] else [ws[0]]) + Others(ws[1..], t)
  }

  function Sent(s: Sys, bits: bv32): Sys {
    if bits == 0 then s
    else
      var o := Pass(Union(s.events, bits), s.waiters);
      Sys(o.events, o.kept)
  }

  /** rt_event_recv until it returns or sleeps. */
  function Received(s: Sys, t: Tid, want: Want, timeout: int, k: nat): Sys
    requires k <= |s.waiters|
  {
    if want.set0 == 0 then s
    else if Satisfied(want, s.events) then s.(events := Cleared(want, want.set0, s.events))
    else if timeout == 0 then s
    else s.(waiters := Inserted(s.waiters, k, Waiter(t, want)))
  }

  ghost function Next(s: Sys, e: Event): Sys
    requires Permitted(s, e)
  {
    match e
    case Send(bits) => Sent(s, bits)
    case Recv(t, want, timeout, k) => Received(s, t, want, timeout, k)
    case Leave(t) => s.(waiters := Others(s.waiters, t))
    case Reset => Sys(0, [])
  }

  /** Nobody waits for what is there. */
  ghost predicate NoneSatisfied(s: Sys) {
    forall w <- s.waiters :: !Satisfied(w.want, s.events)
  }

  lemma StepNoneSatisfied(s: Sys, e: Event)
    requires NoneSatisfied(s) && Permitted(s, e)
    ensures NoneSatisfied(Next(s, e))
  {
    hide Satisfied, Given, Cleared, Within, Union;
    match e
    case Send(bits) => PassLeavesNone(Union(s.events, bits), s.waiters);
    case Recv(t, want, timeout, k) =>
      if want.set0 != 0 && Satisfied(want, s.events) {
        ClearedWithin(want, want.set0, s.events);
        forall w <- s.waiters ensures !Satisfied(w.want, Next(s, e).events) {
          if Satisfied(w.want, Next(s, e).events) {
            SmallerSatisfiesLess(w.want, Next(s, e).events, s.events);
          }
        }
      }
    case Leave(t) => {}
    case Reset => {}
  }

  ghost predicate PermittedRun(s: Sys, es: seq<Event>)
    decreases |es|
  {
    es == [] || (Permitted(s, es[0]) && PermittedRun(Next(s, es[0]), es[1..]))
  }

  ghost function After(s: Sys, es: seq<Event>): Sys
    requires PermittedRun(s, es)
    decreases |es|
  {
    if es == [] then s else After(Next(s, es[0]), es[1..])
  }

  /** In every reachable state no suspended thread's condition holds of the current event set. */
  lemma {:induction false} NeverWaitsInVain(s: Sys, es: seq<Event>)
    requires NoneSatisfied(s) && PermittedRun(s, es)
    ensures NoneSatisfied(After(s, es))
    decreases |es|
  {
    if es != [] {
      StepNoneSatisfied(s, es[0]);
      NeverWaitsInVain(Next(s, es[0]), es[1..]);
    }
  }

  lemma NewObject(es: seq<Event>)
    requires PermittedRun(Sys(0, []), es)
    ensures NoneSatisfied(After(Sys(0, []), es))
  {
    NeverWaitsInVain(Sys(0, []), es);
  }

  // ---- The object ----

  datatype Reply = Rejected | Got(bits: bv32) | Asleep | Timedout

  /** struct rt_event with its suspend list; info holds event_set and event_info of every thread. */
  class EventObject {
    var events: bv32
    var waiters: seq<Tid>
    var info: map<Tid, Want>

    ghost predicate Valid()
      reads this
    {
      NoDup(waiters) && forall t <- waiters :: t in info
    }

    ghost function View(): Sys
      requires Valid()
      reads this
    {
      Sys(events, Waiting(waiters, info))
    }

    constructor ()
      ensures Valid() && View() == Sys(0, [])
    {
      events, waiters, info := 0, [], map[];
    }

    /** rt_event_send: the node is passed before its thread is resumed and unlinked. */
    method Send(bits: bv32) returns (ok: bool)
      requires Valid()
      modifies this
      ensures Valid() && ok == (bits != 0)
      ensures View() == Sent(old(View()), bits)
      ensures bits != 0 ==>
                forall g <- Pass(Union(old(events), bits), old(View().waiters)).woken ::
                  g.t in info && info[g.t] == g.want
    {
      hide Satisfied, Given, Cleared, Union, Pass, Waiting, NoDup;
      if bits == 0 {
        return false;
      }
      ok := true;
      events := Union(events, bits);
      ghost var o := Pass(events, View().waiters);
      ghost var woken: seq<Waiter> := [];
      var n := 0;
      NothingWaits(info);
      assert waiters[..n] == [] && waiters[n..] == waiters;
      while n < |waiters|
        invariant Valid() && n <= |waiters|
        invariant var rest := Pass(events, Waiting(waiters[n..], info));
                  && rest.events == o.events
                  && Waiting(waiters[..n], info) + rest.kept == o.kept
                  && woken + rest.woken == o.woken
        invariant forall g <- woken :: g.t !in waiters && g.t in info && info[g.t] == g.want
        decreases |waiters| - n
      {
        var (t, w) := (waiters[n], info[waiters[n]]);
        WaitingHead(waiters[n..], info);
        PassHead(events, Waiting(waiters[n..], info));
        assert waiters[n..][1..] == waiters[n + 1..];
        if Satisfied(w, events) {
          woken := woken + [Waiter(t, w.(set0 := Given(w, events)))];
          Wake(n);
        } else {
          assert Waiting(waiters[..n + 1], info) == Waiting(waiters[..n], info) + [Waiter(t, w)];
          n := n + 1;
        }
      }
    }

    /** rt_event_recv until the running thread t returns or sleeps; got is what is stored in recved. */
    method Recv(t: Tid, want: Want, timeout: int, k: nat) returns (out: Reply)
      requires Valid() && t !in waiters && k <= |waiters|
      modifies this
      ensures Valid()
      ensures View() == Received(old(View()), t, want, timeout, k)
      ensures out.Rejected? <==> want.set0 == 0
      ensures out.Got? <==> want.set0 != 0 && Met(want, old(events))
      ensures out.Got? ==>
                forall b: bv32 :: Single(b) ==> (Has(out.bits, b) <==> Has(old(events), b) && Has(want.set0, b))
      ensures out.Timedout? <==> want.set0 != 0 && !Met(want, old(events)) && timeout == 0
      ensures out.Asleep? <==> t in waiters
    {
      hide Satisfied, Met, Cleared, Meet, Waiting, NoDup, Single, Has;
      MetExactly(want, events);
      if want.set0 == 0 {
        return Rejected;
      }
      if Satisfied(want, events) {
        out := Got(Meet(events, want.set0));
        forall b: bv32 | Single(b) ensures Has(out.bits, b) <==> Has(events, b) && Has(want.set0, b) {
          MeetHas(events, want.set0, b);
        }
        events := Cleared(want, want.set0, events);
      } else if timeout == 0 {
        out := Timedout;
      } else {
        out := Asleep;
        InsertedMembers(waiters, k, t);
        WaitingOthers(waiters, info, t, want);
        info := info[t := want];
        waiters := Inserted(waiters, k, t);
        assert View().waiters == Inserted(old(View()).waiters, k, Waiter(t, want));
      }
    }

    /** The satisfied branch: record what was received, clear it if asked to, and resume the thread. */
    method Wake(n: nat)
      requires Valid() && n < |waiters|
      modifies this
      ensures Valid()
      ensures var (t, w) := old((waiters[n], info[waiters[n]]));
              var given := Given(w, old(events));
              && events == Cleared(w, given, old(events))
              && info == old(info)[t := w.(set0 := given)]
              && |waiters| == |old(waiters)| - 1 && t !in waiters
              && (forall x <- waiters :: x in old(waiters))
              && waiters[..n] == old(waiters[..n]) && waiters[n..] == old(waiters[n + 1..])
              && Waiting(waiters[..n], info) == Waiting(old(waiters[..n]), old(info))
              && Waiting(waiters[n..], info) == Waiting(old(waiters[n + 1..]), old(info))
    {
      hide Satisfied, Given, Cleared, Union, Pass, Waiting, NoDup;
      var (t, w) := (waiters[n], info[waiters[n]]);
      var after := waiters[n + 1..];
      DropAt(waiters, n);
      WaitingOthers(after, info, t, w.(set0 := Given(w, events)));
      WaitingOthers(waiters[..n], info, t, w.(set0 := Given(w, events)));
      info := info[t := w.(set0 := Given(w, events))];
      events := Cleared(w, Given(w, events), events);
      waiters := waiters[..n] + after;
      assert waiters[n..] == after && waiters[..n] == old(waiters[..n]);
    }
  }

  /** The waiters of a list with what they want. */
  ghost function Waiting(ts: seq<Tid>, info: map<Tid, Want>): (ws: seq<Waiter>)
    requires forall t <- ts :: t in info
    ensures |ws| == |ts| && forall i :: 0 <= i < |ts| ==> ws[i] == Waiter(ts[i], info[ts[i]])
  {
    if ts == [] then [] else [Waiter(ts[0], info[ts[0]])] + Waiting(ts[1..], info)
  }

  lemma NothingWaits(info: map<Tid, Want>)
    ensures Waiting([], info) == [] && forall e :: Pass(e, []) == Outcome(e, [], [])
  {
  }

  lemma WaitingHead(ts: seq<Tid>, info: map<Tid, Want>)
    requires ts != [] && forall t <- ts :: t in info
    ensures Waiting(ts, info) == [Waiter(ts[0], info[ts[0]])] + Waiting(ts[1..], info)
  {
  }

  lemma WaitingOthers(ts: seq<Tid>, info: map<Tid, Want>, t: Tid, w: Want)
    requires t !in ts && forall x <- ts :: x in info
    ensures Waiting(ts, info[t := w]) == Waiting(ts, info)
  {
  }

  lemma PassHead(events: bv32, ws: seq<Waiter>)
    requires ws != []
    ensures var w := ws[0].want;
            if Satisfied(w, events) then
              var o := Pass(Cleared(w, Given(w, events), events), ws[1..]);
              Pass(events, ws) == o.(woken := [ws[0].(want := w.(set0 := Given(w, events)))] + o.woken)
            else
              var o := Pass(events, ws[1..]);
              Pass(events, ws) == o.(kept := [ws[0]] + o.kept)
  {
    hide Satisfied, Given, Cleared;
  }
}

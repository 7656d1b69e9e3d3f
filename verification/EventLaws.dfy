/** The event object of ipc.c bit by bit: who is woken by a send, in which order and with what, and who sleeps. */
module EventLaws {
  import opened Lists
  import opened Masks
  import opened Events

  /** The bits that are given: all that are wanted under AND, those of them that are there under OR. */
  ghost predicate Gives(w: Want, events: bv32, given: bv32) {
    forall b: bv32 :: Single(b) ==> (Has(given, b) <==> Has(w.set0, b) && (w.all || Has(events, b)))
  }

  /** CLEAR takes away what was given, and nothing else does. */
  ghost predicate Clears(w: Want, given: bv32, events: bv32, left: bv32) {
    forall b: bv32 :: Single(b) ==> (Has(left, b) <==> Has(events, b) && !(w.clear && Has(given, b)))
  }

  lemma GivenBits(w: Want, events: bv32)
    ensures Gives(w, events, Given(w, events))
  {
    hide Single, Has, Meet;
    forall b: bv32 | Single(b) ensures Has(Given(w, events), b) <==> Has(w.set0, b) && (w.all || Has(events, b)) {
      MeetHas(w.set0, events, b);
    }
  }

  lemma ClearedBits(w: Want, given: bv32, events: bv32)
    ensures Clears(w, given, events, Cleared(w, given, events))
  {
    hide Single, Has, Minus;
    forall b: bv32 | Single(b)
      ensures Has(Cleared(w, given, events), b) <==> Has(events, b) && !(w.clear && Has(given, b))
    {
      MinusHas(events, given, b);
    }
  }

  /** What the pass has come to after the waiters ahead of i decides about waiter i. */
  ghost predicate Decides(a: Outcome, w: Waiter, b: Outcome) {
    if Met(w.want, a.events) then
      exists given: bv32 ::
        && Gives(w.want, a.events, given) && Clears(w.want, given, a.events, b.events)
        && b.kept == a.kept && b.woken == a.woken + [w.(want := w.want.(set0 := given))]
    else b == a.(kept := a.kept + [w])
  }

  /** The waiters are decided one after the other, first come first served, each on the events that are left. */
  lemma {:induction false} PassStep(events: bv32, ws: seq<Waiter>, i: nat)
    requires i < |ws|
    ensures Decides(Pass(events, ws[..i]), ws[i], Pass(events, ws[..i + 1]))
    decreases i
  {
    hide Pass, Satisfied, Met, Given, Cleared, Gives, Clears;
    var w := ws[0].want;
    MetExactly(w, events);
    PassHead(events, ws[..i + 1]);
    if i == 0 {
      NothingWaits(map[]);
      assert ws[..0] == [] && ws[..1][1..] == [];
      GivenBits(w, events);
      ClearedBits(w, Given(w, events), events);
    } else {
      PassHead(events, ws[..i]);
      assert ws[..i + 1][1..] == ws[1..][..i] && ws[..i][1..] == ws[1..][..i - 1];
      var next := if Satisfied(w, events) then Cleared(w, Given(w, events), events) else events;
      PassStep(next, ws[1..], i - 1);
      var first := [ws[0].(want := w.(set0 := Given(w, events)))];
      var (ks, gs) := if Satisfied(w, events) then ([], first) else ([ws[0]], []);
      Carried(Pass(next, ws[1..][..i - 1]), ws[i], Pass(next, ws[1..][..i]), ks, gs);
      assert Pass(events, ws[..i]) == Behind(ks, gs, Pass(next, ws[1..][..i - 1]));
      assert Pass(events, ws[..i + 1]) == Behind(ks, gs, Pass(next, ws[1..][..i]));
    }
  }

  /** The outcome with more waiters decided ahead of it. */
  ghost function Behind(ks: seq<Waiter>, gs: seq<Waiter>, o: Outcome): Outcome {
    Outcome(o.events, ks + o.kept, gs + o.woken)
  }

  lemma Carried(a: Outcome, w: Waiter, b: Outcome, ks: seq<Waiter>, gs: seq<Waiter>)
    requires Decides(a, w, b)
    ensures Decides(Behind(ks, gs, a), w, Behind(ks, gs, b))
  {
    hide Met, Gives, Clears;
    if Met(w.want, a.events) {
      var given: bv32 :| Gives(w.want, a.events, given) && Clears(w.want, given, a.events, b.events)
                         && b.kept == a.kept && b.woken == a.woken + [w.(want := w.want.(set0 := given))];
      assert gs + b.woken == (gs + a.woken) + [w.(want := w.want.(set0 := given))];
    } else {
      assert ks + b.kept == (ks + a.kept) + [w];
    }
  }

  lemma NobodyMet(events: bv32, ws: seq<Waiter>)
    ensures forall w <- Pass(events, ws).kept :: !Met(w.want, Pass(events, ws).events)
  {
    hide Pass, Satisfied, Met;
    PassLeavesNone(events, ws);
    forall w <- Pass(events, ws).kept ensures !Met(w.want, Pass(events, ws).events) {
      MetExactly(w.want, Pass(events, ws).events);
    }
  }

  /** A send adds its bits; then each waiter is decided, and nobody stays whose condition holds of what is left. */
  lemma SendExactly(s: Sys, bits: bv32)
    requires bits != 0
    ensures forall b: bv32 :: Single(b) ==> (Has(Union(s.events, bits), b) <==> Has(s.events, b) || Has(bits, b))
    ensures var o := Pass(Union(s.events, bits), s.waiters);
            && Sent(s, bits) == Sys(o.events, o.kept)
            && Pass(Union(s.events, bits), []) == Outcome(Union(s.events, bits), [], [])
            && forall w <- o.kept :: !Met(w.want, o.events)
  {
    hide Single, Has, Union, Pass, Met;
    forall b: bv32 | Single(b) ensures Has(Union(s.events, bits), b) <==> Has(s.events, b) || Has(bits, b) {
      UnionHas(s.events, bits, b);
    }
    NothingWaits(map[]);
    NobodyMet(Union(s.events, bits), s.waiters);
  }

  /** A caller of rt_event_recv sleeps exactly if it wants bits, its condition does not hold and it may wait. */
  lemma RecvExactly(s: Sys, t: Tid, want: Want, timeout: int, k: nat)
    requires k <= |s.waiters|
    ensures var u := Received(s, t, want, timeout, k);
            if want.set0 != 0 && Met(want, s.events) then
              u.waiters == s.waiters && Clears(want, want.set0, s.events, u.events)
            else
              && u.events == s.events
              && u.waiters == if want.set0 == 0 || timeout == 0 then s.waiters
                              else Inserted(s.waiters, k, Waiter(t, want))
  {
    hide Satisfied, Met, Clears, Cleared;
    MetExactly(want, s.events);
    ClearedBits(want, want.set0, s.events);
  }

  /** A waiter that times out or is deleted leaves alone; the others keep their places. */
  lemma {:induction false} LeaveExactly(ws: seq<Waiter>, t: Tid, i: nat)
    requires i < |ws| && ws[i].t == t && forall j :: 0 <= j < |ws| && j != i ==> ws[j].t != t
    ensures Others(ws, t) == ws[..i] + ws[i + 1..]
    decreases i
  {
    if i == 0 {
      NoOthers(ws[1..], t);
    } else {
      LeaveExactly(ws[1..], t, i - 1);
      assert ws[1..][..i - 1] == ws[1..i] && ws[1..][i..] == ws[i + 1..];
    }
  }

  lemma {:induction false} NoOthers(ws: seq<Waiter>, t: Tid)
    requires forall w <- ws :: w.t != t
    ensures Others(ws, t) == ws
  {
    if ws != [] {
      NoOthers(ws[1..], t);
    }
  }
}

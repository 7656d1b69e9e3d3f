/** clock.c: time slices and turns of the threads that share the most urgent priority. */
module KernelRoundRobin {
  import opened Base
  import opened Lists
  import opened KernelState

  /** rt_tick_increase followed by the reschedule on the way out of the interrupt. */
  function Slot(s: Sys): Sys
    requires s.current in s.threads && s.threads[s.current].prio < |s.ready|
  {
    Schedule(TickSlice(s))
  }

  /** The head of the most urgent ready list is running and every slice there is at least one tick. */
  ghost predicate Turning(s: Sys, p: nat) {
    && Agree(s) && s.lockNest == 0
    && IsTop(s, p) && s.current == s.ready[p][0]
    && forall x <- s.ready[p] :: x in s.threads && 1 <= s.threads[x].remaining <= s.threads[x].initTick
  }

  /** One tick of the running thread's slice is used up, and nothing else changes. */
  ghost function Spent(s: Sys, x: Tid): Sys
    requires x in s.threads && s.threads[x].remaining > 0
  {
    SetThread(s, x, s.threads[x].(remaining := s.threads[x].remaining - 1))
  }

  /** The end of a turn: a fresh slice, and the thread goes to the end of its list. */
  ghost function TurnOver(s: Sys, p: nat): Sys
    requires p < |s.ready| && s.ready[p] != [] && s.ready[p][0] in s.threads
  {
    var xs := s.ready[p];
    var ys := xs[1..] + [xs[0]];
    SetThread(s, xs[0], s.threads[xs[0]].(remaining := s.threads[xs[0]].initTick))
    .(ready := s.ready[p := ys], current := ys[0])
  }

  lemma HeadOnlyThere(s: Sys, p: nat)
    requires Agree(s) && p < |s.ready| && s.ready[p] != []
    ensures NoDup(s.ready[p])
    ensures forall q :: 0 <= q < |s.ready| && q != p ==> s.ready[p][0] !in s.ready[q]
    ensures forall q <- s.queues :: s.ready[p][0] !in s.queues[q]
  {
    var x := s.ready[p][0];
    assert x in s.ready[p];
    assert x in s.threads && s.threads[x].prio == p && s.threads[x].stat == Ready;
  }

  /** Taking the running thread out of the lists touches its ready list only. */
  lemma UnlinkHead(s: Sys, p: nat)
    requires Agree(s) && p < |s.ready| && s.ready[p] != []
    ensures Unlink(s, s.ready[p][0]) == s.(ready := s.ready[p := s.ready[p][1..]])
  {
    var xs := s.ready[p];
    var x := xs[0];
    HeadOnlyThere(s, p);
    WithoutHead(xs);
    forall q | 0 <= q < |s.ready| && q != p ensures Without(s.ready[q], x) == s.ready[q] {
      WithoutMembers(s.ready[q], x);
    }
    forall q <- s.queues ensures Without(s.queues[q], x) == s.queues[q] {
      WithoutMembers(s.queues[q], x);
    }
    assert Unlink(s, x).ready == s.ready[p := xs[1..]];
    assert Unlink(s, x).queues == s.queues;
  }

  lemma YieldHead(s: Sys, p: nat)
    requires Agree(s) && p < |s.ready| && s.ready[p] != [] && s.current == s.ready[p][0]
    requires s.current in s.threads
    ensures YieldThread(s) == s.(ready := s.ready[p := s.ready[p][1..] + [s.ready[p][0]]])
  {
    var xs := s.ready[p];
    assert xs[0] in xs;
    assert s.threads[xs[0]].prio == p && s.threads[xs[0]].stat == Ready;
    if |xs| >= 2 {
      UnlinkHead(s, p);
      assert s.threads[xs[0] := s.threads[xs[0]].(stat := Ready)] == s.threads;
      assert YieldThread(s).ready == s.ready[p := xs[1..] + [xs[0]]];
    } else {
      assert xs[1..] + [xs[0]] == xs;
      assert s.ready[p := xs] == s.ready;
    }
  }

  lemma ScheduleTop(s: Sys, p: nat)
    requires s.lockNest == 0 && IsTop(s, p)
    ensures Schedule(s) == s.(current := s.ready[p][0])
  {
  }

  /** What one tick does to the running thread and its list. */
  lemma SlotForm(s: Sys, p: nat)
    requires Turning(s, p)
    ensures s.current in s.threads && s.threads[s.current].prio < |s.ready|
    ensures Slot(s) == if s.threads[s.current].remaining > 1 then Spent(s, s.current) else TurnOver(s, p)
  {
    hide AgreeBut, Schedule, YieldThread;
    var x := s.current;
    assert x in s.ready[p];
    PrioInRange(s, x);
    var r := s.threads[x];
    if r.remaining > 1 {
      ScheduleTop(Spent(s, x), p);
    } else {
      var s1 := SetThread(s, x, r.(remaining := r.initTick));
      SameListsAgree(s, s1);
      YieldHead(s1, p);
      ScheduleTop(YieldThread(s1), p);
    }
  }

  lemma SlotAgree(s: Sys, p: nat)
    requires Turning(s, p) && s.current in s.threads && s.threads[s.current].prio < |s.ready|
    ensures Agree(Slot(s))
  {
    hide AgreeBut, TickSlice;
    TickAgree(s);
    SameListsAgree(TickSlice(s), Slot(s));
  }

  lemma SlotTurning(s: Sys, p: nat)
    requires Turning(s, p)
    ensures s.current in s.threads && s.threads[s.current].prio < |s.ready| && Turning(Slot(s), p)
  {
    hide AgreeBut, TickSlice, Schedule, Slot;
    SlotForm(s, p);
    SlotAgree(s, p);
    var (xs, u) := (s.ready[p], Slot(s));
    assert forall x <- u.ready[p] :: x in xs;
  }

  /** n ticks with no other event. */
  ghost function Slots(s: Sys, p: nat, n: nat): (u: Sys)
    requires Turning(s, p)
    ensures Turning(u, p)
    decreases n
  {
    if n == 0 then s
    else
      SlotTurning(s, p);
      Slots(Slot(s), p, n - 1)
  }

  lemma {:induction false} SlotsAdd(s: Sys, p: nat, m: nat, n: nat)
    requires Turning(s, p)
    ensures Slots(s, p, m + n) == Slots(Slots(s, p, m), p, n)
    decreases m
  {
    hide Turning, Slot;
    if m > 0 {
      SlotTurning(s, p);
      SlotsAdd(Slot(s), p, m - 1, n);
    }
  }

  /** A turn lasts exactly what is left of the slice, and ends with the list rotated by one. */
  lemma {:induction false} Turn(s: Sys, p: nat)
    requires Turning(s, p)
    ensures s.current in s.threads
    ensures Slots(s, p, s.threads[s.current].remaining) == TurnOver(s, p)
    ensures forall k: nat :: k < s.threads[s.current].remaining ==> Slots(s, p, k).current == s.current
    decreases s.threads[s.ready[p][0]].remaining
  {
    hide Agree, Slot;
    var n := s.threads[s.current].remaining;
    SlotTurning(s, p);
    SlotForm(s, p);
    var u := Slot(s);
    if n > 1 {
      Turn(u, p);
      assert TurnOver(u, p).threads == TurnOver(s, p).threads;
      assert TurnOver(u, p) == TurnOver(s, p);
      forall k: nat | k < n
        ensures Slots(s, p, k).current == s.current
      {
        if k > 0 {
          assert Slots(s, p, k) == Slots(u, p, k - 1);
        }
      }
    } else {
      assert Slots(s, p, 1) == Slots(u, p, 0);
    }
  }

  /** Ticks left in the slices of the first j threads of a list. */
  ghost function Left(s: Sys, xs: seq<Tid>, j: nat): nat
    requires j <= |xs| && forall x <- xs :: x in s.threads
  {
    if j == 0 then 0 else s.threads[xs[0]].remaining + Left(s, xs[1..], j - 1)
  }

  lemma {:induction false} LeftSame(s: Sys, u: Sys, xs: seq<Tid>, ys: seq<Tid>, j: nat)
    requires j <= |xs| && j <= |ys| && xs[..j] == ys[..j]
    requires forall x <- xs :: x in s.threads
    requires forall y <- ys :: y in u.threads
    requires forall x <- xs[..j] :: u.threads[x].remaining == s.threads[x].remaining
    ensures Left(u, ys, j) == Left(s, xs, j)
  {
    if j > 0 {
      assert xs[0] == xs[..j][0] && ys[0] == ys[..j][0];
      assert xs[1..][..j - 1] == xs[..j][1..] && ys[1..][..j - 1] == ys[..j][1..];
      LeftSame(s, u, xs[1..], ys[1..], j - 1);
    }
  }

  /** The j-th thread of the list first runs after n ticks; until then threads before it run. */
  ghost predicate StartsAt(s: Sys, p: nat, j: nat, n: nat)
    requires Turning(s, p) && j < |s.ready[p]|
  {
    && Slots(s, p, n).current == s.ready[p][j]
    && forall k: nat :: k < n ==> Slots(s, p, k).current in s.ready[p][..j]
  }

  lemma HeadStarts(s: Sys, p: nat)
    requires Turning(s, p)
    ensures StartsAt(s, p, 0, 0)
  {
    hide Agree;
  }

  /** Turns are taken in queue order: the j-th thread starts when the slices before it are used up. */
  lemma {:induction false} TurnsInOrder(s: Sys, p: nat, j: nat)
    requires Turning(s, p) && j < |s.ready[p]|
    ensures StartsAt(s, p, j, Left(s, s.ready[p], j))
    decreases j
  {
    hide Agree, StartsAt, Slots;
    if j == 0 {
      HeadStarts(s, p);
    } else {
      Turn(s, p);
      RestOfOrder(s, p, j);
      var u := TurnOver(s, p);
      TurnsInOrder(u, p, j - 1);
      StartsLater(s, p, j, Left(u, u.ready[p], j - 1));
    }
  }

  /** Starting after n ticks of the rotated list is starting after the head's turn and n more ticks. */
  lemma StartsLater(s: Sys, p: nat, j: nat, n: nat)
    requires Turning(s, p) && 0 < j < |s.ready[p]| && s.current in s.threads
    requires Turning(TurnOver(s, p), p) && StartsAt(TurnOver(s, p), p, j - 1, n)
    ensures StartsAt(s, p, j, s.threads[s.current].remaining + n)
  {
    hide Agree, Slots, StartsAt;
    var (r, u, xs) := (s.threads[s.current].remaining, TurnOver(s, p), s.ready[p]);
    Turn(s, p);
    RestOfOrder(s, p, j);
    assert u.ready[p][j - 1] == xs[j] && xs[..j][0] == s.current;
    StartsShifted(s, u, p, j, r, n);
  }

  lemma StartsShifted(s: Sys, u: Sys, p: nat, j: nat, r: nat, n: nat)
    requires Turning(s, p) && Turning(u, p) && 0 < j < |s.ready[p]| == |u.ready[p]|
    requires Slots(s, p, r) == u && StartsAt(u, p, j - 1, n)
    requires u.ready[p][j - 1] == s.ready[p][j]
    requires forall y <- u.ready[p][..j - 1] :: y in s.ready[p][..j]
    requires forall k: nat :: k < r ==> Slots(s, p, k).current in s.ready[p][..j]
    ensures StartsAt(s, p, j, r + n)
  {
    hide Agree, Slots;
    SlotsAdd(s, p, r, n);
    forall k: nat | k < r + n
      ensures Slots(s, p, k).current in s.ready[p][..j]
    {
      if k >= r {
        SlotsAdd(s, p, r, k - r);
        assert Slots(u, p, k - r).current in u.ready[p][..j - 1];
      }
    }
  }

  /** After the head's turn the threads before the j-th one are the same, with the same slices left. */
  lemma RestOfOrder(s: Sys, p: nat, j: nat)
    requires Turning(s, p) && 0 < j < |s.ready[p]|
    ensures var (xs, u) := (s.ready[p], TurnOver(s, p));
            && (forall y <- u.ready[p] :: y in u.threads)
            && Left(s, xs, j) == s.threads[xs[0]].remaining + Left(u, u.ready[p], j - 1)
            && forall y <- u.ready[p][..j - 1] :: y in xs[..j]
  {
    var (xs, u) := (s.ready[p], TurnOver(s, p));
    var ys := u.ready[p];
    HeadNotLater(s, p);
    hide Agree;
    assert forall y <- ys :: y in xs;
    assert ys[..j - 1] == xs[1..][..j - 1] == xs[..j][1..];
    LeftSame(s, u, xs[1..], ys, j - 1);
  }

  lemma HeadNotLater(s: Sys, p: nat)
    requires Turning(s, p)
    ensures s.ready[p][0] !in s.ready[p][1..]
  {
  }

  /** The slices of the first j threads of a list. */
  ghost function Slices(s: Sys, xs: seq<Tid>, j: nat): nat
    requires j <= |xs| && forall x <- xs :: x in s.threads
  {
    if j == 0 then 0 else s.threads[xs[0]].initTick + Slices(s, xs[1..], j - 1)
  }

  lemma {:induction false} LeftAtMostSlices(s: Sys, xs: seq<Tid>, j: nat)
    requires j <= |xs| && forall x <- xs :: x in s.threads && s.threads[x].remaining <= s.threads[x].initTick
    ensures Left(s, xs, j) <= Slices(s, xs, j)
  {
    if j > 0 {
      LeftAtMostSlices(s, xs[1..], j - 1);
    }
  }

  /** No thread waits longer than the slices of the threads before it. */
  lemma WaitBound(s: Sys, p: nat, j: nat)
    requires Turning(s, p) && j < |s.ready[p]|
    ensures exists n: nat :: n <= Slices(s, s.ready[p], j) && Slots(s, p, n).current == s.ready[p][j]
  {
    TurnsInOrder(s, p, j);
    LeftAtMostSlices(s, s.ready[p], j);
  }

  /** A thread that has just been given the processor with a full slice keeps it init_tick ticks. */
  lemma FullTurn(s: Sys, p: nat)
    requires Turning(s, p)
    requires s.current in s.threads && s.threads[s.current].remaining == s.threads[s.current].initTick
    ensures forall k: nat :: k < s.threads[s.current].initTick ==> Slots(s, p, k).current == s.current
    ensures |s.ready[p]| >= 2 ==> Slots(s, p, s.threads[s.current].initTick).current == s.ready[p][1]
    ensures Slots(s, p, s.threads[s.current].initTick).threads == s.threads
  {
    hide Agree, Slots;
    Turn(s, p);
    var x := s.current;
    assert s.threads[x := s.threads[x].(remaining := s.threads[x].initTick)] == s.threads;
  }
}

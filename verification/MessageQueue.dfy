/**
 * The message queue of ipc.c under any interleaving: a send takes its node in one section, fills
 * it with interrupts enabled and links it in a second one; a receiver gives its node back in a
 * section of its own.
 */
module MessageQueue {
  import opened Base
  import opened Lists
  import opened MessageNodes
  import Mailbox

  datatype Msg = Msg(data: seq<byte>, urgent: bool)

  /** Where a thread stands inside a call; Filling and Copying hold a private node. */
  datatype Call =
    | Filling(n: nat, msg: Msg, done: bool)
    | Waiting(timeout: int)
    | Copying(n: nat, msg: Msg)

  type Calls = map<Tid, Call>

  /** mail is the abstract queue; the logs run from the last reset. */
  datatype Sys = Sys(max: nat, msgSize: nat, pool: Pool, mail: seq<Msg>, calls: Calls,
                     stored: seq<Msg>, received: seq<Msg>)

  datatype Event =
    | Begin(t: Tid, msg: Msg)
    | Fill(t: Tid)
    | Link(t: Tid)
    | Recv(t: Tid, timeout: int, k: nat)
    | Retry(t: Tid, elapsed: u32, k: nat)
    | GiveBack(t: Tid)
    | Leave(t: Tid)
    | ResumeThread(t: Tid)
    | Reset

  ghost predicate Permitted(s: Sys, e: Event) {
    match e
    case Begin(t, _) => t !in s.calls
    case Fill(t) => t in s.calls && s.calls[t].Filling? && !s.calls[t].done
    case Link(t) => t in s.calls && s.calls[t].Filling? && s.calls[t].done
    case Recv(t, _, k) => t !in s.calls && k <= |s.pool.receivers|
    case Retry(t, _, k) => t in s.calls && s.calls[t].Waiting? && t !in s.pool.receivers && k <= |s.pool.receivers|
    case GiveBack(t) => t in s.calls && s.calls[t].Copying?
    case Leave(t) => t in s.pool.receivers
    case ResumeThread(t) => t in s.pool.receivers
    case Reset => true
  }

  ghost function Receive(s: Sys, t: Tid, timeout: int, k: nat): Sys
    requires |s.mail| == |s.pool.queue| && k <= |s.pool.receivers|
  {
    var (p, out) := TakenFront(s.pool, t, timeout, k);
    match out
    case Node(n) =>
      s.(pool := p, mail := s.mail[1..], calls := s.calls[t := Copying(n, s.mail[0])],
         received := s.received + [s.mail[0]])
    case Asleep => s.(pool := p, calls := s.calls[t := Waiting(timeout)])
    case _ => s.(pool := p, calls := s.calls - {t})
  }

  ghost function Begun(s: Sys, t: Tid, msg: Msg): Sys {
    if |msg.data| > s.msgSize then s
    else
      match TakenFree(s.pool)
      case (p, Node(n)) => s.(pool := p, calls := s.calls[t := Filling(n, msg, false)])
      case _ => s
  }

  ghost function Put(s: Sys, t: Tid): Sys
    requires t in s.calls && s.calls[t].Filling?
  {
    var Filling(n, msg, _) := s.calls[t];
    s.(pool := Linked(s.pool, n, msg.urgent),
       mail := if msg.urgent then [msg] + s.mail else s.mail + [msg],
       calls := s.calls - {t},
       stored := s.stored + [msg])
  }

  ghost function Woken(s: Sys, t: Tid): Sys {
    s.(pool := s.pool.(receivers := Without(s.pool.receivers, t)))
  }

  ghost function Next(s: Sys, e: Event): Sys
    requires Inv(s) && Permitted(s, e)
  {
    match e
    case Begin(t, msg) => Begun(s, t, msg)
    case Fill(t) =>
      var Filling(n, msg, _) := s.calls[t];
      s.(pool := Filled(s.pool, n, msg.data, msg.urgent), calls := s.calls[t := Filling(n, msg, true)])
    case Link(t) => Put(s, t)
    case Recv(t, timeout, k) => Receive(s, t, timeout, k)
    case Retry(t, elapsed, k) => Receive(s, t, Mailbox.Remaining(s.calls[t].timeout, elapsed), k)
    case GiveBack(t) => s.(pool := GivenBack(s.pool, s.calls[t].n), calls := s.calls - {t})
    case Leave(t) => Woken(s, t).(calls := s.calls - {t})
    case ResumeThread(t) => Woken(s, t)
    case Reset =>
      s.(pool := Emptied(s.pool), mail := [], stored := [], received := [],
         calls := map t | t in s.calls && t !in s.pool.receivers :: s.calls[t])
  }

  // ---- Invariant ----

  predicate Holds(c: Call) {
    c.Filling? || c.Copying?
  }

  ghost function Holders(calls: Calls): set<Tid> {
    set t <- calls | Holds(calls[t])
  }

  ghost function InReceive(calls: Calls): set<Tid> {
    set t <- calls | calls[t].Waiting?
  }

  /** A private node is on no chain and belongs to one thread; its link is clear if it is to be linked last. */
  ghost predicate OwnNode(p: Pool, max: nat, c: Call) {
    Holds(c) ==> c.n < max && Private(p, c.n) && (c.n in p.ready <==> c.Filling? && c.done && !c.msg.urgent)
  }

  ghost predicate Held(p: Pool, calls: Calls, max: nat) {
    && (forall t <- calls :: OwnNode(p, max, calls[t]))
    && forall t, u ::
         t in calls && u in calls && Holds(calls[t]) && Holds(calls[u]) && calls[t].n == calls[u].n ==> t == u
  }

  /** The buffer holds the message. */
  ghost predicate Carries(b: seq<byte>, m: Msg) {
    m.data <= b
  }

  /** The queue of nodes is the abstract queue of messages, and what is being copied is what was taken. */
  ghost predicate Bodies(s: Sys) {
    && |s.pool.body| == s.max && (forall n :: 0 <= n < s.max ==> |s.pool.body[n]| == s.msgSize)
    && |s.mail| == |s.pool.queue|
    && (forall i :: 0 <= i < |s.mail| ==> s.pool.queue[i] < s.max && Carries(s.pool.body[s.pool.queue[i]], s.mail[i]))
    && (forall t <- s.calls :: Holds(s.calls[t]) ==> s.calls[t].n < s.max && |s.calls[t].msg.data| <= s.msgSize)
    && (forall t <- s.calls :: Holds(s.calls[t]) && (s.calls[t].Copying? || s.calls[t].done) ==>
          Carries(s.pool.body[s.calls[t].n], s.calls[t].msg))
  }

  /** While receivers sleep, the messages are at most as many as the receivers woken. */
  ghost predicate Awake(p: Pool, calls: Calls) {
    && NoDup(p.receivers)
    && (forall t <- p.receivers :: t in calls && calls[t].Waiting?)
    && (p.receivers != [] ==> |p.queue| + |p.receivers| <= |InReceive(calls)|)
  }

  /** The messages that were not urgent. */
  ghost function Ordinary(xs: seq<Msg>): seq<Msg> {
    if xs == [] then [] else (if xs[0].urgent then [] else [xs[0]]) + Ordinary(xs[1..])
  }

  /** Nothing is lost or made up, and messages that are not urgent keep their order. */
  ghost predicate InOrder(received: seq<Msg>, mail: seq<Msg>, stored: seq<Msg>) {
    && multiset(received) + multiset(mail) == multiset(stored)
    && Ordinary(received) + Ordinary(mail) == Ordinary(stored)
  }

  ghost predicate Nodes(s: Sys) {
    && Apart(s.pool, s.max) && Held(s.pool, s.calls, s.max)
    && |s.pool.free| + |s.pool.queue| + |Holders(s.calls)| == s.max
  }

  ghost predicate Inv(s: Sys) {
    Nodes(s) && Bodies(s) && Awake(s.pool, s.calls) && InOrder(s.received, s.mail, s.stored)
  }

  // ---- Counting callers ----

  lemma Enters(calls: Calls, t: Tid, c: Call)
    requires t !in calls || Holds(calls[t]) == Holds(c)
    ensures |Holders(calls[t := c])| == |Holders(calls)| + if Holds(c) && t !in calls then 1 else 0
    ensures |InReceive(calls[t := c])| == |InReceive(calls)| + if c.Waiting? && t !in calls then 1 else 0
  {
    EntersHolders(calls, t, c);
    EntersReceive(calls, t, c);
  }

  lemma EntersHolders(calls: Calls, t: Tid, c: Call)
    requires t !in calls || Holds(calls[t]) == Holds(c)
    ensures |Holders(calls[t := c])| == |Holders(calls)| + if Holds(c) && t !in calls then 1 else 0
  {
    if Holds(c) {
      assert Holders(calls[t := c]) == Holders(calls) + {t};
      assert t in Holders(calls) <==> t in calls;
    } else {
      assert Holders(calls[t := c]) == Holders(calls);
    }
  }

  lemma EntersReceive(calls: Calls, t: Tid, c: Call)
    requires t !in calls || Holds(calls[t]) == Holds(c)
    ensures |InReceive(calls[t := c])| == |InReceive(calls)| + if c.Waiting? && t !in calls then 1 else 0
  {
    if c.Waiting? {
      assert InReceive(calls[t := c]) == InReceive(calls) + {t};
      assert t in InReceive(calls) <==> t in calls;
    } else {
      assert InReceive(calls[t := c]) == InReceive(calls);
    }
  }

  lemma Leaves(calls: Calls, t: Tid)
    ensures |Holders(calls - {t})| == |Holders(calls)| - if t in calls && Holds(calls[t]) then 1 else 0
    ensures |InReceive(calls - {t})| == |InReceive(calls)| - if t in calls && calls[t].Waiting? then 1 else 0
  {
    assert Holders(calls - {t}) == Holders(calls) - {t};
    assert InReceive(calls - {t}) == InReceive(calls) - {t};
  }

  /** A waiting receiver that has taken a node counts as a holder instead. */
  lemma Changes(calls: Calls, t: Tid, c: Call)
    requires Holds(c) && (t in calls ==> calls[t].Waiting?)
    ensures |Holders(calls[t := c])| == |Holders(calls)| + 1
    ensures |InReceive(calls[t := c])| == |InReceive(calls)| - if t in calls then 1 else 0
  {
    assert calls[t := c] == (calls - {t})[t := c];
    Leaves(calls, t);
    Enters(calls - {t}, t, c);
  }

  /** The receivers that have been woken but have not run yet. */
  ghost function WokenReceivers(p: Pool, calls: Calls): set<Tid> {
    set t <- calls | calls[t].Waiting? && t !in p.receivers
  }

  lemma AwakeCount(p: Pool, calls: Calls)
    requires NoDup(p.receivers) && forall t <- p.receivers :: t in calls && calls[t].Waiting?
    ensures |InReceive(calls)| == |WokenReceivers(p, calls)| + |p.receivers|
  {
    Distinct(p.receivers);
    assert InReceive(calls) == WokenReceivers(p, calls) + Elements(p.receivers);
  }

  // ---- Messages in order ----

  lemma {:induction false} OrdinaryAdd(xs: seq<Msg>, ys: seq<Msg>)
    ensures Ordinary(xs + ys) == Ordinary(xs) + Ordinary(ys)
  {
    if xs == [] {
      assert xs + ys == ys;
    } else {
      OrdinaryAdd(xs[1..], ys);
      assert (xs + ys)[1..] == xs[1..] + ys && (xs + ys)[0] == xs[0];
      var first := if xs[0].urgent then [] else [xs[0]];
      assert first + (Ordinary(xs[1..]) + Ordinary(ys)) == (first + Ordinary(xs[1..])) + Ordinary(ys);
    }
  }

  lemma PutInOrder(received: seq<Msg>, mail: seq<Msg>, stored: seq<Msg>, m: Msg)
    requires InOrder(received, mail, stored)
    ensures InOrder(received, if m.urgent then [m] + mail else mail + [m], stored + [m])
  {
    PutOrdinary(received, mail, stored, m);
    hide Ordinary;
  }

  lemma PutOrdinary(received: seq<Msg>, mail: seq<Msg>, stored: seq<Msg>, m: Msg)
    requires Ordinary(received) + Ordinary(mail) == Ordinary(stored)
    ensures Ordinary(received) + Ordinary(if m.urgent then [m] + mail else mail + [m]) == Ordinary(stored + [m])
  {
    assert Ordinary([m]) == if m.urgent then [] else [m];
    hide Ordinary;
    OrdinaryAdd(stored, [m]);
    OrdinaryAdd(if m.urgent then [m] else mail, if m.urgent then mail else [m]);
    assert Ordinary(received) + (Ordinary(mail) + Ordinary([m])) == Ordinary(stored) + Ordinary([m]);
  }

  lemma TakenInOrder(received: seq<Msg>, mail: seq<Msg>, stored: seq<Msg>)
    requires InOrder(received, mail, stored) && mail != []
    ensures InOrder(received + [mail[0]], mail[1..], stored)
  {
    hide Ordinary;
    assert mail == [mail[0]] + mail[1..];
    TakenOrdinary(received, mail);
    TakenMultiset(received, mail);
  }

  lemma TakenMultiset(received: seq<Msg>, mail: seq<Msg>)
    requires mail != []
    ensures multiset(received + [mail[0]]) + multiset(mail[1..]) == multiset(received) + multiset(mail)
  {
    assert mail == [mail[0]] + mail[1..];
  }

  lemma TakenOrdinary(received: seq<Msg>, mail: seq<Msg>)
    requires mail != []
    ensures Ordinary(received + [mail[0]]) + Ordinary(mail[1..]) == Ordinary(received) + Ordinary(mail)
  {
    hide Ordinary;
    var m := [mail[0]];
    assert mail == m + mail[1..];
    OrdinaryAdd(m, mail[1..]);
    OrdinaryAdd(received, m);
  }

  // ---- Each section ----

  lemma BeginInv(s: Sys, t: Tid, msg: Msg)
    requires Inv(s) && t !in s.calls
    ensures Inv(Begun(s, t, msg))
  {
    hide NoDup, InReceive, Holders, Ordinary, Apart;
    if |msg.data| <= s.msgSize && s.pool.free != [] {
      TakenFreeApart(s.pool, s.max);
      Enters(s.calls, t, Filling(s.pool.free[0], msg, false));
    }
  }

  lemma FillInv(s: Sys, t: Tid)
    requires Inv(s) && Permitted(s, Fill(t))
    ensures Inv(Next(s, Fill(t)))
  {
    hide NoDup, InReceive, Holders, Ordinary;
    var Filling(n, msg, _) := s.calls[t];
    Enters(s.calls, t, Filling(n, msg, true));
  }

  lemma LinkNodes(s: Sys, t: Tid)
    requires Nodes(s) && t in s.calls && s.calls[t].Filling? && s.calls[t].done
    ensures Nodes(Put(s, t))
  {
    hide NoDup, InReceive, Holders, Apart;
    Leaves(s.calls, t);
    var Filling(n, msg, _) := s.calls[t];
    LinkedApart(s.pool, n, msg.urgent, s.max);
  }

  lemma LinkBodies(s: Sys, t: Tid)
    requires Bodies(s) && t in s.calls && s.calls[t].Filling? && s.calls[t].done
    ensures Bodies(Put(s, t))
  {
    hide Carries;
    var u := Put(s, t);
    var Filling(n, msg, _) := s.calls[t];
    var (d, k) := if msg.urgent then (1, 0) else (0, |s.mail|);
    forall i | 0 <= i < |u.mail|
      ensures u.pool.queue[i] < u.max && Carries(u.pool.body[u.pool.queue[i]], u.mail[i])
    {
      if i != k {
        assert u.pool.queue[i] == s.pool.queue[i - d] && u.mail[i] == s.mail[i - d];
      }
    }
    assert forall x <- u.calls :: x in s.calls && u.calls[x] == s.calls[x];
  }

  lemma LinkAwake(s: Sys, t: Tid)
    requires Awake(s.pool, s.calls) && t in s.calls && s.calls[t].Filling?
    ensures Awake(Put(s, t).pool, Put(s, t).calls)
  {
    hide NoDup, InReceive, Holders;
    Leaves(s.calls, t);
    if s.pool.receivers != [] {
      PopNoDup(s.pool.receivers);
    }
  }

  lemma LinkInv(s: Sys, t: Tid)
    requires Inv(s) && Permitted(s, Link(t))
    ensures Inv(Next(s, Link(t)))
  {
    hide Nodes, Bodies, Awake, InOrder;
    PutInOrder(s.received, s.mail, s.stored, s.calls[t].msg);
    LinkNodes(s, t);
    LinkBodies(s, t);
    LinkAwake(s, t);
  }

  lemma ReceiveInv(s: Sys, t: Tid, timeout: int, k: nat)
    requires Inv(s) && k <= |s.pool.receivers|
    requires t in s.calls ==> s.calls[t].Waiting? && t !in s.pool.receivers
    ensures Inv(Receive(s, t, timeout, k))
  {
    hide NoDup, InReceive, Holders, InOrder, WokenReceivers;
    var u := Receive(s, t, timeout, k);
    if s.pool.queue != [] {
      TakenFrontApart(s.pool, s.max);
      TakenInOrder(s.received, s.mail, s.stored);
      Changes(s.calls, t, Copying(s.pool.queue[0], s.mail[0]));
    } else if timeout == 0 {
      Leaves(s.calls, t);
      AwakeCount(s.pool, u.calls);
    } else {
      Enters(s.calls, t, Waiting(timeout));
      InsertedMembers(s.pool.receivers, k, t);
      AwakeCount(u.pool, u.calls);
    }
  }

  lemma GiveBackInv(s: Sys, t: Tid)
    requires Inv(s) && Permitted(s, GiveBack(t))
    ensures Inv(Next(s, GiveBack(t)))
  {
    hide NoDup, InReceive, Holders, InOrder, Apart;
    GivenBackApart(s.pool, s.calls[t].n, s.max);
    Leaves(s.calls, t);
  }

  lemma WokenInv(s: Sys, t: Tid)
    requires Inv(s) && t in s.pool.receivers
    ensures Inv(Woken(s, t)) && Inv(Woken(s, t).(calls := s.calls - {t}))
  {
    hide NoDup, InReceive, Holders, InOrder;
    WithoutNoDup(s.pool.receivers, t);
    WithoutCount(s.pool.receivers, t);
    Leaves(s.calls, t);
  }

  lemma NothingInOrder()
    ensures InOrder([], [], [])
  {
  }

  lemma ResetInv(s: Sys)
    requires Inv(s)
    ensures Inv(Next(s, Reset))
  {
    hide NoDup, Ordinary;
    var u := Next(s, Reset);
    EmptiedApart(s.pool, s.max);
    assert Holders(u.calls) == Holders(s.calls);
    NothingInOrder();
  }

  // ---- Runs ----

  lemma StepInv(s: Sys, e: Event)
    requires Inv(s) && Permitted(s, e)
    ensures Inv(Next(s, e)) && Next(s, e).max == s.max
  {
    hide Nodes, Bodies, Awake, InOrder;
    match e
    case Begin(t, msg) => BeginInv(s, t, msg);
    case Fill(t) => FillInv(s, t);
    case Link(t) => LinkInv(s, t);
    case Recv(t, timeout, k) => ReceiveInv(s, t, timeout, k);
    case Retry(t, elapsed, k) => ReceiveInv(s, t, Mailbox.Remaining(s.calls[t].timeout, elapsed), k);
    case GiveBack(t) => GiveBackInv(s, t);
    case Leave(t) => WokenInv(s, t);
    case ResumeThread(t) => WokenInv(s, t);
    case Reset => ResetInv(s);
  }

  ghost predicate PermittedRun(s: Sys, es: seq<Event>)
    requires Inv(s)
    decreases |es|
  {
    es == [] || (Permitted(s, es[0]) && (StepInv(s, es[0]); PermittedRun(Next(s, es[0]), es[1..])))
  }

  ghost function After(s: Sys, es: seq<Event>): (u: Sys)
    requires Inv(s) && PermittedRun(s, es)
    ensures Inv(u) && u.max == s.max
    decreases |es|
  {
    if es == [] then s
    else
      StepInv(s, es[0]);
      After(Next(s, es[0]), es[1..])
  }

  /** The queue rt_mq_init leaves behind. */
  ghost function Fresh(max: nat, msgSize: nat): (s: Sys)
    ensures Inv(s)
  {
    var p := Pool(Descending(max), [], {}, seq(max, _ => Zeros(msgSize)), []);
    var s := Sys(max, msgSize, p, [], map[], [], []);
    assert Holders(s.calls) == {};
    s
  }

  /** In every reachable state each node is free, queued or held by one thread, and none is in two places. */
  lemma NodesConserved(max: nat, msgSize: nat, es: seq<Event>)
    requires PermittedRun(Fresh(max, msgSize), es)
    ensures var s := After(Fresh(max, msgSize), es);
            var p := s.pool;
            && |p.free| + |p.queue| + |Holders(s.calls)| == max
            && NoDup(p.free) && NoDup(p.queue) && (forall n <- p.free :: n !in p.queue)
            && (forall t <- Holders(s.calls) ::
                  s.calls[t].n < max && s.calls[t].n !in p.free && s.calls[t].n !in p.queue)
            && forall t, u ::
                 t in Holders(s.calls) && u in Holders(s.calls) && t != u ==> s.calls[t].n != s.calls[u].n
  {
  }

  /** Messages that are not urgent are received in the order they were linked, and none is lost or received twice. */
  lemma OrdinaryInOrder(max: nat, msgSize: nat, es: seq<Event>)
    requires PermittedRun(Fresh(max, msgSize), es)
    ensures var s := After(Fresh(max, msgSize), es);
            && multiset(s.received) + multiset(s.mail) == multiset(s.stored)
            && Ordinary(s.received) <= Ordinary(s.stored)
  {
  }

  /** What a receiver copies out of its node starts with the bytes that were sent. */
  lemma Delivered(max: nat, msgSize: nat, es: seq<Event>, t: Tid, size: nat)
    requires PermittedRun(Fresh(max, msgSize), es)
    requires var s := After(Fresh(max, msgSize), es); t in s.calls && s.calls[t].Copying?
    ensures var s := After(Fresh(max, msgSize), es);
            var Copying(n, msg) := s.calls[t];
            var buffer := s.pool.body[n][..if size > s.msgSize then s.msgSize else size];
            forall i :: 0 <= i < size && i < |msg.data| ==> buffer[i] == msg.data[i]
  {
  }

  /** Once every woken receiver has run, nobody sleeps while a message is queued. */
  lemma NoLostWakeups(max: nat, msgSize: nat, es: seq<Event>)
    requires PermittedRun(Fresh(max, msgSize), es)
    ensures var s := After(Fresh(max, msgSize), es);
            s.pool.receivers != [] ==> |s.pool.queue| <= |WokenReceivers(s.pool, s.calls)|
  {
    var s := After(Fresh(max, msgSize), es);
    AwakeCount(s.pool, s.calls);
  }

  // ---- Threads that never run again ----

  predicate By(e: Event, t: Tid) {
    !e.Reset? && e.t == t
  }

  lemma OthersKeepCall(s: Sys, e: Event, t: Tid)
    requires Inv(s) && Permitted(s, e) && !By(e, t) && t in s.calls && t !in s.pool.receivers
    ensures t in Next(s, e).calls && Next(s, e).calls[t] == s.calls[t]
    ensures t !in Next(s, e).pool.receivers
  {
    hide Nodes, Awake, InOrder, Receive, Without, Inserted, Reversed;
    match e
    case Leave(x) => WithoutMembers(s.pool.receivers, x);
    case ResumeThread(x) => WithoutMembers(s.pool.receivers, x);
    case Recv(x, timeout, k) => OthersKeepReceive(s, x, timeout, k, t);
    case Retry(x, elapsed, k) => OthersKeepReceive(s, x, Mailbox.Remaining(s.calls[x].timeout, elapsed), k, t);
    case _ => {}
  }

  lemma OthersKeepReceive(s: Sys, x: Tid, timeout: int, k: nat, t: Tid)
    requires |s.mail| == |s.pool.queue| && k <= |s.pool.receivers|
    requires x != t && t in s.calls && t !in s.pool.receivers
    ensures var u := Receive(s, x, timeout, k);
            t in u.calls && u.calls[t] == s.calls[t] && t !in u.pool.receivers
  {
    hide Inserted;
    InsertedMembers(s.pool.receivers, k, x);
  }

  /** Thread t takes no step of the run: it has been deleted. */
  ghost predicate NeverRuns(t: Tid, es: seq<Event>) {
    forall e <- es :: !By(e, t)
  }

  /** The nodes that others than t can still use. */
  ghost function NodesLeft(s: Sys, t: Tid): nat {
    |s.pool.free| + |s.pool.queue| + |Holders(s.calls) - {t}|
  }

  /**
   * A thread that is deleted inside its call takes a node with it exactly if it holds one by then: in
   * every later state the node is free for nobody, and all the others are one fewer than there were.
   */
  lemma {:induction false} NodeLost(s: Sys, es: seq<Event>, t: Tid)
    requires Inv(s) && PermittedRun(s, es) && NeverRuns(t, es) && t in s.calls && t !in s.pool.receivers
    ensures var u := After(s, es);
            && t in u.calls && u.calls[t] == s.calls[t]
            && NodesLeft(u, t) == (if Holds(s.calls[t]) then s.max - 1 else s.max)
            && (Holds(s.calls[t]) ==> s.calls[t].n !in u.pool.free && s.calls[t].n !in u.pool.queue)
    decreases |es|
  {
    if es == [] {
      assert t in Holders(s.calls) <==> Holds(s.calls[t]);
      assert !Holds(s.calls[t]) ==> Holders(s.calls) - {t} == Holders(s.calls);
      assert OwnNode(s.pool, s.max, s.calls[t]);
    } else {
      OthersKeepCall(s, es[0], t);
      StepInv(s, es[0]);
      hide Inv, Next, NodesLeft;
      NodeLost(Next(s, es[0]), es[1..], t);
    }
  }

  lemma OneMore(s: Sys, e: Event, es: seq<Event>)
    requires Inv(s) && Permitted(s, e) && Inv(Next(s, e)) && PermittedRun(Next(s, e), es)
    ensures PermittedRun(s, [e] + es) && After(s, [e] + es) == After(Next(s, e), es)
  {
    hide Inv, Next, Permitted;
    assert ([e] + es)[1..] == es;
  }

  /** A queue of one node: its sender is deleted while it fills the node, and nothing is ever queued again. */
  lemma NodeLostByDeletion(msgSize: nat, msg: Msg, es: seq<Event>)
    requires |msg.data| <= msgSize && NeverRuns(1, es) && PermittedRun(Fresh(1, msgSize), [Begin(1, msg)] + es)
    ensures var u := After(Fresh(1, msgSize), [Begin(1, msg)] + es);
            u.pool.free == [] && u.pool.queue == []
  {
    var s := Fresh(1, msgSize);
    StepInv(s, Begin(1, msg));
    var u := Next(s, Begin(1, msg));
    assert 1 in u.calls && Holds(u.calls[1]) && u.max == 1 && 1 !in u.pool.receivers;
    hide Inv, Next, Fresh, NeverRuns;
    assert ([Begin(1, msg)] + es)[1..] == es;
    NodeLost(u, es, 1);
  }

  /** A woken receiver runs and takes a message. */
  lemma ReceiverRuns(s: Sys, t: Tid)
    requires Inv(s) && t in WokenReceivers(s.pool, s.calls) && s.pool.queue != []
    ensures Permitted(s, Retry(t, 0, 0))
    ensures var u := Next(s, Retry(t, 0, 0));
            && Inv(u) && WokenReceivers(u.pool, u.calls) == WokenReceivers(s.pool, s.calls) - {t}
            && u.pool.receivers == s.pool.receivers && |u.pool.queue| == |s.pool.queue| - 1
  {
    hide Inv, WokenReceivers, Next;
    ReceiverTakes(s, t);
    StepInv(s, Retry(t, 0, 0));
    StillWoken(s.pool, Next(s, Retry(t, 0, 0)).pool, s.calls, t, Next(s, Retry(t, 0, 0)).calls[t]);
  }

  lemma ReceiverTakes(s: Sys, t: Tid)
    requires Inv(s) && t in WokenReceivers(s.pool, s.calls) && s.pool.queue != []
    ensures Permitted(s, Retry(t, 0, 0))
    ensures var u := Next(s, Retry(t, 0, 0));
            && t in u.calls && u.calls == s.calls[t := u.calls[t]] && u.calls[t].Copying?
            && u.pool.receivers == s.pool.receivers && |u.pool.queue| == |s.pool.queue| - 1
  {
    hide Nodes, InOrder, Awake;
  }

  lemma StillWoken(p: Pool, q: Pool, calls: Calls, t: Tid, c: Call)
    requires q.receivers == p.receivers && c.Copying?
    ensures WokenReceivers(q, calls[t := c]) == WokenReceivers(p, calls) - {t}
  {
  }

  /** Only t, which never runs, could receive; another receiver sleeps beside a message. */
  ghost predicate Stranded(s: Sys, t: Tid) {
    s.pool.receivers != [] && s.pool.queue != [] && WokenReceivers(s.pool, s.calls) == {t}
  }

  /** All the woken receivers but t run. */
  lemma {:induction false} OthersRun(s: Sys, t: Tid) returns (es: seq<Event>)
    requires Inv(s) && t in WokenReceivers(s.pool, s.calls)
    requires s.pool.receivers != [] && |s.pool.queue| == |WokenReceivers(s.pool, s.calls)|
    ensures PermittedRun(s, es) && NeverRuns(t, es) && Stranded(After(s, es), t)
    decreases |WokenReceivers(s.pool, s.calls)|
  {
    hide Inv, Next, WokenReceivers;
    var w := WokenReceivers(s.pool, s.calls);
    es := [];
    if w == {t} {
      assert |w| == 1;
    } else {
      var x :| x in w && x != t;
      ReceiverRuns(s, x);
      var rest := OthersRun(Next(s, Retry(x, 0, 0)), t);
      es := [Retry(x, 0, 0)] + rest;
      assert es[1..] == rest;
    }
  }

  /** While receivers sleep, one more has been woken than there are messages. */
  ghost predicate Spare(p: Pool, calls: Calls) {
    p.receivers != [] ==> |p.queue| + |p.receivers| < |InReceive(calls)|
  }

  lemma SpareCount(s: Sys)
    requires Inv(s)
    ensures Spare(s.pool, s.calls) <==>
            s.pool.receivers == [] || |s.pool.queue| < |WokenReceivers(s.pool, s.calls)|
    ensures s.pool.receivers != [] ==> |s.pool.queue| <= |WokenReceivers(s.pool, s.calls)|
  {
    AwakeCount(s.pool, s.calls);
  }

  lemma SpareKept(s: Sys, e: Event, t: Tid)
    requires Inv(s) && Permitted(s, e) && Spare(s.pool, s.calls)
    requires Inv(Next(s, e)) && t in WokenReceivers(Next(s, e).pool, Next(s, e).calls)
    ensures Spare(Next(s, e).pool, Next(s, e).calls)
  {
    hide Spare, Inv, WokenReceivers;
    var u := Next(s, e);
    if u.pool.queue == [] {
      hide Next;
      SpareCount(u);
      assert WokenReceivers(u.pool, u.calls) != {};
    } else {
      match e
      case Begin(x, msg) => BeginSpare(s, x, msg);
      case Fill(x) => FillSpare(s, x);
      case Link(x) => LinkSpare(s, x);
      case Recv(x, timeout, k) => TakeSpare(s, x, timeout, k);
      case Retry(x, elapsed, k) => TakeSpare(s, x, Mailbox.Remaining(s.calls[x].timeout, elapsed), k);
      case GiveBack(x) => GiveBackSpare(s, x);
      case Leave(x) => WokenSpare(s, x);
      case ResumeThread(x) => WokenSpare(s, x);
      case Reset => ResetSpare(s);
    }
  }

  lemma BeginSpare(s: Sys, t: Tid, msg: Msg)
    requires Spare(s.pool, s.calls) && t !in s.calls
    ensures Spare(Begun(s, t, msg).pool, Begun(s, t, msg).calls)
  {
    hide InReceive, Holders;
    if s.pool.free != [] { Enters(s.calls, t, Filling(s.pool.free[0], msg, false)); }
  }

  lemma FillSpare(s: Sys, t: Tid)
    requires Inv(s) && Permitted(s, Fill(t)) && Spare(s.pool, s.calls)
    ensures Spare(Next(s, Fill(t)).pool, Next(s, Fill(t)).calls)
  {
    hide InReceive, Holders, Inv;
    Enters(s.calls, t, Next(s, Fill(t)).calls[t]);
  }

  lemma LinkSpare(s: Sys, t: Tid)
    requires t in s.calls && s.calls[t].Filling? && Spare(s.pool, s.calls)
    ensures Spare(Put(s, t).pool, Put(s, t).calls)
  {
    hide InReceive, Holders;
    Leaves(s.calls, t);
  }

  lemma TakeSpare(s: Sys, t: Tid, timeout: int, k: nat)
    requires Inv(s) && k <= |s.pool.receivers| && Receive(s, t, timeout, k).pool.queue != []
    requires (t in s.calls ==> s.calls[t].Waiting?) && Spare(s.pool, s.calls)
    ensures Spare(Receive(s, t, timeout, k).pool, Receive(s, t, timeout, k).calls)
  {
    hide InReceive, Holders, Nodes, InOrder, Awake;
    Changes(s.calls, t, Copying(s.pool.queue[0], s.mail[0]));
  }

  lemma GiveBackSpare(s: Sys, t: Tid)
    requires Inv(s) && Permitted(s, GiveBack(t)) && Spare(s.pool, s.calls)
    ensures Spare(Next(s, GiveBack(t)).pool, Next(s, GiveBack(t)).calls)
  {
    hide InReceive, Holders, Inv;
    Leaves(s.calls, t);
  }

  lemma WokenSpare(s: Sys, t: Tid)
    requires Inv(s) && t in s.pool.receivers && Spare(s.pool, s.calls)
    ensures Spare(Woken(s, t).pool, s.calls) && Spare(Woken(s, t).pool, s.calls - {t})
  {
    hide InReceive, Holders, Nodes, Bodies, InOrder;
    WithoutCount(s.pool.receivers, t);
    Leaves(s.calls, t);
    assert Woken(s, t).pool.receivers != [] ==> s.pool.receivers != [];
  }

  lemma ResetSpare(s: Sys)
    requires Inv(s)
    ensures Spare(Next(s, Reset).pool, Next(s, Reset).calls)
  {
    hide Inv;
  }

  /** Where one more is woken than there are messages, that one is not needed. */
  lemma {:induction false} SpareNotNeeded(s: Sys, es: seq<Event>, t: Tid)
    requires Inv(s) && t in WokenReceivers(s.pool, s.calls) && Spare(s.pool, s.calls)
    requires PermittedRun(s, es) && NeverRuns(t, es)
    ensures !Stranded(After(s, es), t)
    decreases |es|
  {
    hide Inv, Next, WokenReceivers, Spare;
    if es == [] {
      SpareCount(s);
    } else {
      StepInv(s, es[0]);
      StaysWoken(s, es[0], t);
      SpareKept(s, es[0], t);
      SpareNotNeeded(Next(s, es[0]), es[1..], t);
    }
  }

  lemma StaysWoken(s: Sys, e: Event, t: Tid)
    requires Inv(s) && Permitted(s, e) && !By(e, t) && t in WokenReceivers(s.pool, s.calls)
    ensures t in WokenReceivers(Next(s, e).pool, Next(s, e).calls)
  {
    hide Inv, Next;
    OthersKeepCall(s, e, t);
  }

  /**
   * A woken receiver that is deleted before it runs can leave another one asleep beside a message,
   * with nobody else woken, exactly if one sleeps and the messages are as many as the woken receivers.
   */
  lemma ReceiverStranded(s: Sys, t: Tid)
    requires Inv(s) && t in WokenReceivers(s.pool, s.calls)
    ensures (exists es :: PermittedRun(s, es) && NeverRuns(t, es) && Stranded(After(s, es), t)) <==>
            s.pool.receivers != [] && |s.pool.queue| == |WokenReceivers(s.pool, s.calls)|
  {
    hide Inv, WokenReceivers, Stranded, NeverRuns;
    SpareCount(s);
    if s.pool.receivers != [] && |s.pool.queue| == |WokenReceivers(s.pool, s.calls)| {
      var es := OthersRun(s, t);
    } else {
      forall es | PermittedRun(s, es) && NeverRuns(t, es) ensures !Stranded(After(s, es), t) {
        SpareNotNeeded(s, es, t);
      }
    }
  }

  /** With two receivers asleep, a message that is sent wakes the first. */
  lemma MessageSent(s: Sys, msg: Msg)
    requires Inv(s) && |msg.data| <= s.msgSize && s.pool.free != []
    requires s.pool.queue == [] && s.pool.receivers == [1, 2] && s.calls == map[1 := Waiting(-1), 2 := Waiting(-1)]
    ensures var es := [Begin(3, msg), Fill(3), Link(3)];
            PermittedRun(s, es) && Stranded(After(s, es), 1)
  {
    hide Inv;
    var (e1, e2, e3) := (Begin(3, msg), Fill(3), Link(3));
    StepInv(s, e1);
    var s1 := Next(s, e1);
    assert s1.pool.receivers == [1, 2] && s1.pool.queue == [];
    assert s1.calls == s.calls[3 := Filling(s.pool.free[0], msg, false)];
    StepInv(s1, e2);
    var s2 := Next(s1, e2);
    StepInv(s2, e3);
    var s3 := Next(s2, e3);
    assert s3.pool.receivers == [2] && s3.pool.queue == [s.pool.free[0]] && s3.calls == s.calls;
    assert WokenReceivers(s3.pool, s3.calls) == {1};
    hide Next, Permitted, WokenReceivers;
    OneMore(s2, e3, []);
    OneMore(s1, e2, [e3]);
    OneMore(s, e1, [e2, e3]);
    assert [e2] + [e3] == [e2, e3] && [e1] + [e2, e3] == [e1, e2, e3];
  }

  /** Two receivers sleep; a message wakes the first, which is deleted: the second sleeps beside the message. */
  lemma ReceiverStrandedByDeletion(msgSize: nat, msg: Msg)
    requires |msg.data| <= msgSize
    ensures var es := [Recv(1, -1, 0), Recv(2, -1, 1), Begin(3, msg), Fill(3), Link(3)];
            PermittedRun(Fresh(1, msgSize), es) && Stranded(After(Fresh(1, msgSize), es), 1)
  {
    hide Inv, Stranded;
    var s := Fresh(1, msgSize);
    var (e1, e2, es) := (Recv(1, -1, 0), Recv(2, -1, 1), [Begin(3, msg), Fill(3), Link(3)]);
    StepInv(s, e1);
    var s1 := Next(s, e1);
    assert s1.pool == s.pool.(receivers := [1]) && s1.calls == map[1 := Waiting(-1)];
    StepInv(s1, e2);
    var s2 := Next(s1, e2);
    assert s2.pool.receivers == [1, 2] && s2.calls == map[1 := Waiting(-1), 2 := Waiting(-1)];
    hide Next, Permitted, Fresh;
    MessageSent(s2, msg);
    OneMore(s1, e2, es);
    OneMore(s, e1, [e2] + es);
    assert [e1] + ([e2] + es) == [e1, e2] + es;
  }
}

/**
 * The mailbox of ipc.c. Sending and receiving are split at the point where the caller sleeps:
 * each region with interrupts disabled is one step.
 */
module Mailbox {
  import opened Base
  import opened Lists

  type Tid = nat

  /** The mailbox as its callers see it: mail in arrival order and the two lists of sleepers. */
  datatype Box = Box(size: nat, mail: seq<u32>, receivers: seq<Tid>, senders: seq<Tid>)

  datatype Outcome = Sent | Received(value: u32) | Asleep | Full | Timedout

  function Tail(xs: seq<Tid>): seq<Tid> {
    if xs == [] then [] else xs[1..]
  }

  /** rt_mb_send_wait from taking the interrupt lock to sleeping or returning; k is the place among the sleepers. */
  function SendRegion(b: Box, t: Tid, value: u32, timeout: int, k: nat): (Box, Outcome)
    requires k <= |b.senders|
  {
    if |b.mail| == b.size then
      if timeout == 0 then (b, Full) else (b.(senders := Inserted(b.senders, k, t)), Asleep)
    else (b.(mail := b.mail + [value], receivers := Tail(b.receivers)), Sent)
  }

  /** The same of rt_mb_recv. */
  function RecvRegion(b: Box, t: Tid, timeout: int, k: nat): (Box, Outcome)
    requires k <= |b.receivers|
  {
    if b.mail == [] then
      if timeout == 0 then (b, Timedout) else (b.(receivers := Inserted(b.receivers, k, t)), Asleep)
    else (b.(mail := b.mail[1..], senders := Tail(b.senders)), Received(b.mail[0]))
  }

  /** RT_IPC_CMD_RESET. */
  function ResetBox(b: Box): Box {
    Box(b.size, [], [], [])
  }

  /** The waiting time left after a wake-up; a negative one means forever and stays. */
  function Remaining(timeout: int, elapsed: u32): int {
    if timeout <= 0 then timeout
    else
      var left := Signed(Wrap(timeout - elapsed));
      if left < 0 then 0 else left
  }

  // ---- The protocol ----

  datatype Call = Sending(value: u32, timeout: int) | Receiving(timeout: int)

  /** calls holds the threads inside a blocked call; the logs run from the last reset. */
  datatype Sys = Sys(box: Box, calls: map<Tid, Call>, stored: seq<u32>, received: seq<u32>)

  datatype Event =
    | Send(t: Tid, value: u32, timeout: int, k: nat)
    | Recv(t: Tid, timeout: int, k: nat)
    | Retry(t: Tid, elapsed: u32, k: nat)
    | Leave(t: Tid)
    | ResumeThread(t: Tid)
    | Reset

  predicate IsAsleep(s: Sys, t: Tid) {
    t in s.box.receivers || t in s.box.senders
  }

  /** A thread that is inside no call may start one, a woken one runs on, a sleeper may be woken or taken away. */
  predicate Permitted(s: Sys, e: Event) {
    match e
    case Send(t, _, _, k) => t !in s.calls && k <= |s.box.senders|
    case Recv(t, _, k) => t !in s.calls && k <= |s.box.receivers|
    case Retry(t, _, k) => t in s.calls && !IsAsleep(s, t) && k <= |s.box.senders| && k <= |s.box.receivers|
    case Leave(t) => IsAsleep(s, t)
    case ResumeThread(t) => IsAsleep(s, t)
    case Reset => true
  }

  /** The step of a thread with the waiting time it has left. */
  function Step(s: Sys, t: Tid, c: Call, k: nat): Sys
    requires if c.Sending? then k <= |s.box.senders| else k <= |s.box.receivers|
  {
    var (b, out) :=
      if c.Sending? then SendRegion(s.box, t, c.value, c.timeout, k) else RecvRegion(s.box, t, c.timeout, k);
    match out
    case Asleep => s.(box := b, calls := s.calls[t := c])
    case Sent => Sys(b, s.calls - {t}, s.stored + [c.value], s.received)
    case Received(v) => Sys(b, s.calls - {t}, s.stored, s.received + [v])
    case _ => s.(box := b, calls := s.calls - {t})
  }

  function Woken(s: Sys, t: Tid): Sys {
    s.(box := s.box.(receivers := Without(s.box.receivers, t), senders := Without(s.box.senders, t)))
  }

  function Next(s: Sys, e: Event): Sys
    requires Permitted(s, e)
  {
    match e
    case Send(t, value, timeout, k) => Step(s, t, Sending(value, timeout), k)
    case Recv(t, timeout, k) => Step(s, t, Receiving(timeout), k)
    case Retry(t, elapsed, k) =>
      var c := s.calls[t];
      Step(s, t, c.(timeout := Remaining(c.timeout, elapsed)), k)
    case Leave(t) => Woken(s, t).(calls := s.calls - {t})
    case ResumeThread(t) => Woken(s, t)
    case Reset => Sys(ResetBox(s.box), map t | t in s.calls && !IsAsleep(s, t) :: s.calls[t], [], [])
  }

  /** Receivers that have been woken but have not run yet. */
  ghost function WokenReceivers(s: Sys): set<Tid> {
    set t <- s.calls | s.calls[t].Receiving? && t !in s.box.receivers
  }

  ghost function WokenSenders(s: Sys): set<Tid> {
    set t <- s.calls | s.calls[t].Sending? && t !in s.box.senders
  }

  /** The threads in blocked calls of one kind, asleep or woken. */
  ghost function InReceive(calls: map<Tid, Call>): set<Tid> {
    set t <- calls | calls[t].Receiving?
  }

  ghost function InSend(calls: map<Tid, Call>): set<Tid> {
    set t <- calls | calls[t].Sending?
  }

  /** The sleepers are in blocked calls, each in its own list once. */
  ghost predicate Listed(s: Sys) {
    && NoDup(s.box.receivers) && NoDup(s.box.senders)
    && (forall t <- s.box.receivers :: t in s.calls && s.calls[t].Receiving?)
    && (forall t <- s.box.senders :: t in s.calls && s.calls[t].Sending?)
  }

  /** While receivers sleep, the mail is at most as many as the receivers woken; senders and room alike. */
  ghost predicate Balanced(s: Sys) {
    && |s.box.mail| <= s.box.size
    && (s.box.receivers != [] ==> |s.box.mail| + |s.box.receivers| <= |InReceive(s.calls)|)
    && (s.box.senders != [] ==> s.box.size - |s.box.mail| + |s.box.senders| <= |InSend(s.calls)|)
  }

  /** No wake-up is lost, and mail leaves in the order it was stored. */
  ghost predicate Inv(s: Sys) {
    Listed(s) && Balanced(s) && s.received + s.box.mail == s.stored
  }

  /** Counting the sleepers of a list counts the callers that are not woken. */
  lemma WokenCount(s: Sys)
    requires Listed(s)
    ensures |WokenReceivers(s)| == |InReceive(s.calls)| - |s.box.receivers|
    ensures |WokenSenders(s)| == |InSend(s.calls)| - |s.box.senders|
  {
    var (rs, ss) := (Elements(s.box.receivers), Elements(s.box.senders));
    Distinct(s.box.receivers);
    Distinct(s.box.senders);
    assert InReceive(s.calls) == WokenReceivers(s) + rs && WokenReceivers(s) * rs == {};
    assert InSend(s.calls) == WokenSenders(s) + ss && WokenSenders(s) * ss == {};
  }

  /** A caller that enters raises one count by one, unless it was in the call already. */
  lemma Enters(calls: map<Tid, Call>, t: Tid, c: Call)
    requires t in calls ==> calls[t].Sending? == c.Sending?
    ensures |InReceive(calls[t := c])| == |InReceive(calls)| + if c.Receiving? && t !in calls then 1 else 0
    ensures |InSend(calls[t := c])| == |InSend(calls)| + if c.Sending? && t !in calls then 1 else 0
  {
    var more := calls[t := c];
    if c.Receiving? {
      assert InReceive(more) == InReceive(calls) + {t};
      assert InSend(more) == InSend(calls);
    } else {
      assert InSend(more) == InSend(calls) + {t};
      assert InReceive(more) == InReceive(calls);
    }
    if t in calls {
      assert t in if c.Receiving? then InReceive(calls) else InSend(calls);
    } else {
      assert t !in InReceive(calls) && t !in InSend(calls);
    }
  }

  lemma Leaves(calls: map<Tid, Call>, t: Tid)
    ensures |InReceive(calls - {t})| == |InReceive(calls)| - if t in calls && calls[t].Receiving? then 1 else 0
    ensures |InSend(calls - {t})| == |InSend(calls)| - if t in calls && calls[t].Sending? then 1 else 0
  {
    assert InReceive(calls - {t}) == InReceive(calls) - {t};
    assert InSend(calls - {t}) == InSend(calls) - {t};
  }

  /** A thread that falls asleep, alone or again. */
  lemma SleepInv(s: Sys, t: Tid, c: Call, k: nat)
    requires Inv(s) && !IsAsleep(s, t) && c.timeout != 0
    requires t in s.calls ==> s.calls[t].Sending? == c.Sending?
    requires if c.Sending? then k <= |s.box.senders| && |s.box.mail| == s.box.size
             else k <= |s.box.receivers| && s.box.mail == []
    ensures Inv(Step(s, t, c, k))
  {
    hide InReceive, InSend, WokenReceivers, WokenSenders;
    var u := Step(s, t, c, k);
    Enters(s.calls, t, c);
    InsertedMembers(if c.Sending? then s.box.senders else s.box.receivers, k, t);
    assert Listed(u);
    WokenCount(u);
  }

  /** A sender that finds room: one more mail, and one more woken receiver if any was asleep. */
  lemma SentInv(s: Sys, t: Tid, c: Call, k: nat)
    requires Inv(s) && !IsAsleep(s, t) && c.Sending? && k <= |s.box.senders|
    requires t in s.calls ==> s.calls[t].Sending?
    requires |s.box.mail| < s.box.size
    ensures Inv(Step(s, t, c, k))
  {
    hide InReceive, InSend;
    Leaves(s.calls, t);
    assert s.received + (s.box.mail + [c.value]) == (s.received + s.box.mail) + [c.value];
  }

  lemma ReceivedInv(s: Sys, t: Tid, c: Call, k: nat)
    requires Inv(s) && !IsAsleep(s, t) && c.Receiving? && k <= |s.box.receivers|
    requires t in s.calls ==> s.calls[t].Receiving?
    requires s.box.mail != []
    ensures Inv(Step(s, t, c, k))
  {
    hide InReceive, InSend;
    Leaves(s.calls, t);
    assert (s.received + [s.box.mail[0]]) + s.box.mail[1..] == s.received + s.box.mail;
  }

  lemma RegionInv(s: Sys, t: Tid, c: Call, k: nat)
    requires Inv(s) && !IsAsleep(s, t)
    requires t in s.calls ==> s.calls[t].Sending? == c.Sending?
    requires if c.Sending? then k <= |s.box.senders| else k <= |s.box.receivers|
    ensures Inv(Step(s, t, c, k))
  {
    hide Listed, InReceive, InSend;
    if (if c.Sending? then |s.box.mail| < s.box.size else s.box.mail != []) {
      if c.Sending? { SentInv(s, t, c, k); } else { ReceivedInv(s, t, c, k); }
    } else if c.timeout == 0 {
      // The caller gives up: it found the mailbox full, or empty.
      Leaves(s.calls, t);
      GivesUpListed(s, t, s.(calls := s.calls - {t}));
      assert Step(s, t, c, k) == s.(calls := s.calls - {t});
      WokenCount(s.(calls := s.calls - {t}));
    } else {
      SleepInv(s, t, c, k);
    }
  }

  lemma GivesUpListed(s: Sys, t: Tid, u: Sys)
    requires Listed(s) && !IsAsleep(s, t) && u == s.(calls := s.calls - {t})
    ensures Listed(u)
  {
  }

  /** A sleeper that leaves its list, by a timeout, by being deleted, or resumed by another thread. */
  lemma WokenInv(s: Sys, t: Tid)
    requires Inv(s) && IsAsleep(s, t)
    ensures Inv(Woken(s, t)) && Inv(Woken(s, t).(calls := s.calls - {t}))
  {
    hide InReceive, InSend, NoDup;
    WithoutNoDup(s.box.receivers, t);
    WithoutNoDup(s.box.senders, t);
    WithoutCount(s.box.receivers, t);
    WithoutCount(s.box.senders, t);
    Leaves(s.calls, t);
  }

  /** Every step, by whichever thread, keeps the invariant. */
  lemma StepInv(s: Sys, e: Event)
    requires Inv(s) && Permitted(s, e)
    ensures Inv(Next(s, e))
  {
    hide Step, Woken;
    match e
    case Send(t, value, timeout, k) =>
      assert !IsAsleep(s, t);
      RegionInv(s, t, Sending(value, timeout), k);
    case Recv(t, timeout, k) =>
      assert !IsAsleep(s, t);
      RegionInv(s, t, Receiving(timeout), k);
    case Retry(t, elapsed, k) =>
      var c := s.calls[t];
      RegionInv(s, t, c.(timeout := Remaining(c.timeout, elapsed)), k);
    case Leave(t) => WokenInv(s, t);
    case ResumeThread(t) => WokenInv(s, t);
    case Reset => {}
  }

  ghost predicate PermittedRun(s: Sys, es: seq<Event>)
    decreases |es|
  {
    es == [] || (Permitted(s, es[0]) && PermittedRun(Next(s, es[0]), es[1..]))
  }

  ghost function After(s: Sys, es: seq<Event>): Sys
    requires PermittedRun(s, es)
    decreases |es|
  {
    if es == [] then s else After(Next(s, es[0]), es[1..])
  }

  lemma {:induction false} RunInv(s: Sys, es: seq<Event>)
    requires Inv(s) && PermittedRun(s, es)
    ensures Inv(After(s, es))
    decreases |es|
  {
    if es != [] {
      StepInv(s, es[0]);
      RunInv(Next(s, es[0]), es[1..]);
    }
  }

  ghost function Fresh(size: nat): Sys {
    Sys(Box(size, [], [], []), map[], [], [])
  }

  /**
   * In every reachable state, mail was taken out in the order it was put in, and once every woken
   * thread has run, nobody sleeps for want of what is there.
   */
  lemma NoLostWakeups(size: nat, es: seq<Event>)
    requires PermittedRun(Fresh(size), es)
    ensures var s := After(Fresh(size), es);
            && s.received <= s.stored && s.box.mail == s.stored[|s.received|..]
            && (s.box.receivers != [] ==> |s.box.mail| <= |WokenReceivers(s)|)
            && (s.box.senders != [] ==> size - |s.box.mail| <= |WokenSenders(s)|)
            && (WokenReceivers(s) == {} && s.box.receivers != [] ==> s.box.mail == [])
            && (WokenSenders(s) == {} && s.box.senders != [] ==> |s.box.mail| == size)
            && (WokenReceivers(s) + WokenSenders(s) == {} && s.box.receivers != [] && s.box.senders != [] ==> size == 0)
  {
    RunInv(Fresh(size), es);
    SizeKept(Fresh(size), es);
    WokenCount(After(Fresh(size), es));
  }

  lemma {:induction false} SizeKept(s: Sys, es: seq<Event>)
    requires PermittedRun(s, es)
    ensures After(s, es).box.size == s.box.size
    decreases |es|
  {
    if es != [] {
      SizeKept(Next(s, es[0]), es[1..]);
    }
  }

  // ---- Deleted threads ----

  /** A receiver sleeps although there is mail, and no woken receiver is left to take it. */
  ghost predicate ReceiverStranded(s: Sys) {
    s.box.receivers != [] && s.box.mail != [] && WokenReceivers(s) == {}
  }

  /** A sender sleeps although there is room, and no woken sender is left to use it. */
  ghost predicate SenderStranded(s: Sys) {
    s.box.senders != [] && |s.box.mail| < s.box.size && WokenSenders(s) == {}
  }

  /** A woken receiver runs and takes mail. */
  lemma ReceiverRuns(s: Sys, t: Tid)
    requires Listed(s) && t in WokenReceivers(s) && s.box.mail != []
    ensures Permitted(s, Retry(t, 0, 0))
    ensures var u := Next(s, Retry(t, 0, 0));
            && Listed(u) && WokenReceivers(u) == WokenReceivers(s) - {t}
            && u.box.receivers == s.box.receivers && |u.box.mail| == |s.box.mail| - 1
  {
    assert t !in s.box.senders;
    var u := Next(s, Retry(t, 0, 0));
    assert u.calls == s.calls - {t};
  }

  lemma SenderRuns(s: Sys, t: Tid)
    requires Listed(s) && t in WokenSenders(s) && |s.box.mail| < s.box.size
    ensures Permitted(s, Retry(t, 0, 0))
    ensures var u := Next(s, Retry(t, 0, 0));
            && Listed(u) && WokenSenders(u) == WokenSenders(s) - {t}
            && u.box.senders == s.box.senders && |u.box.mail| == |s.box.mail| + 1 && u.box.size == s.box.size
  {
    assert t !in s.box.receivers;
    var u := Next(s, Retry(t, 0, 0));
    assert u.calls == s.calls - {t};
  }

  /** With more mail than woken receivers, some receiver can come to be stranded. */
  lemma {:induction false} ReceiversRunOut(s: Sys) returns (es: seq<Event>)
    requires Listed(s) && s.box.receivers != [] && |s.box.mail| > |WokenReceivers(s)|
    ensures PermittedRun(s, es) && ReceiverStranded(After(s, es))
    decreases |WokenReceivers(s)|
  {
    es := [];
    if WokenReceivers(s) != {} {
      var t :| t in WokenReceivers(s);
      ReceiverRuns(s, t);
      hide Listed, Next, WokenReceivers;
      var rest := ReceiversRunOut(Next(s, Retry(t, 0, 0)));
      es := [Retry(t, 0, 0)] + rest;
      assert es[1..] == rest;
    }
  }

  lemma {:induction false} SendersRunOut(s: Sys) returns (es: seq<Event>)
    requires Listed(s) && s.box.senders != [] && s.box.size - |s.box.mail| > |WokenSenders(s)|
    ensures PermittedRun(s, es) && SenderStranded(After(s, es))
    decreases |WokenSenders(s)|
  {
    es := [];
    if WokenSenders(s) != {} {
      var t :| t in WokenSenders(s);
      SenderRuns(s, t);
      hide Listed, Next, WokenSenders;
      var rest := SendersRunOut(Next(s, Retry(t, 0, 0)));
      es := [Retry(t, 0, 0)] + rest;
      assert es[1..] == rest;
    }
  }

  /** Nobody is stranded where the invariant holds. */
  lemma NobodyStranded(s: Sys, es: seq<Event>)
    requires Inv(s) && PermittedRun(s, es)
    ensures !ReceiverStranded(After(s, es)) && !SenderStranded(After(s, es))
  {
    RunInv(s, es);
    WokenCount(After(s, es));
  }

  lemma DeletedCounts(s: Sys, t: Tid)
    requires Inv(s) && t in s.calls && !IsAsleep(s, t)
    ensures var u := s.(calls := s.calls - {t});
            && Listed(u) && WokenReceivers(u) == WokenReceivers(s) - {t} && WokenSenders(u) == WokenSenders(s) - {t}
  {
  }

  /**
   * Deleting a woken receiver before it runs lets some later run strand another one exactly if one
   * sleeps and the woken receivers were no more than the mail.
   */
  lemma DeletedWokenReceiver(s: Sys, t: Tid)
    requires Inv(s) && t in WokenReceivers(s)
    ensures var u := s.(calls := s.calls - {t});
            (exists es :: PermittedRun(u, es) && ReceiverStranded(After(u, es)))
            <==> s.box.receivers != [] && |WokenReceivers(s)| <= |s.box.mail|
  {
    var u := s.(calls := s.calls - {t});
    DeletedCounts(s, t);
    WokenCount(s);
    WokenCount(u);
    if s.box.receivers != [] && |WokenReceivers(s)| <= |s.box.mail| {
      var es := ReceiversRunOut(u);
    } else {
      Leaves(s.calls, t);
      assert Inv(u);
      forall es | PermittedRun(u, es) ensures !ReceiverStranded(After(u, es)) { NobodyStranded(u, es); }
    }
  }

  /** The same for a woken sender, room, and the senders asleep. */
  lemma DeletedWokenSender(s: Sys, t: Tid)
    requires Inv(s) && t in WokenSenders(s)
    ensures var u := s.(calls := s.calls - {t});
            (exists es :: PermittedRun(u, es) && SenderStranded(After(u, es)))
            <==> s.box.senders != [] && |WokenSenders(s)| <= s.box.size - |s.box.mail|
  {
    var u := s.(calls := s.calls - {t});
    DeletedCounts(s, t);
    WokenCount(s);
    WokenCount(u);
    if s.box.senders != [] && |WokenSenders(s)| <= s.box.size - |s.box.mail| {
      var es := SendersRunOut(u);
    } else {
      Leaves(s.calls, t);
      assert Inv(u);
      forall es | PermittedRun(u, es) ensures !SenderStranded(After(u, es)) { NobodyStranded(u, es); }
    }
  }

  /** Receivers 1 and 2 sleep, mail is sent, and woken receiver 1 is deleted: 2 sleeps on beside the mail. */
  lemma ReceiverStrandedByDeletion(value: u32)
    ensures var es := [Recv(1, -1, 0), Recv(2, -1, 1), Send(3, value, 0, 0)];
            && PermittedRun(Fresh(1), es)
            && var s := After(Fresh(1), es); 1 in WokenReceivers(s) && ReceiverStranded(s.(calls := s.calls - {1}))
  {
    hide Permitted, Next, Step, SendRegion, RecvRegion, IsAsleep, Fresh;
    var (e1, e2, e3) := (Recv(1, -1, 0), Recv(2, -1, 1), Send(3, value, 0, 0));
    var (s, s1, s2, s3) := (Fresh(1), Stranding(value, 1), Stranding(value, 2), Stranding(value, 3));
    StrandingSteps(value);
    assert [e1, e2, e3][1..] == [e2, e3] && [e2, e3][1..] == [e3] && [e3][1..] == [];
    assert PermittedRun(s2, [e3]) && After(s2, [e3]) == s3;
    assert PermittedRun(s1, [e2, e3]) && After(s1, [e2, e3]) == s3;
  }

  /** The states of that run. */
  ghost function Stranding(value: u32, n: nat): Sys {
    if n == 1 then Sys(Box(1, [], [1], []), map[1 := Receiving(-1)], [], [])
    else
      var calls := map[1 := Receiving(-1), 2 := Receiving(-1)];
      if n == 2 then Sys(Box(1, [], [1, 2], []), calls, [], [])
      else Sys(Box(1, [value], [2], []), calls, [value], [])
  }

  lemma StrandingSteps(value: u32)
    ensures Permitted(Fresh(1), Recv(1, -1, 0)) && Next(Fresh(1), Recv(1, -1, 0)) == Stranding(value, 1)
    ensures var (s, e) := (Stranding(value, 1), Recv(2, -1, 1)); Permitted(s, e) && Next(s, e) == Stranding(value, 2)
    ensures var (s, e) := (Stranding(value, 2), Send(3, value, 0, 0));
            Permitted(s, e) && Next(s, e) == Stranding(value, 3)
  {
  }

  // ---- The ring buffer ----

  /** struct rt_mailbox: a ring of words with two offsets and a count. */
  class Ring {
    const size: nat
    const pool: array<u32>
    var entry: nat
    var inOffset: nat
    var outOffset: nat
    var receivers: seq<Tid>
    var senders: seq<Tid>

    ghost predicate Valid()
      reads this`entry, this`inOffset, this`outOffset
    {
      && pool.Length == size && entry <= size && inOffset <= size
      && (if size == 0 then outOffset == 0 else outOffset < size)
      && inOffset == if outOffset + entry < size then outOffset + entry else outOffset + entry - size
    }

    /** The mail from the out offset on, past the end of the ring if need be. */
    ghost function Mail(): (m: seq<u32>)
      requires Valid()
      reads this`entry, this`inOffset, this`outOffset, pool
      ensures |m| == entry
      ensures forall i :: 0 <= i < entry ==> m[i] == pool[if outOffset + i < size then outOffset + i
          else outOffset + i - size]
    {
      if outOffset + entry <= size then pool[outOffset..outOffset + entry]
      else pool[outOffset..] + pool[..outOffset + entry - size]
    }

    ghost function View(): Box
      requires Valid()
      reads this, pool
    {
      Box(size, Mail(), receivers, senders)
    }

    /** rt_mb_create: the size is kept in 16 bits. */
    constructor (n: nat)
      ensures Valid() && fresh(pool)
      ensures View() == Box(n % 65536, [], [], [])
    {
      size := n % 65536;
      pool := new u32[n % 65536];
      entry, inOffset, outOffset := 0, 0, 0;
      receivers, senders := [], [];
    }

    method Send(t: Tid, value: u32, timeout: int, k: nat) returns (out: Outcome)
      requires Valid() && k <= |senders|
      modifies this`entry, this`inOffset, this`receivers, this`senders, pool
      ensures Valid()
      ensures (View(), out) == SendRegion(old(View()), t, value, timeout, k)
    {
      hide Mail;
      if entry == size && timeout == 0 {
        return Full;
      }
      if entry == size {
        senders := Inserted(senders, k, t);
        assert Mail() == old(Mail());
        return Asleep;
      }
      ghost var before := Mail();
      pool[inOffset] := value;
      inOffset := inOffset + 1;
      if inOffset >= size {
        inOffset := 0;
      }
      entry := entry + 1;
      receivers := Tail(receivers);
      assert Mail() == before + [value];
      out := Sent;
    }

    method Recv(t: Tid, timeout: int, k: nat) returns (out: Outcome)
      requires Valid() && k <= |receivers|
      modifies this`entry, this`outOffset, this`receivers, this`senders
      ensures Valid()
      ensures (View(), out) == RecvRegion(old(View()), t, timeout, k)
    {
      hide Mail;
      if entry == 0 && timeout == 0 {
        return Timedout;
      }
      if entry == 0 {
        receivers := Inserted(receivers, k, t);
        assert Mail() == old(Mail());
        return Asleep;
      }
      ghost var before := Mail();
      var value := pool[outOffset];
      outOffset := outOffset + 1;
      if outOffset >= size {
        outOffset := 0;
      }
      entry := entry - 1;
      senders := Tail(senders);
      assert Mail() == before[1..];
      out := Received(value);
    }

    /** RT_IPC_CMD_RESET wakes every sleeper and empties the ring. */
    method Reset()
      requires Valid()
      modifies this`entry, this`inOffset, this`outOffset, this`receivers, this`senders
      ensures Valid()
      ensures View() == ResetBox(old(View()))
    {
      while receivers != []
        modifies this`receivers
        decreases |receivers|
      {
        receivers := receivers[1..];
      }
      while senders != []
        modifies this`senders
        decreases |senders|
      {
        senders := senders[1..];
      }
      entry, inOffset, outOffset := 0, 0, 0;
    }
  }
}

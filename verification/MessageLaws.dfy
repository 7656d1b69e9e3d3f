/** What a call on a message queue is answered, said of the messages and of the callers that hold nodes. */
module MessageLaws {
  import opened Base
  import opened Lists
  import opened MessageNodes
  import opened MessageQueue

  /** A sender gets a node exactly if its message fits and fewer than max_msgs are queued or held by callers. */
  lemma BeginExactly(s: Sys, t: Tid, msg: Msg)
    requires Inv(s) && t !in s.calls
    ensures var u := Next(s, Begin(t, msg));
            && u.mail == s.mail && u.stored == s.stored && u.received == s.received
            && u.pool.receivers == s.pool.receivers && u.pool.queue == s.pool.queue
            && (t in u.calls <==> |msg.data| <= s.msgSize && |s.mail| + |Holders(s.calls)| < s.max)
            && u.calls == (if t in u.calls then s.calls[t := u.calls[t]] else s.calls)
            && (t in u.calls ==> u.calls[t].Filling? && u.calls[t].msg == msg && !u.calls[t].done)
  {
    hide Holders, InReceive, Held, InOrder, NoDup;
  }

  /** Linking stores the message, an urgent one ahead of all others, and wakes the first receiver asleep. */
  lemma LinkExactly(s: Sys, t: Tid)
    requires Inv(s) && Permitted(s, Link(t))
    ensures var (u, msg) := (Next(s, Link(t)), s.calls[t].msg);
            && u.stored == s.stored + [msg] && u.received == s.received && u.calls == s.calls - {t}
            && (if msg.urgent then u.mail == [msg] + s.mail else u.mail == s.mail + [msg])
            && if s.pool.receivers == [] then u.pool.receivers == []
               else s.pool.receivers == [s.pool.receivers[0]] + u.pool.receivers
  {
    hide Inv;
  }

  /** A receiver, new or woken, takes the first message exactly if there is one; else it returns or sleeps. */
  lemma ReceiveExactly(s: Sys, t: Tid, timeout: int, k: nat)
    requires Inv(s) && k <= |s.pool.receivers|
    requires t in s.calls ==> s.calls[t].Waiting? && t !in s.pool.receivers
    ensures var u := Receive(s, t, timeout, k);
            && u.stored == s.stored
            && if |s.received| < |s.stored| then
                 && s.mail != [] && u.received == s.received + [s.mail[0]] && u.mail == s.mail[1..]
                 && t in u.calls && u.calls == s.calls[t := u.calls[t]] && u.pool.receivers == s.pool.receivers
                 && u.calls[t].Copying? && u.calls[t].msg == s.mail[0] && u.calls[t].n == s.pool.queue[0]
               else
                 && s.mail == [] && u.mail == [] && u.received == s.received
                 && if timeout == 0 then u.calls == s.calls - {t} && u.pool == s.pool
                    else
                      && u.calls == s.calls[t := Waiting(timeout)]
                      && u.pool.receivers == s.pool.receivers[..k] + [t] + s.pool.receivers[k..]
  {
    Counted(s);
    InsertedIs(s.pool.receivers, k, t);
    hide Nodes, Awake, InOrder;
  }

  lemma Counted(s: Sys)
    requires Inv(s)
    ensures |s.received| + |s.mail| == |s.stored|
  {
    hide Nodes, Bodies, Awake, Ordinary;
    assert |multiset(s.received) + multiset(s.mail)| == |s.received| + |s.mail|;
  }

  // ---- The sizes of a new queue ----

  /** Messages are rounded up to the next multiple of 8, unless that does not fit in 16 bits. */
  lemma SizeExactly(size: nat)
    requires size < 65536
    ensures AlignedSize(size) % 8 == 0
    ensures size <= AlignedSize(size) < size + 8 <==> size <= 65528
    ensures size > 65528 ==> AlignedSize(size) == 0
  {
  }

  /** As many nodes as the pool holds, each with its link of four bytes, unless that does not fit in 16 bits. */
  lemma NodesExactly(poolSize: nat, msgSize: nat)
    ensures var n := MaxMsgs(poolSize, msgSize);
            n * (msgSize + 4) <= poolSize < (n + 1) * (msgSize + 4) <==> poolSize < 65536 * (msgSize + 4)
  {
    var (d, q) := (msgSize + 4, poolSize / (msgSize + 4));
    assert q * d <= poolSize < (q + 1) * d by { assert poolSize == d * q + poolSize % d; }
    if q < 65536 {
      Below(q, 65536, d);
    } else {
      Below(65535, q, d);
      Below(MaxMsgs(poolSize, msgSize), 65536, d);
    }
  }

  lemma Below(a: nat, b: nat, d: nat)
    requires a < b
    ensures (a + 1) * d <= b * d
  {
    assert b * d == (a + 1) * d + (b - a - 1) * d;
  }
}

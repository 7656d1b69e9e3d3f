/** The message queue of ipc.c, node by node: three chains of numbered nodes and a private set. */
module MessageNodes {
  import opened Base
  import opened Chains
  import opened Lists

  type Tid = nat

  /**
   * The free chain and the queue, first node first; ready holds the private nodes whose link has
   * been cleared for linking at the tail; body is the buffer behind each node.
   */
  datatype Pool = Pool(free: seq<nat>, queue: seq<nat>, ready: set<nat>, body: seq<seq<byte>>, receivers: seq<Tid>)

  datatype Outcome = Node(n: nat) | Full | Asleep | Timedout

  function Tail(xs: seq<Tid>): seq<Tid> {
    if xs == [] then [] else xs[1..]
  }

  function Reversed(xs: seq<nat>): (r: seq<nat>)
    ensures |r| == |xs|
    ensures forall x :: x in r <==> x in xs
  {
    if xs == [] then [] else Reversed(xs[1..]) + [xs[0]]
  }

  /** The first section of rt_mq_send and rt_mq_urgent. */
  function TakenFree(p: Pool): (Pool, Outcome) {
    if p.free == [] then (p, Full) else (p.(free := p.free[1..]), Node(p.free[0]))
  }

  /** Between the sections: the copy into the node and, for an ordinary message, the clearing of its link. */
  function Filled(p: Pool, n: nat, data: seq<byte>, urgent: bool): Pool
    requires n < |p.body| && |data| <= |p.body[n]|
  {
    p.(body := p.body[n := data + p.body[n][|data|..]], ready := if urgent then p.ready else p.ready + {n})
  }

  /** The second section: link the node, wake the first receiver. */
  function Linked(p: Pool, n: nat, urgent: bool): Pool {
    p.(queue := if urgent then [n] + p.queue else p.queue + [n],
       ready := p.ready - {n},
       receivers := Tail(p.receivers))
  }

  /** rt_mq_recv up to sleeping or unlinking the first node. */
  function TakenFront(p: Pool, t: Tid, timeout: int, k: nat): (Pool, Outcome)
    requires k <= |p.receivers|
  {
    if p.queue == [] then
      if timeout == 0 then (p, Timedout) else (p.(receivers := Inserted(p.receivers, k, t)), Asleep)
    else (p.(queue := p.queue[1..]), Node(p.queue[0]))
  }

  /** The last section of rt_mq_recv. */
  function GivenBack(p: Pool, n: nat): Pool {
    p.(free := [n] + p.free)
  }

  /** RT_IPC_CMD_RESET. */
  function Emptied(p: Pool): Pool {
    p.(free := Reversed(p.queue) + p.free, queue := [], receivers := [])
  }

  /** RT_ALIGN(size, 8) stored in 16 bits. */
  function AlignedSize(size: nat): nat {
    ((size + 7) / 8 * 8) % 65536
  }

  /** How many nodes with a four byte link fit, stored in 16 bits. */
  function MaxMsgs(poolSize: nat, msgSize: nat): nat {
    (poolSize / (msgSize + 4)) % 65536
  }

  /** The free chain after rt_mq_init: the last node comes first. */
  function Descending(n: nat): (r: seq<nat>)
    ensures |r| == n && forall i :: 0 <= i < n ==> r[i] == n - 1 - i
  {
    if n == 0 then [] else [n - 1] + Descending(n - 1)
  }

  function Zeros(n: nat): (r: seq<byte>)
    ensures |r| == n
  {
    seq(n, _ => 0)
  }

  /** No node is on a chain twice or on two of them. */
  ghost predicate Apart(p: Pool, max: nat) {
    && NoDup(p.free) && NoDup(p.queue)
    && (forall n <- p.free :: n < max && n !in p.queue && n !in p.ready)
    && (forall n <- p.queue :: n < max && n !in p.ready)
    && (forall n <- p.ready :: n < max)
  }

  /** On no chain. */
  ghost predicate Private(p: Pool, n: nat) {
    n !in p.free && n !in p.queue
  }

  /** Every section keeps the nodes apart; taking a node off a chain makes it private. */
  lemma TakenFreeApart(p: Pool, max: nat)
    requires Apart(p, max) && p.free != []
    ensures Apart(TakenFree(p).0, max) && Private(TakenFree(p).0, p.free[0])
    ensures p.free[0] < max && p.free[0] !in p.ready
  {
    hide NoDup;
    PopNoDup(p.free);
  }

  lemma TakenFrontApart(p: Pool, max: nat)
    requires Apart(p, max) && p.queue != []
    ensures Apart(p.(queue := p.queue[1..]), max) && Private(p.(queue := p.queue[1..]), p.queue[0])
    ensures p.queue[0] < max && p.queue[0] !in p.ready
  {
    hide NoDup;
    assert p.queue[0] in p.queue;
    PopNoDup(p.queue);
  }

  lemma GivenBackApart(p: Pool, n: nat, max: nat)
    requires Apart(p, max) && n < max && Private(p, n) && n !in p.ready
    ensures Apart(GivenBack(p, n), max)
  {
    hide NoDup;
    PushNoDup(p.free, n);
  }

  lemma LinkedApart(p: Pool, n: nat, urgent: bool, max: nat)
    requires Apart(p, max) && n < max && Private(p, n)
    ensures Apart(Linked(p, n, urgent), max)
  {
    hide NoDup;
    PushNoDup(p.queue, n);
  }

  lemma {:induction false} EmptiedApart(p: Pool, max: nat)
    requires Apart(p, max)
    ensures Apart(Emptied(p), max)
    decreases |p.queue|
  {
    if p.queue == [] {
      assert Reversed(p.queue) + p.free == p.free;
    } else {
      var n := p.queue[0];
      TakenFrontApart(p, max);
      var p1 := p.(queue := p.queue[1..]);
      GivenBackApart(p1, n, max);
      EmptiedApart(GivenBack(p1, n), max);
      assert Reversed(p.queue[1..]) + ([n] + p.free) == Reversed(p.queue) + p.free;
    }
  }

  lemma DescendingApart(p: Pool, max: nat)
    requires p.free == Descending(max) && p.queue == [] && p.ready == {}
    ensures Apart(p, max)
  {
  }

  /** struct rt_messagequeue: next is the link word of each node. */
  class MessageQueue {
    const msgSize: nat
    const max: nat
    const next: array<int>
    const body: array<seq<byte>>
    var freeHead: int
    var head: int
    var tail: int
    var entry: nat
    var receivers: seq<Tid>
    ghost var free: seq<nat>
    ghost var queue: seq<nat>
    ghost var ready: set<nat>

    ghost predicate Valid()
      reads this, next, body
    {
      Linkage() && entry == |queue|
    }

    /** The chains are as the pointers say. */
    ghost predicate Linkage()
      reads this, next, body
    {
      && next.Length == max && body.Length == max
      && (forall n :: 0 <= n < max ==> |body[n]| == msgSize)
      && Apart(View(), max)
      && Chained(next[..], free, NULL) && freeHead == At(free, 0, NULL)
      && Chained(next[..], queue, NULL) && head == At(queue, 0, NULL)
      && tail == (if queue == [] then NULL else queue[|queue| - 1])
      && (forall n <- ready :: n < max && next[n] == NULL)
    }

    ghost function View(): Pool
      reads this, body
    {
      Pool(free, queue, ready, body[..], receivers)
    }

    /** rt_mq_init: every node is pushed on the free chain, the last one ends up first. */
    constructor (size: nat, poolSize: nat)
      ensures Valid() && fresh(next) && fresh(body)
      ensures msgSize == AlignedSize(size) && max == MaxMsgs(poolSize, msgSize)
      ensures View() == Pool(Descending(max), [], {}, body[..], [])
      ensures forall n :: 0 <= n < max ==> body[n] == Zeros(msgSize)
    {
      hide AlignedSize, MaxMsgs, Apart, Chained, Descending, Zeros;
      var s := AlignedSize(size);
      var count := MaxMsgs(poolSize, s);
      msgSize, max := s, count;
      next := new int[count];
      body := new seq<byte>[count](_ => Zeros(s));
      head, tail, freeHead, entry := NULL, NULL, NULL, 0;
      receivers, free, queue, ready := [], [], [], {};
      new;
      PushAll();
      NothingChained(next[..], NULL);
      DescendingApart(View(), max);
    }

    method PushAll()
      requires next.Length == max && free == [] && freeHead == NULL
      modifies this`freeHead, this`free, next
      ensures free == Descending(max) && freeHead == At(free, 0, NULL) && Chained(next[..], free, NULL)
    {
      hide Chained;
      NothingChained(next[..], NULL);
      var temp := 0;
      while temp < max
        modifies this`freeHead, this`free, next
        invariant temp <= max && free == Descending(temp)
        invariant freeHead == At(free, 0, NULL) && Chained(next[..], free, NULL)
      {
        ChainedPush(next[..], free, temp, NULL);
        next[temp] := freeHead;
        freeHead := temp;
        free := [temp] + free;
        temp := temp + 1;
      }
    }

    method TakeFree() returns (out: Outcome)
      requires Valid()
      modifies this`freeHead, this`free
      ensures Valid()
      ensures (View(), out) == TakenFree(old(View()))
    {
      hide NoDup, Chained;
      if freeHead == NULL {
        return Full;
      }
      TakenFreeApart(View(), max);
      ChainedTail(next[..], free, NULL);
      var msg := freeHead;
      freeHead := next[msg];
      free := free[1..];
      out := Node(msg);
    }

    /** The private part of a send, for a node on no chain. */
    method Fill(n: nat, data: seq<byte>, urgent: bool)
      requires Valid() && n < max && n !in free && n !in queue && |data| <= msgSize
      modifies this`ready, next, body
      ensures Valid()
      ensures View() == Filled(old(View()), n, data, urgent)
    {
      hide NoDup, Chained;
      if !urgent {
        ChainedElsewhere(next[..], free, n, NULL, NULL);
        ChainedElsewhere(next[..], queue, n, NULL, NULL);
        next[n] := NULL;
        ready := ready + {n};
      }
      body[n] := data + body[n][|data|..];
    }

    method LinkLast(n: nat)
      requires Valid() && n in ready
      modifies this`head, this`tail, this`entry, this`receivers, this`queue, this`ready, next
      ensures Valid()
      ensures View() == Linked(old(View()), n, false)
    {
      hide NoDup, Chained;
      LinkedApart(View(), n, false, max);
      ChainedAppend(next[..], queue, n);
      if tail != NULL {
        ChainedElsewhere(next[..], free, tail, n, NULL);
        next[tail] := n;
      }
      tail := n;
      if head == NULL {
        head := n;
      }
      entry := entry + 1;
      receivers := Tail(receivers);
      assert queue == [] ==> queue + [n] == [n];
      queue, ready := queue + [n], ready - {n};
    }

    method LinkFirst(n: nat)
      requires Valid() && n < max && n !in free && n !in queue
      modifies this`head, this`tail, this`entry, this`receivers, this`queue, this`ready, next
      ensures Valid()
      ensures View() == Linked(old(View()), n, true)
    {
      hide NoDup, Chained;
      LinkedApart(View(), n, true, max);
      ChainedPush(next[..], queue, n, NULL);
      ChainedElsewhere(next[..], free, n, head, NULL);
      next[n] := head;
      head := n;
      if tail == NULL {
        tail := n;
      }
      entry := entry + 1;
      receivers := Tail(receivers);
      queue, ready := [n] + queue, ready - {n};
    }

    method TakeFront(t: Tid, timeout: int, k: nat) returns (out: Outcome)
      requires Valid() && k <= |receivers|
      modifies this`head, this`tail, this`entry, this`receivers, this`queue
      ensures Valid()
      ensures (View(), out) == TakenFront(old(View()), t, timeout, k)
    {
      hide NoDup, Chained;
      if entry == 0 && timeout == 0 {
        return Timedout;
      }
      if entry == 0 {
        receivers := Inserted(receivers, k, t);
        return Asleep;
      }
      TakenFrontApart(View(), max);
      ChainedTail(next[..], queue, NULL);
      var msg := head;
      head := next[msg];
      if tail == msg {
        tail := NULL;
      }
      entry := entry - 1;
      queue := queue[1..];
      out := Node(msg);
    }

    /** The copy out of a private node: as much as both buffers hold, and of what was sent the beginning. */
    method CopyOut(n: nat, size: nat, ghost sent: seq<byte>) returns (buffer: seq<byte>)
      requires Valid() && n < max && sent <= body[n]
      ensures |buffer| <= size && |buffer| <= msgSize && (|buffer| == size || |buffer| == msgSize)
      ensures buffer <= body[n] && if |sent| <= |buffer| then sent <= buffer else buffer <= sent
    {
      buffer := body[n][..if size > msgSize then msgSize else size];
    }

    method GiveBack(n: nat)
      requires Valid() && n < max && n !in free && n !in queue && n !in ready
      modifies this`freeHead, this`free, next
      ensures Valid()
      ensures View() == GivenBack(old(View()), n)
    {
      hide NoDup, Chained;
      GivenBackApart(View(), n, max);
      ChainedPush(next[..], free, n, NULL);
      ChainedElsewhere(next[..], queue, n, freeHead, NULL);
      next[n] := freeHead;
      freeHead := n;
      free := [n] + free;
    }

    method Reset()
      requires Valid()
      modifies this`freeHead, this`head, this`tail, this`entry, this`receivers, this`free, this`queue, next
      ensures Valid()
      ensures View() == Emptied(old(View()))
    {
      hide NoDup, Chained;
      while receivers != []
        modifies this`receivers
        decreases |receivers|
      {
        receivers := receivers[1..];
      }
      assert next[..] == old(next[..]);
      while head != NULL
        modifies this`freeHead, this`head, this`tail, this`free, this`queue, next
        invariant Linkage()
        invariant Reversed(queue) + free == Reversed(old(queue)) + old(free)
        invariant ready == old(ready) && receivers == [] && body[..] == old(body[..])
        decreases |queue|
      {
        Dequeue();
      }
      entry := 0;
    }

    method Dequeue()
      requires Linkage() && head != NULL
      modifies this`freeHead, this`head, this`tail, this`free, this`queue, next
      ensures Linkage()
      ensures queue == old(queue)[1..] && free == [old(queue)[0]] + old(free)
    {
      hide NoDup, Chained;
      ghost var p := View();
      TakenFrontApart(p, max);
      GivenBackApart(p.(queue := queue[1..]), queue[0], max);
      ChainedTail(next[..], queue, NULL);
      ChainedPush(next[..], free, queue[0], NULL);
      ChainedElsewhere(next[..], queue[1..], queue[0], freeHead, NULL);
      var msg := head;
      head := next[msg];
      if tail == msg {
        tail := NULL;
      }
      next[msg] := freeHead;
      freeHead := msg;
      queue, free := queue[1..], [msg] + free;
    }
  }
}

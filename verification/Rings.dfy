/** rtservice.h: circular doubly linked lists. Nodes are numbered; two words per node hold its links. */
module Rings {
  import opened Lists

  /** The node behind place i, the first one behind the last. */
  ghost function Succ(c: seq<nat>, i: nat): nat
    requires i < |c|
  {
    if i + 1 < |c| then c[i + 1] else c[0]
  }

  ghost predicate Joined(next: seq<nat>, prev: seq<nat>, c: seq<nat>, i: nat)
    requires i < |c|
  {
    && c[i] < |next| && Succ(c, i) < |prev|
    && next[c[i]] == Succ(c, i) && prev[Succ(c, i)] == c[i]
  }

  /** Both ways round, the links run through c and back to its first node. */
  ghost predicate Ring(next: seq<nat>, prev: seq<nat>, c: seq<nat>) {
    c != [] && NoDup(c) && forall i :: 0 <= i < |c| ==> Joined(next, prev, c, i)
  }

  /** n put in at place i. */
  function Put(c: seq<nat>, i: nat, n: nat): (r: seq<nat>)
    requires i <= |c|
    ensures |r| == |c| + 1
    ensures forall j :: 0 <= j < |r| ==> r[j] == if j < i then c[j] else if j == i then n else c[j - 1]
  {
    c[..i] + [n] + c[i..]
  }

  function Cut(c: seq<nat>, i: nat): (r: seq<nat>)
    requires i < |c|
    ensures |r| == |c| - 1
    ensures forall j :: 0 <= j < |r| ==> r[j] == if j < i then c[j] else c[j + 1]
  {
    c[..i] + c[i + 1..]
  }

  lemma RingAlone(next: seq<nat>, prev: seq<nat>, n: nat)
    requires n < |next| && n < |prev|
    ensures Ring(next[n := n], prev[n := n], [n])
  {
    assert Joined(next[n := n], prev[n := n], [n], 0);
  }

  /** Linking n in between two neighbours. */
  lemma RingPut(next: seq<nat>, prev: seq<nat>, c: seq<nat>, i: nat, n: nat)
    requires Ring(next, prev, c) && 1 <= i <= |c| && n !in c && n < |next| && n < |prev|
    ensures c[i - 1] < |next| && Succ(c, i - 1) < |prev|
    ensures Ring(next[c[i - 1] := n][n := Succ(c, i - 1)], prev[n := c[i - 1]][Succ(c, i - 1) := n], Put(c, i, n))
  {
    assert Joined(next, prev, c, i - 1);
    var (l, r) := (c[i - 1], Succ(c, i - 1));
    var (n', p', c') := (next[l := n][n := r], prev[n := l][r := n], Put(c, i, n));
    forall j | 0 <= j < |c'| ensures Joined(n', p', c', j) {
      if j < i - 1 {
        assert Joined(next, prev, c, j);
      } else if j > i {
        assert Joined(next, prev, c, j - 1);
      }
    }
  }

  /** Taking the node at place i out leaves the rest joined and the node alone. */
  lemma RingCut(next: seq<nat>, prev: seq<nat>, c: seq<nat>, i: nat)
    requires Ring(next, prev, c) && 1 <= i < |c|
    ensures c[i - 1] < |next| && c[i] < |next| && c[i] < |prev| && Succ(c, i) < |prev|
    ensures var (n', p') := (next[c[i - 1] := Succ(c, i)][c[i] := c[i]], prev[Succ(c, i) := c[i - 1]][c[i] := c[i]]);
            Ring(n', p', Cut(c, i)) && Ring(n', p', [c[i]])
  {
    assert Joined(next, prev, c, i - 1) && Joined(next, prev, c, i);
    var (l, n, r) := (c[i - 1], c[i], Succ(c, i));
    var (n', p', c') := (next[l := r][n := n], prev[r := l][n := n], Cut(c, i));
    forall j | 0 <= j < |c'| ensures Joined(n', p', c', j) {
      if j < i - 1 {
        assert Joined(next, prev, c, j);
      } else if j > i - 1 {
        assert Joined(next, prev, c, j + 1);
      }
    }
    assert Joined(n', p', [n], 0);
  }

  /** Links written outside a ring leave it alone. */
  lemma RingElsewhere(next: seq<nat>, prev: seq<nat>, next': seq<nat>, prev': seq<nat>, c: seq<nat>)
    requires Ring(next, prev, c) && |next'| == |next| && |prev'| == |prev|
    requires forall x <- c :: x < |next| && x < |prev| ==> next'[x] == next[x] && prev'[x] == prev[x]
    ensures Ring(next', prev', c)
  {
    forall j | 0 <= j < |c| ensures Joined(next', prev', c, j) {
      assert Joined(next, prev, c, j) && c[j] in c && Succ(c, j) in c;
      BothInRange(next, prev, c, j);
    }
  }

  /** The links of a node in a list differ exactly if another node is in the list with it. */
  lemma NodeLinks(next: seq<nat>, prev: seq<nat>, head: nat, xs: seq<nat>, i: nat)
    requires Ring(next, prev, [head] + xs) && i < |xs|
    ensures xs[i] < |next| && xs[i] < |prev| && (next[xs[i]] != prev[xs[i]] <==> |xs| >= 2)
  {
    var c := [head] + xs;
    assert c[i + 1] == xs[i] && Joined(next, prev, c, i + 1) && Joined(next, prev, c, i);
    assert next[c[i + 1]] == Succ(c, i + 1) && prev[c[i + 1]] == c[i];
  }

  lemma BothInRange(next: seq<nat>, prev: seq<nat>, c: seq<nat>, i: nat)
    requires Ring(next, prev, c) && i < |c|
    ensures c[i] < |next| && c[i] < |prev| && Succ(c, i) < |next| && Succ(c, i) < |prev|
  {
    assert Joined(next, prev, c, i);
    assert Joined(next, prev, c, if i == 0 then |c| - 1 else i - 1);
    assert Joined(next, prev, c, if i + 1 < |c| then i + 1 else 0);
  }

  /** A list is a head and the nodes behind it: what next and prev of the head and the test for emptiness tell. */
  lemma HeadLinks(next: seq<nat>, prev: seq<nat>, head: nat, xs: seq<nat>)
    requires Ring(next, prev, [head] + xs)
    ensures head < |next| && head < |prev|
    ensures next[head] == (if xs == [] then head else xs[0]) && prev[head] == (if xs == [] then head else xs[|xs| - 1])
    ensures next[head] == head <==> xs == []
    ensures next[head] != prev[head] <==> |xs| >= 2
  {
    var c := [head] + xs;
    assert Joined(next, prev, c, 0) && Joined(next, prev, c, |c| - 1);
    BothInRange(next, prev, c, 0);
    assert |xs| >= 1 ==> c[1] == xs[0] && c[0] != c[1];
    assert |xs| >= 2 ==> c[1] != c[|c| - 1];
  }

  /** The memory that holds the links of all nodes. */
  class Links {
    const next: array<nat>
    const prev: array<nat>

    ghost predicate IsRing(c: seq<nat>)
      reads next, prev
    {
      next != prev && next.Length == prev.Length && Ring(next[..], prev[..], c)
    }

    /** The links of all other nodes are as before. */
    twostate predicate OthersSame(touched: set<nat>)
      reads next, prev
    {
      && next.Length == prev.Length
      && forall x :: 0 <= x < next.Length && x !in touched ==> next[x] == old(next[x]) && prev[x] == old(prev[x])
    }

    /** rt_list_init. */
    method Init(l: nat)
      requires next != prev && l < next.Length == prev.Length
      modifies next, prev
      ensures IsRing([l]) && OthersSame({l})
    {
      RingAlone(next[..], prev[..], l);
      prev[l] := l;
      next[l] := l;
    }

    /** rt_list_insert_after: n comes right behind place i of the ring. */
    method InsertAfter(l: nat, n: nat, ghost c: seq<nat>, ghost i: nat)
      requires IsRing(c) && i < |c| && l == c[i] && n !in c && n < next.Length
      modifies next, prev
      ensures IsRing(Put(c, i + 1, n)) && OthersSame({n, l, Succ(c, i)})
    {
      RingPut(next[..], prev[..], c, i + 1, n);
      BothInRange(next[..], prev[..], c, i);
      assert Joined(next[..], prev[..], c, i) && c[i] in c && Succ(c, i) in c;
      hide Ring;
      ghost var r := Succ(c, i);
      ghost var (p, q) := (next[..][l := n][n := r], prev[..][n := l][r := n]);
      prev[next[l]] := n;
      next[n] := next[l];
      next[l] := n;
      prev[n] := l;
      assert next[..] == p && prev[..] == q;
    }

    /** rt_list_insert_before: n comes right before the node behind place i of the ring. */
    method InsertBefore(l: nat, n: nat, ghost c: seq<nat>, ghost i: nat)
      requires IsRing(c) && i < |c| && l == Succ(c, i) && n !in c && n < next.Length
      modifies next, prev
      ensures IsRing(Put(c, i + 1, n)) && OthersSame({n, l, c[i]})
    {
      RingPut(next[..], prev[..], c, i + 1, n);
      BothInRange(next[..], prev[..], c, i);
      assert Joined(next[..], prev[..], c, i) && c[i] in c && Succ(c, i) in c;
      hide Ring;
      ghost var k := c[i];
      ghost var (p, q) := (next[..][k := n][n := l], prev[..][n := k][l := n]);
      next[prev[l]] := n;
      prev[n] := prev[l];
      prev[l] := n;
      next[n] := l;
      assert next[..] == p && prev[..] == q;
    }

    /** rt_list_remove: the neighbours are joined and the node is left alone. */
    method Remove(n: nat, ghost c: seq<nat>, ghost i: nat)
      requires IsRing(c) && 1 <= i < |c| && n == c[i]
      modifies next, prev
      ensures IsRing(Cut(c, i)) && IsRing([n]) && OthersSame({n, c[i - 1], Succ(c, i)})
    {
      RingCut(next[..], prev[..], c, i);
      BothInRange(next[..], prev[..], c, i);
      BothInRange(next[..], prev[..], c, i - 1);
      assert Joined(next[..], prev[..], c, i) && Joined(next[..], prev[..], c, i - 1);
      Distinct2(c, i);
      hide Ring;
      ghost var (k, r) := (c[i - 1], Succ(c, i));
      ghost var (p, q) := (next[..][k := r][n := n], prev[..][r := k][n := n]);
      prev[next[n]] := prev[n];
      next[prev[n]] := next[n];
      next[n], prev[n] := n, n;
      assert next[..] == p && prev[..] == q;
    }

    /** A second removal of the same node changes nothing. */
    method RemoveAlone(n: nat)
      requires IsRing([n])
      modifies next, prev
      ensures next[..] == old(next[..]) && prev[..] == old(prev[..])
    {
      assert Joined(next[..], prev[..], [n], 0);
      prev[next[n]] := prev[n];
      next[prev[n]] := next[n];
      next[n], prev[n] := n, n;
    }

    /** rt_list_isempty of the list behind head. */
    method IsEmpty(head: nat, ghost xs: seq<nat>) returns (empty: bool)
      requires IsRing([head] + xs)
      ensures empty <==> xs == []
    {
      HeadLinks(next[..], prev[..], head, xs);
      empty := next[head] == head;
    }
  }

  lemma Distinct2(c: seq<nat>, i: nat)
    requires NoDup(c) && 1 <= i < |c|
    ensures c[i] != c[i - 1] && c[i] != Succ(c, i)
  {
  }
}

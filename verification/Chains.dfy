/** Singly linked lists: node numbers and an array of link words. */
module Chains {
  import opened Lists

  const NULL := -1

  /** The node at place i of a chain that leads to end. */
  ghost function At(chain: seq<nat>, i: nat, end: int): int {
    if i < |chain| then chain[i] else end
  }

  /** Following the links from the first node runs through the chain and arrives at end. */
  ghost predicate Chained(links: seq<int>, chain: seq<nat>, end: int) {
    forall i :: 0 <= i < |chain| ==> chain[i] < |links| && links[chain[i]] == At(chain, i + 1, end)
  }

  lemma NothingChained(links: seq<int>, end: int)
    ensures Chained(links, [], end)
  {
  }

  lemma ChainedTail(links: seq<int>, chain: seq<nat>, end: int)
    requires Chained(links, chain, end) && chain != []
    ensures chain[0] < |links| && Chained(links, chain[1..], end) && links[chain[0]] == At(chain[1..], 0, end)
  {
    var c := chain[1..];
    forall i | 0 <= i < |c| ensures c[i] < |links| && links[c[i]] == At(c, i + 1, end) {
      assert chain[i + 1] == c[i];
    }
  }

  lemma ChainedPush(links: seq<int>, chain: seq<nat>, n: nat, end: int)
    requires Chained(links, chain, end) && n < |links| && n !in chain
    ensures Chained(links[n := At(chain, 0, end)], [n] + chain, end)
  {
    var (l, c) := (links[n := At(chain, 0, end)], [n] + chain);
    forall i | 0 <= i < |c| ensures c[i] < |l| && l[c[i]] == At(c, i + 1, end) {
      if i > 0 {
        assert c[i] == chain[i - 1];
      }
    }
  }

  lemma ChainedElsewhere(links: seq<int>, chain: seq<nat>, n: nat, v: int, end: int)
    requires Chained(links, chain, end) && n < |links| && n !in chain
    ensures Chained(links[n := v], chain, end)
  {
  }

  /** Two chains one after the other. */
  lemma ChainedJoin(links: seq<int>, a: seq<nat>, b: seq<nat>, end: int)
    ensures Chained(links, a + b, end) <==> Chained(links, a, At(b, 0, end)) && Chained(links, b, end)
  {
    var c := a + b;
    forall i | 0 <= i < |a| ensures c[i] == a[i] && At(c, i + 1, end) == At(a, i + 1, At(b, 0, end)) {
    }
    forall i | 0 <= i < |b| ensures c[|a| + i] == b[i] && At(c, |a| + i + 1, end) == At(b, i + 1, end) {
    }
  }

  /** The last node of a chain decides where it leads. */
  lemma ChainedRedirect(links: seq<int>, chain: seq<nat>, end: int, z: int)
    requires Chained(links, chain, end) && NoDup(chain) && chain != []
    ensures chain[|chain| - 1] < |links| && Chained(links[chain[|chain| - 1] := z], chain, z)
  {
  }

  /** Linking a node whose own link is clear after the last one. */
  lemma ChainedAppend(links: seq<int>, chain: seq<nat>, n: nat)
    requires Chained(links, chain, NULL) && NoDup(chain) && n < |links| && n !in chain && links[n] == NULL
    ensures chain == [] ==> Chained(links, [n], NULL)
    ensures chain != [] ==>
              chain[|chain| - 1] < |links| && Chained(links[chain[|chain| - 1] := n], chain + [n], NULL)
  {
    if chain != [] {
      ChainedRedirect(links, chain, NULL, n);
      ChainedJoin(links[chain[|chain| - 1] := n], chain, [n], NULL);
    }
  }

  /** Leading a chain on to another one by its last link. */
  lemma ChainedSplice(links: seq<int>, a: seq<nat>, z: int, rest: seq<nat>)
    requires Chained(links, a, z) && Chained(links, rest, NULL) && NoDup(a) && a != [] && a[|a| - 1] !in rest
    ensures a[|a| - 1] < |links| && Chained(links[a[|a| - 1] := At(rest, 0, NULL)], a + rest, NULL)
  {
    var (p, v) := (a[|a| - 1], At(rest, 0, NULL));
    ChainedRedirect(links, a, z, v);
    ChainedElsewhere(links, rest, p, v, NULL);
    ChainedJoin(links[p := v], a, rest, NULL);
  }

  /** A chain whose links are not touched. */
  lemma ChainedSame(links: seq<int>, links': seq<int>, chain: seq<nat>, end: int)
    requires Chained(links, chain, end) && |links'| == |links|
    requires forall n <- chain :: n < |links| ==> links'[n] == links[n]
    ensures Chained(links', chain, end)
  {
    assert forall i :: 0 <= i < |chain| ==> chain[i] in chain;
  }

  /** The node at place i of a chain and where it leads. */
  lemma ChainedAt(links: seq<int>, chain: seq<nat>, i: nat, end: int)
    requires Chained(links, chain, end) && i < |chain|
    ensures chain[i] < |links| && links[chain[i]] == At(chain, i + 1, end)
  {
  }
}

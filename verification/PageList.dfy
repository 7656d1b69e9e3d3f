/** The page list of slab.c in place: the head of each run holds its length and the link to the next one. */
module PageList {
  import opened Base
  import opened Chains
  import opened Lists
  import opened Pages

  /** The page numbers of the heads of the runs. */
  function Starts(runs: seq<Run>): (r: seq<nat>)
    ensures |r| == |runs| && forall i :: 0 <= i < |runs| ==> r[i] == runs[i].start
  {
    seq(|runs|, i requires 0 <= i < |runs| => runs[i].start)
  }

  lemma StartsDistinct(runs: seq<Run>)
    requires Canonical(runs)
    ensures NoDup(Starts(runs))
  {
  }

  /** The head of a run is free, and inside no run. */
  lemma HeadOfRun(runs: seq<Run>, i: nat, r: Run)
    requires Canonical(runs) && i < |runs| && r in runs
    ensures Free(runs, runs[i].start) && !(r.start < runs[i].start < End(r))
  {
    assert runs[i] in runs;
  }

  /** A page that is not free is no head, and pages inside a run are none either. */
  lemma NotAStart(runs: seq<Run>, q: nat, r: Run)
    requires Canonical(runs) && (!Free(runs, q) || (r in runs && r.start < q < End(r)))
    ensures q !in Starts(runs)
  {
    forall i | 0 <= i < |runs| ensures runs[i].start != q {
      HeadOfRun(runs, i, if r in runs then r else runs[i]);
    }
  }

  lemma StartsJoin(a: seq<Run>, b: seq<Run>)
    ensures Starts(a + b) == Starts(a) + Starts(b)
  {
  }

  /** Runs at the front that are too short are passed over. */
  lemma {:induction false} TakeSkips(front: seq<Run>, rest: seq<Run>, n: nat)
    requires forall r <- front :: r.len < n
    ensures Take(front + rest, n) == (Take(rest, n).0, front + Take(rest, n).1)
  {
    if front == [] {
      assert front + rest == rest && front + Take(rest, n).1 == Take(rest, n).1;
    } else {
      TakeSkips(front[1..], rest, n);
      assert (front + rest)[1..] == front[1..] + rest && (front + rest)[0] == front[0];
      assert [front[0]] + (front[1..] + Take(rest, n).1) == front + Take(rest, n).1;
    }
  }

  /** Runs at the front that end before the span are passed over. */
  lemma {:induction false} PutSkips(front: seq<Run>, rest: seq<Run>, a: nat, n: nat)
    requires forall r <- front :: End(r) < a && r.start < a
    ensures Put(front + rest, a, n) == front + Put(rest, a, n)
  {
    if front == [] {
      assert front + rest == rest && front + Put(rest, a, n) == Put(rest, a, n);
    } else {
      PutSkips(front[1..], rest, a, n);
      assert (front + rest)[1..] == front[1..] + rest && (front + rest)[0] == front[0];
      assert [front[0]] + (front[1..] + Put(rest, a, n)) == front + Put(rest, a, n);
    }
  }

  lemma TakeHead(runs: seq<Run>, n: nat)
    ensures runs == [] ==> Take(runs, n) == (None, [])
    ensures runs != [] && runs[0].len > n ==>
              Take(runs, n) == (Some(runs[0].start), [Run(runs[0].start + n, runs[0].len - n)] + runs[1..])
    ensures runs != [] && runs[0].len == n ==> Take(runs, n) == (Some(runs[0].start), runs[1..])
  {
  }

  /** What rt_page_alloc does at the first run that is long enough. */
  lemma TakeAt(runs: seq<Run>, i: nat, n: nat)
    requires Canonical(runs) && n > 0 && i <= |runs| && forall r <- runs[..i] :: r.len < n
    requires i < |runs| ==> runs[i].len >= n
    ensures Canonical(Take(runs, n).1)
    ensures i == |runs| ==> Take(runs, n) == (None, runs)
    ensures i < |runs| && runs[i].len == n ==> Take(runs, n) == (Some(runs[i].start), runs[..i] + runs[i..][1..])
    ensures i < |runs| && runs[i].len > n ==>
              Take(runs, n) == (Some(runs[i].start),
                                runs[..i] + ([Run(runs[i].start + n, runs[i].len - n)] + runs[i..][1..]))
  {
    hide Canonical, Take;
    TakeCanonical(runs, n);
    assert runs == runs[..i] + runs[i..];
    TakeSkips(runs[..i], runs[i..], n);
    TakeHead(runs[i..], n);
  }

  lemma TakeCanonical(runs: seq<Run>, n: nat)
    requires Canonical(runs) && n > 0
    ensures Canonical(Take(runs, n).1)
  {
    TakeLowest(runs, n);
  }

  lemma PutCanonical(runs: seq<Run>, a: nat, n: nat)
    requires Canonical(runs) && n > 0 && forall q: nat :: a <= q < a + n ==> !Free(runs, q)
    ensures Canonical(Put(runs, a, n)) && !Free(runs, a)
  {
    PutUnion(runs, a, n);
  }

  lemma LastLink(links: seq<int>, chain: seq<nat>, b: nat, m: int)
    requires Chained(links, chain, b) && NoDup(chain) && b !in chain && b < |links| && links[b] == m
    ensures Chained(links, chain + [b], m) && NoDup(chain + [b])
  {
  }

  lemma PutHead(runs: seq<Run>, a: nat, n: nat)
    ensures runs == [] || (End(runs[0]) != a && runs[0].start > a + n) ==> Put(runs, a, n) == [Run(a, n)] + runs
    ensures |runs| >= 2 && End(runs[0]) == a && a + n == runs[1].start ==>
              Put(runs, a, n) == [Run(runs[0].start, runs[0].len + n + runs[1].len)] + runs[2..]
    ensures runs != [] && End(runs[0]) == a && !(|runs| >= 2 && a + n == runs[1].start) ==>
              Put(runs, a, n) == [Run(runs[0].start, runs[0].len + n)] + runs[1..]
    ensures runs != [] && End(runs[0]) != a && runs[0].start == a + n ==>
              Put(runs, a, n) == [Run(a, n + runs[0].len)] + runs[1..]
  {
  }

  lemma NotIn(before: seq<Run>, after: seq<Run>, q: nat)
    requires q !in Starts(before + after)
    ensures q !in Starts(before) && q !in Starts(after) && (after != [] ==> q !in Starts(after[1..]))
  {
    StartsJoin(before, after);
    if after != [] {
      StartsJoin([after[0]], after[1..]);
      assert after == [after[0]] + after[1..];
    }
  }

  /** The heads of the runs hold their lengths. */
  ghost predicate Sized(pages: seq<nat>, runs: seq<Run>) {
    forall i :: 0 <= i < |runs| ==>
      runs[i].start < |pages| && End(runs[i]) <= |pages| && pages[runs[i].start] == runs[i].len
  }

  lemma SizedJoin(pages: seq<nat>, a: seq<Run>, b: seq<Run>)
    ensures Sized(pages, a + b) <==> Sized(pages, a) && Sized(pages, b)
  {
    var c := a + b;
    assert forall i :: 0 <= i < |a| ==> c[i] == a[i];
    assert forall i :: 0 <= i < |b| ==> c[|a| + i] == b[i];
  }

  lemma SizedElsewhere(pages: seq<nat>, runs: seq<Run>, n: nat, v: nat)
    requires Sized(pages, runs) && n < |pages| && n !in Starts(runs)
    ensures Sized(pages[n := v], runs)
  {
    assert forall i :: 0 <= i < |runs| ==> Starts(runs)[i] == runs[i].start;
  }

  lemma SizedHead(pages: seq<nat>, runs: seq<Run>)
    requires Sized(pages, runs) && runs != []
    ensures runs[0].start < |pages| && End(runs[0]) <= |pages| && pages[runs[0].start] == runs[0].len
  {
  }

  lemma SizedOne(pages: seq<nat>, r: Run)
    requires r.start < |pages| && End(r) <= |pages|
    ensures Sized(pages, [r]) <==> pages[r.start] == r.len
  {
    assert [r][0] == r;
  }

  class PageAllocator {
    const next: array<int>
    const page: array<nat>
    var head: int
    ghost var runs: seq<Run>

    ghost predicate Valid()
      reads this, next, page
    {
      && next.Length == page.Length && Canonical(runs)
      && Sized(page[..], runs)
      && head == At(Starts(runs), 0, NULL) && Chained(next[..], Starts(runs), NULL)
    }

    /** rt_page_init: all pages are freed into the empty list. */
    constructor (npages: nat)
      requires npages > 0
      ensures Valid() && runs == [Run(0, npages)] && next.Length == npages && fresh(next) && fresh(page)
    {
      head, runs := NULL, [];
      next := new int[npages];
      page := new nat[npages];
      new;
      Release(0, npages);
    }

    lemma NodeAt(i: nat)
      requires Valid() && i < |runs|
      ensures runs[i] in runs && End(runs[i]) <= next.Length && page[runs[i].start] == runs[i].len >= 1
      ensures runs[i].start < next.Length && next[runs[i].start] == At(Starts(runs), i + 1, NULL)
    {
      assert runs[i] in runs && Starts(runs)[i] == runs[i].start;
    }

    lemma SizedRuns(before: seq<Run>, r: Run, after: seq<Run>)
      requires Sized(page[..], before) && Sized(page[..], after)
      requires r.start < page.Length && End(r) <= page.Length && page[r.start] == r.len
      ensures Sized(page[..], before + ([r] + after))
    {
      hide Sized;
      SizedOne(page[..], r);
      SizedJoin(page[..], [r], after);
      SizedJoin(page[..], before, [r] + after);
    }

    /** The chain falls apart before any run. */
    lemma Around(before: seq<Run>, after: seq<Run>)
      requires Valid() && runs == before + after
      ensures Chained(next[..], Starts(before), At(Starts(after), 0, NULL)) && NoDup(Starts(before))
      ensures Chained(next[..], Starts(after), NULL)
      ensures forall x <- Starts(before) :: x !in Starts(after)
      ensures before != [] ==> head == before[0].start && before[|before| - 1].start in Starts(before)
      ensures Sized(page[..], before) && Sized(page[..], after)
      ensures after != [] ==>
                && Sized(page[..], after[1..]) && End(after[0]) <= page.Length && page[after[0].start] == after[0].len
                && Chained(next[..], Starts(after[1..]), NULL) && after[0].start < next.Length
                && next[after[0].start] == At(Starts(after[1..]), 0, NULL)
                && (forall x <- Starts(after[1..]) :: x in Starts(after)) && after[0].start !in Starts(after[1..])
    {
      hide Canonical, Free, Chained, NoDup, Starts, Sized;
      StartsDistinct(runs);
      StartsJoin(before, after);
      NoDupParts(Starts(before), Starts(after));
      ChainedJoin(next[..], Starts(before), Starts(after), NULL);
      SizedJoin(page[..], before, after);
      if after != [] {
        ChainedTail(next[..], Starts(after), NULL);
        assert Starts(after)[1..] == Starts(after[1..]);
        assert after == [after[0]] + after[1..];
        SizedJoin(page[..], [after[0]], after[1..]);
        SizedHead(page[..], after);
        assert Starts(after) == [after[0].start] + Starts(after[1..]);
        NoDupParts([after[0].start], Starts(after[1..]));
      }
    }

    /** *prev = v: the runs of before lead on to those of after. */
    method SetPrev(prev: int, v: int, ghost before: seq<Run>, ghost after: seq<Run>, ghost z: int)
      requires Chained(next[..], Starts(before), z) && Chained(next[..], Starts(after), NULL)
      requires NoDup(Starts(before)) && v == At(Starts(after), 0, NULL)
      requires prev == if before == [] then NULL else before[|before| - 1].start
      requires before == [] || (prev !in Starts(after) && head == before[0].start)
      modifies this`head, next
      ensures Chained(next[..], Starts(before + after), NULL)
      ensures head == At(Starts(before + after), 0, NULL)
    {
      StartsJoin(before, after);
      if prev == NULL {
        head := v;
        assert before + after == after;
      } else {
        ChainedSplice(next[..], Starts(before), z, Starts(after));
        next[prev] := v;
      }
    }

    /** The search of rt_page_alloc for the first run that is large enough. */
    method FindRun(npages: nat) returns (prev: int, b: int, ghost i: nat)
      requires Valid()
      ensures i <= |runs| && b == At(Starts(runs), i, NULL)
      ensures prev == if i == 0 then NULL else runs[i - 1].start
      ensures forall r <- runs[..i] :: r.len < npages
      ensures i < |runs| ==> runs[i].len >= npages
    {
      hide Canonical, Free, Chained, NoDup, Starts, Sized;
      prev, b, i := NULL, head, 0;
      if runs != [] {
        NodeAt(0);
      }
      while b != NULL && page[b] < npages
        invariant i <= |runs|
        invariant b == At(Starts(runs), i, NULL) && (b != NULL ==> b < page.Length && page[b] == runs[i].len)
        invariant prev == if i == 0 then NULL else runs[i - 1].start
        invariant forall r <- runs[..i] :: r.len < npages
        decreases |runs| - i
      {
        NodeAt(i);
        prev := b;
        b := next[b];
        i := i + 1;
        if i < |runs| {
          NodeAt(i);
        }
      }
    }

    /** rt_page_alloc; the page number of the first page, or NULL. */
    method Alloc(npages: nat) returns (b: int)
      requires Valid()
      modifies this, next, page
      ensures Valid()
      ensures npages == 0 ==> b == NULL && runs == old(runs)
      ensures npages > 0 ==>
                var (p, rest) := Take(old(runs), npages);
                runs == rest && b == if p.Some? then p.value else NULL
    {
      hide Canonical, Free, Chained, Take, NoDup, Starts, Sized;
      if npages == 0 {
        return NULL;
      }
      var prev;
      ghost var i;
      prev, b, i := FindRun(npages);
      ghost var (before, after) := (runs[..i], runs[i..]);
      assert runs == before + after;
      TakeAt(runs, i, npages);
      if b == NULL {
        return;
      }
      NodeAt(i);
      if page[b] > npages {
        Split(prev, b, npages, before, after);
      } else {
        Remove(prev, b, before, after);
      }
    }

    method Remove(prev: int, b: nat, ghost before: seq<Run>, ghost after: seq<Run>)
      requires Valid() && runs == before + after && after != [] && b == after[0].start
      requires prev == if before == [] then NULL else before[|before| - 1].start
      requires Canonical(before + after[1..])
      modifies this, next
      ensures Valid()
      ensures runs == before + after[1..]
    {
      hide Canonical, Free, Chained, NoDup, Starts, Sized;
      Around(before, after);
      SizedJoin(page[..], before, after[1..]);
      SetPrev(prev, next[b], before, after[1..], b);
      runs := before + after[1..];
    }

    /** The lower pages of run b are cut off; the rest becomes a run in its place. */
    method Split(prev: int, b: nat, npages: nat, ghost before: seq<Run>, ghost after: seq<Run>)
      requires Valid() && runs == before + after && after != [] && b == after[0].start
      requires 0 < npages < after[0].len && b < page.Length && page[b] == after[0].len
      requires prev == if before == [] then NULL else before[|before| - 1].start
      requires Canonical(before + ([Run(b + npages, page[b] - npages)] + after[1..]))
      modifies this, next, page
      ensures Valid()
      ensures runs == before + ([Run(b + npages, after[0].len - npages)] + after[1..])
    {
      hide Canonical, Free, Chained, NoDup, Starts, Sized;
      Around(before, after);
      var n := b + npages;
      ghost var left := Run(n, page[b] - npages);
      assert after[0] in runs;
      NotAStart(runs, n, after[0]);
      NotIn(before, after, n);
      ChainedElsewhere(next[..], Starts(before), n, next[b], b);
      ChainedPush(next[..], Starts(after[1..]), n, NULL);
      SizedElsewhere(page[..], before, n, page[b] - npages);
      SizedElsewhere(page[..], after[1..], n, page[b] - npages);
      next[n] := next[b];
      page[n] := page[b] - npages;
      SizedRuns(before, left, after[1..]);
      StartsJoin([left], after[1..]);
      assert Starts([left]) == [n];
      SetPrev(prev, n, before, [left] + after[1..], b);
      runs := before + ([left] + after[1..]);
    }

    /** rt_page_free. */
    method Release(n: nat, npages: nat)
      requires Valid() && npages > 0 && n + npages <= next.Length
      requires forall q: nat :: n <= q < n + npages ==> !Free(runs, q)
      modifies this, next, page
      ensures Valid() && runs == Put(old(runs), n, npages)
    {
      hide Canonical, Free, Chained, Put, NoDup, Starts, Sized;
      PutCanonical(runs, n, npages);
      var (prev, b) := (NULL, head);
      ghost var i := 0;
      assert runs[0..] == runs;
      while b != NULL
        invariant Valid() && runs == old(runs)
        invariant i <= |runs| && b == At(Starts(runs), i, NULL)
        invariant prev == if i == 0 then NULL else runs[i - 1].start
        invariant forall r <- runs[..i] :: r.start < n && End(r) < n
        decreases |runs| - i
      {
        NodeAt(i);
        Beside(runs, runs[i], n, npages);
        PutHere(i, n, npages);
        if b + page[b] == n {
          Extend(b, n, npages, runs[..i], runs[i..]);
          return;
        }
        if b == n + npages {
          Lower(prev, b, n, npages, runs[..i], runs[i..]);
          return;
        }
        if b > n + npages {
          break;
        }
        prev := b;
        b := next[b];
        i := i + 1;
      }
      PutHere(i, n, npages);
      InsertRun(prev, b, n, npages, runs[..i], runs[i..]);
    }

    lemma PutHere(i: nat, n: nat, npages: nat)
      requires i <= |runs| && forall r <- runs[..i] :: End(r) < n && r.start < n
      ensures runs == runs[..i] + runs[i..]
      ensures Put(runs, n, npages) == runs[..i] + Put(runs[i..], n, npages)
    {
      assert runs == runs[..i] + runs[i..];
      PutSkips(runs[..i], runs[i..], n, npages);
    }

    /** The span follows run b: the run grows, and swallows the next one if it now touches it. */
    method Extend(b: nat, n: nat, npages: nat, ghost before: seq<Run>, ghost after: seq<Run>)
      requires Valid() && runs == before + after && after != [] && b == after[0].start && End(after[0]) == n
      requires n + npages <= next.Length && Canonical(before + Put(after, n, npages))
      modifies this, next, page
      ensures Valid() && runs == before + Put(after, n, npages)
    {
      hide Canonical, Free, Chained, Put, NoDup, Starts, Sized;
      Around(before, after);
      PutHead(after, n, npages);
      SizedElsewhere(page[..], before, b, page[b] + npages);
      SizedElsewhere(page[..], after[1..], b, page[b] + npages);
      page[b] := page[b] + npages;
      if b + page[b] == next[b] {
        Merge(b, next[b], before, after);
      } else {
        ghost var r := Run(b, page[b]);
        SizedRuns(before, r, after[1..]);
        assert Starts([r] + after[1..]) == Starts(after);
        StartsJoin(before, [r] + after[1..]);
        StartsJoin(before, after);
        runs := before + ([r] + after[1..]);
      }
    }

    /** Run b has grown up to run m: m is dropped from the list. */
    method Merge(b: nat, m: nat, ghost before: seq<Run>, ghost after: seq<Run>)
      requires |after| >= 2 && b == after[0].start && m == after[1].start && b < next.Length == page.Length
      requires Chained(next[..], Starts(before), b) && NoDup(Starts(before)) && b !in Starts(before)
      requires Chained(next[..], Starts(after[1..]), NULL) && next[b] == m
      requires forall x <- Starts(before) :: x !in Starts(after[1..])
      requires b !in Starts(after[1..]) && head == if before == [] then b else before[0].start
      requires Sized(page[..], before) && Sized(page[..], after[1..]) && End(after[1]) <= next.Length
      requires b + page[b] == m
      requires Canonical(before + ([Run(b, page[b] + after[1].len)] + after[2..]))
      modifies this, next, page
      ensures Valid() && runs == before + ([Run(b, old(page[b]) + after[1].len)] + after[2..])
    {
      hide Canonical, Free, Chained, NoDup, Starts, Sized;
      var rest := after[2..];
      assert after[1..] == [after[1]] + rest;
      SizedJoin(page[..], [after[1]], rest);
      SizedHead(page[..], after[1..]);
      StartsJoin([after[1]], rest);
      ChainedTail(next[..], Starts(after[1..]), NULL);
      assert Starts(after[1..])[1..] == Starts(rest);
      SizedElsewhere(page[..], before, b, page[b] + page[m]);
      SizedElsewhere(page[..], rest, b, page[b] + page[m]);
      page[b] := page[b] + page[m];
      ghost var r := Run(b, page[b]);
      SizedRuns(before, r, rest);
      StartsJoin(before, [r]);
      assert Starts([r]) == [b];
      LastLink(next[..], Starts(before), b, m);
      SetPrev(b, next[m], before + [r], rest, m);
      assert (before + [r]) + rest == before + ([r] + rest);
      runs := before + ([r] + rest);
    }

    /** The span ends where run b starts: the run starts earlier. */
    method Lower(prev: int, b: nat, n: nat, npages: nat, ghost before: seq<Run>, ghost after: seq<Run>)
      requires Valid() && runs == before + after && after != [] && b == after[0].start == n + npages
      requires End(after[0]) != n && !Free(runs, n) && npages > 0
      requires prev == if before == [] then NULL else before[|before| - 1].start
      requires Canonical(before + Put(after, n, npages))
      modifies this, next, page
      ensures Valid() && runs == before + Put(after, n, npages)
    {
      hide Canonical, Free, Chained, Put, NoDup, Starts, Sized;
      Around(before, after);
      PutHead(after, n, npages);
      NotAStart(runs, n, after[0]);
      NotIn(before, after, n);
      ChainedElsewhere(next[..], Starts(before), n, next[b], b);
      ChainedPush(next[..], Starts(after[1..]), n, NULL);
      SizedElsewhere(page[..], before, n, page[b] + npages);
      SizedElsewhere(page[..], after[1..], n, page[b] + npages);
      page[n] := page[b] + npages;
      next[n] := next[b];
      ghost var r := Run(n, page[n]);
      SizedRuns(before, r, after[1..]);
      StartsJoin([r], after[1..]);
      assert Starts([r]) == [n];
      SetPrev(prev, n, before, [r] + after[1..], b);
      runs := before + ([r] + after[1..]);
    }

    /** The span touches no run. */
    method InsertRun(prev: int, b: int, n: nat, npages: nat, ghost before: seq<Run>, ghost after: seq<Run>)
      requires Valid() && runs == before + after && b == At(Starts(after), 0, NULL)
      requires after == [] || (End(after[0]) != n && after[0].start > n + npages)
      requires !Free(runs, n) && npages > 0 && n + npages <= next.Length
      requires prev == if before == [] then NULL else before[|before| - 1].start
      requires Canonical(before + Put(after, n, npages))
      modifies this, next, page
      ensures Valid() && runs == before + Put(after, n, npages)
    {
      hide Canonical, Free, Chained, Put, NoDup, Starts, Sized;
      Around(before, after);
      PutHead(after, n, npages);
      NotAStart(runs, n, Run(n, npages));
      NotIn(before, after, n);
      ChainedElsewhere(next[..], Starts(before), n, b, b);
      ChainedPush(next[..], Starts(after), n, NULL);
      SizedElsewhere(page[..], before, n, npages);
      SizedElsewhere(page[..], after, n, npages);
      page[n] := npages;
      next[n] := b;
      ghost var r := Run(n, npages);
      SizedRuns(before, r, after);
      StartsJoin([r], after);
      assert Starts([r]) == [n];
      SetPrev(prev, n, before, [r] + after, b);
      runs := before + ([r] + after);
    }
  }
}

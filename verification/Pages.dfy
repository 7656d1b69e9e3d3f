/**
 * The page allocator of slab.c: a list of runs of free pages in address order. The list is
 * determined by the set of free pages.
 */
module Pages {
  import opened Base
  import opened Lists
  import opened Chains

  /** len free pages from page number start on. */
  datatype Run = Run(start: nat, len: nat)

  function End(r: Run): nat {
    r.start + r.len
  }

  /** Page q is free. */
  ghost predicate Free(runs: seq<Run>, q: nat) {
    exists r <- runs :: r.start <= q < End(r)
  }

  /** n pages from p on are free. */
  ghost predicate FreeSpan(runs: seq<Run>, p: nat, n: nat) {
    forall q: nat :: p <= q < p + n ==> Free(runs, q)
  }

  /** Runs are ascending, not empty, and no two of them touch. */
  ghost predicate Canonical(runs: seq<Run>) {
    && (forall i :: 0 <= i < |runs| ==> runs[i].len >= 1)
    && (forall i, j :: 0 <= i < j < |runs| ==> End(runs[i]) < runs[j].start)
  }

  /** rt_page_alloc: the first run that is large enough gives its lowest pages. */
  function Take(runs: seq<Run>, n: nat): (Option<nat>, seq<Run>) {
    if runs == [] then (None, [])
    else if runs[0].len > n then (Some(runs[0].start), [Run(runs[0].start + n, runs[0].len - n)] + runs[1..])
    else if runs[0].len == n then (Some(runs[0].start), runs[1..])
    else
      var (p, rest) := Take(runs[1..], n);
      (p, [runs[0]] + rest)
  }

  /** rt_page_free: extend a run, close a gap, or put in a new run. */
  function Put(runs: seq<Run>, a: nat, n: nat): seq<Run> {
    if runs == [] then [Run(a, n)]
    else if End(runs[0]) == a then
      if |runs| >= 2 && a + n == runs[1].start then [Run(runs[0].start, runs[0].len + n + runs[1].len)] + runs[2..]
      else [Run(runs[0].start, runs[0].len + n)] + runs[1..]
    else if runs[0].start == a + n then [Run(a, n + runs[0].len)] + runs[1..]
    else if runs[0].start > a + n then [Run(a, n)] + runs
    else [runs[0]] + Put(runs[1..], a, n)
  }

  lemma FreeCons(r: Run, rest: seq<Run>, q: nat)
    ensures Free([r] + rest, q) <==> r.start <= q < End(r) || Free(rest, q)
  {
    assert r in [r] + rest;
    assert forall x <- rest :: x in [r] + rest;
  }

  lemma CanonicalTail(runs: seq<Run>)
    requires Canonical(runs) && runs != []
    ensures runs == [runs[0]] + runs[1..] && Canonical(runs[1..])
    ensures forall q: nat :: Free(runs[1..], q) ==> End(runs[0]) < q
    ensures |runs| >= 2 ==> End(runs[0]) < runs[1].start
  {
  }

  lemma CanonicalCons(r: Run, rest: seq<Run>)
    requires r.len >= 1 && Canonical(rest) && (rest != [] ==> End(r) < rest[0].start)
    ensures Canonical([r] + rest)
  {
    var c := [r] + rest;
    forall i, j | 0 <= i < j < |c| ensures End(c[i]) < c[j].start {
      if i > 0 {
        assert c[i] == rest[i - 1];
      } else if j > 1 {
        assert End(rest[0]) < rest[j - 1].start;
      }
    }
  }

  /** Putting a run in front of a list frees its pages and no others. */
  lemma FrontRun(r: Run, rest: seq<Run>)
    requires r.len >= 1 && Canonical(rest) && (rest != [] ==> End(r) < rest[0].start)
    ensures Canonical([r] + rest)
    ensures forall q: nat :: Free([r] + rest, q) <==> r.start <= q < End(r) || Free(rest, q)
  {
    CanonicalCons(r, rest);
    forall q: nat ensures Free([r] + rest, q) <==> r.start <= q < End(r) || Free(rest, q) {
      FreeCons(r, rest, q);
    }
  }

  /** Free pages next to each other are in one run. */
  lemma SpanInRun(runs: seq<Run>, p: nat, n: nat) returns (r: Run)
    requires Canonical(runs) && n > 0 && FreeSpan(runs, p, n)
    ensures r in runs && r.start <= p && p + n <= End(r)
  {
    assert Free(runs, p);
    r :| r in runs && r.start <= p < End(r);
    EndNotFree(runs, r);
  }

  lemma EndNotFree(runs: seq<Run>, r: Run)
    requires Canonical(runs) && r in runs
    ensures !Free(runs, End(r))
  {
  }

  /** Two lists of free runs that free the same pages are the same list. */
  lemma {:induction false} Unique(a: seq<Run>, b: seq<Run>)
    requires Canonical(a) && Canonical(b)
    requires forall q: nat :: Free(a, q) <==> Free(b, q)
    ensures a == b
    decreases |a|
  {
    if a != [] {
      HeadFree(a);
    }
    if b != [] {
      HeadFree(b);
    }
    if a != [] && b != [] {
      SameHead(a, b);
      CanonicalTail(a);
      CanonicalTail(b);
      forall q: nat ensures Free(a[1..], q) <==> Free(b[1..], q) {
        FreeCons(a[0], a[1..], q);
        FreeCons(b[0], b[1..], q);
      }
      Unique(a[1..], b[1..]);
    }
  }

  lemma HeadFree(a: seq<Run>)
    requires Canonical(a) && a != []
    ensures Free(a, a[0].start)
  {
    assert a[0] in a;
  }

  lemma SameHead(a: seq<Run>, b: seq<Run>)
    requires Canonical(a) && Canonical(b) && a != [] && b != []
    requires forall q: nat :: Free(a, q) <==> Free(b, q)
    ensures a[0] == b[0]
  {
    HeadFirst(a);
    HeadFirst(b);
    assert Free(a, b[0].start) && Free(b, a[0].start);
    assert Free(a, End(a[0])) <==> Free(b, End(a[0]));
    assert Free(a, End(b[0])) <==> Free(b, End(b[0]));
  }

  /** The first run is the lowest stretch of free pages. */
  lemma HeadFirst(a: seq<Run>)
    requires Canonical(a) && a != []
    ensures forall q: nat :: Free(a, q) ==> a[0].start <= q
    ensures forall q: nat :: a[0].start <= q < End(a[0]) ==> Free(a, q)
    ensures !Free(a, End(a[0]))
  {
    assert a[0] in a;
  }

  /** Allocation takes the lowest pages that fit, and fails only if none do. */
  lemma {:induction false} TakeLowest(runs: seq<Run>, n: nat)
    requires Canonical(runs) && n > 0
    ensures var (p, rest) := Take(runs, n);
            && Canonical(rest) && (rest != [] && runs != [] ==> runs[0].start <= rest[0].start)
            && match p
               case Some(a) =>
                 && FreeSpan(runs, a, n) && (forall x: nat :: FreeSpan(runs, x, n) ==> a <= x)
                 && forall q: nat :: Free(rest, q) <==> Free(runs, q) && !(a <= q < a + n)
               case None => rest == runs && forall x: nat :: !FreeSpan(runs, x, n)
    decreases |runs|, 1
  {
    if runs == [] {
      forall x: nat ensures !FreeSpan(runs, x, n) {
        assert !Free(runs, x);
      }
    } else {
      var (r, t) := (runs[0], runs[1..]);
      CanonicalTail(runs);
      forall q: nat ensures Free(runs, q) <==> r.start <= q < End(r) || Free(t, q) {
        FreeCons(r, t, q);
      }
      if r.len >= n {
        HeadFirst(runs);
        forall x: nat | FreeSpan(runs, x, n) ensures r.start <= x {
          assert Free(runs, x);
        }
        if r.len > n {
          var r' := Run(r.start + n, r.len - n);
          CanonicalCons(r', t);
          forall q: nat ensures Free([r'] + t, q) <==> r'.start <= q < End(r') || Free(t, q) {
            FreeCons(r', t, q);
          }
        }
      } else {
        TakeLater(runs, n);
      }
    }
  }

  lemma TakeLater(runs: seq<Run>, n: nat)
    requires Canonical(runs) && runs != [] && 0 < n && runs[0].len < n
    ensures var (p, rest) := Take(runs, n);
            && Canonical(rest) && rest != [] && rest[0] == runs[0]
            && match p
               case Some(a) =>
                 && FreeSpan(runs, a, n) && (forall x: nat :: FreeSpan(runs, x, n) ==> a <= x)
                 && forall q: nat :: Free(rest, q) <==> Free(runs, q) && !(a <= q < a + n)
               case None => rest == runs && forall x: nat :: !FreeSpan(runs, x, n)
    decreases |runs|, 0
  {
    hide Free, Canonical;
    var (r, t) := (runs[0], runs[1..]);
    var (p, rest) := Take(t, n);
    var rest' := [r] + rest;
    CanonicalTail(runs);
    HeadLength(runs);
    TakeLowest(t, n);
    FrontRun(r, rest);
    FrontRun(r, t);
    forall x: nat | FreeSpan(runs, x, n) ensures FreeSpan(t, x, n) {
      SpanInTail(runs, x, n);
    }
    if p.Some? {
      assert FreeSpan(t, p.value, n) && FreeSpan(runs, p.value, n);
      forall q: nat ensures Free(rest', q) <==> Free(runs, q) && !(p.value <= q < p.value + n) {
        assert Free(t, q) ==> End(r) < q;
      }
    }
  }

  lemma SpanInTail(runs: seq<Run>, x: nat, n: nat)
    requires Canonical(runs) && runs != [] && 0 < n && runs[0].len < n && FreeSpan(runs, x, n)
    ensures FreeSpan(runs[1..], x, n)
  {
    hide Free, Canonical;
    var run := SpanInRun(runs, x, n);
    forall q: nat | x <= q < x + n ensures Free(runs[1..], q) {
      InTail(runs, run, q);
    }
  }

  lemma InTail(runs: seq<Run>, r: Run, q: nat)
    requires r in runs && r != runs[0] && r.start <= q < End(r)
    ensures Free(runs[1..], q)
  {
    assert r in runs[1..];
  }

  /** A span of pages that are not free lies on one side of a run. */
  lemma Beside(runs: seq<Run>, r: Run, a: nat, n: nat)
    requires r in runs && r.len >= 1 && n > 0 && forall q: nat :: a <= q < a + n ==> !Free(runs, q)
    ensures End(r) <= a || a + n <= r.start
  {
    assert Free(runs, r.start);
    if r.start < a < End(r) {
      assert Free(runs, a);
    }
  }

  /** What Put promises. */
  ghost predicate IsUnion(runs: seq<Run>, a: nat, n: nat, u: seq<Run>) {
    && Canonical(u) && u != []
    && u[0].start == (if runs == [] || a < runs[0].start then a else runs[0].start)
    && forall q: nat :: Free(u, q) <==> Free(runs, q) || a <= q < a + n
  }

  /** Freeing is set union, and keeps the runs apart. */
  lemma {:induction false} PutUnion(runs: seq<Run>, a: nat, n: nat)
    requires Canonical(runs) && n > 0
    requires forall q: nat :: a <= q < a + n ==> !Free(runs, q)
    ensures IsUnion(runs, a, n, Put(runs, a, n))
  {
    hide Free, Canonical;
    if runs == [] {
      NothingFree();
      FrontRun(Run(a, n), []);
      assert [Run(a, n)] + [] == [Run(a, n)];
    } else {
      var (r, t) := (runs[0], runs[1..]);
      CanonicalTail(runs);
      HeadLength(runs);
      Beside(runs, r, a, n);
      FrontRun(r, t);
      if t != [] {
        HeadLength(t);
        Beside(runs, t[0], a, n);
      }
      if End(r) == a {
        PutAfterHead(runs, a, n);
      } else if r.start == a + n {
        FrontRun(Run(a, n + r.len), t);
      } else if r.start > a + n {
        FrontRun(Run(a, n), runs);
      } else {
        PutUnion(t, a, n);
        FrontRun(r, Put(t, a, n));
      }
    }
  }

  lemma NothingFree()
    ensures Canonical([]) && forall q: nat :: !Free([], q)
  {
  }

  lemma HeadLength(runs: seq<Run>)
    requires Canonical(runs) && runs != []
    ensures runs[0].len >= 1
  {
  }

  lemma PutAfterHead(runs: seq<Run>, a: nat, n: nat)
    requires Canonical(runs) && n > 0 && runs != [] && End(runs[0]) == a
    requires |runs| >= 2 ==> a + n <= runs[1].start
    ensures IsUnion(runs, a, n, Put(runs, a, n))
  {
    hide Free, Canonical;
    var (r, t) := (runs[0], runs[1..]);
    CanonicalTail(runs);
    HeadLength(runs);
    FrontRun(r, t);
    if t != [] && a + n == t[0].start {
      CanonicalTail(t);
      HeadLength(t);
      FrontRun(t[0], t[1..]);
      FrontRun(Run(r.start, r.len + n + t[0].len), t[1..]);
    } else {
      FrontRun(Run(r.start, r.len + n), t);
    }
  }

  // ---- Runs of requests ----

  /** total pages in all; owned are those handed out. */
  datatype Sys = Sys(total: nat, runs: seq<Run>, owned: set<nat>)

  datatype Event = Alloc(n: nat) | Release(a: nat, n: nat)

  ghost function Span(a: nat, n: nat): set<nat> {
    set q | a <= q < a + n && InSpan(q, a, n)
  }

  ghost predicate InSpan(q: nat, a: nat, n: nat) {
    a <= q < a + n
  }

  ghost predicate Permitted(s: Sys, e: Event) {
    e.Release? ==> e.n > 0 && Span(e.a, e.n) <= s.owned
  }

  ghost function Next(s: Sys, e: Event): Sys {
    match e
    case Alloc(n) =>
      if n == 0 then s
      else
        var (p, rest) := Take(s.runs, n);
        if p.None? then s else s.(runs := rest, owned := s.owned + Span(p.value, n))
    case Release(a, n) => s.(runs := Put(s.runs, a, n), owned := s.owned - Span(a, n))
  }

  /** The runs are in canonical form and free exactly the pages that are not owned. */
  ghost predicate Inv(s: Sys) {
    && Canonical(s.runs) && (forall q <- s.owned :: q < s.total)
    && forall q: nat :: Free(s.runs, q) <==> q < s.total && q !in s.owned
  }

  lemma StepInv(s: Sys, e: Event)
    requires Inv(s) && Permitted(s, e)
    ensures Inv(Next(s, e)) && Next(s, e).total == s.total
  {
    hide Free, Canonical, Take, Put;
    match e
    case Alloc(n) =>
      if n > 0 {
        TakeLowest(s.runs, n);
      }
    case Release(a, n) => ReleaseInv(s, a, n);
  }

  lemma ReleaseInv(s: Sys, a: nat, n: nat)
    requires Inv(s) && Permitted(s, Release(a, n))
    ensures Inv(Next(s, Release(a, n)))
  {
    hide Free, Canonical, Put;
    OwnedBelow(s, a, n);
    PutUnion(s.runs, a, n);
    var u := Next(s, Release(a, n));
    forall q: nat ensures Free(u.runs, q) <==> q < u.total && q !in u.owned {
      assert q in Span(a, n) <==> InSpan(q, a, n);
    }
  }

  lemma OwnedBelow(s: Sys, a: nat, n: nat)
    requires Inv(s) && Span(a, n) <= s.owned
    ensures forall q: nat :: a <= q < a + n ==> !Free(s.runs, q)
  {
    forall q: nat | a <= q < a + n ensures !Free(s.runs, q) {
      assert InSpan(q, a, n);
      assert q in Span(a, n);
    }
  }

  ghost predicate PermittedRun(s: Sys, es: seq<Event>)
    decreases |es|
  {
    es == [] || (Permitted(s, es[0]) && PermittedRun(Next(s, es[0]), es[1..]))
  }

  ghost function After(s: Sys, es: seq<Event>): Sys
    requires PermittedRun(s, es)
    decreases |es|
  {
    if es == [] then s else After(Next(s, es[0]), es[1..])
  }

  lemma {:induction false} RunInv(s: Sys, es: seq<Event>)
    requires Inv(s) && PermittedRun(s, es)
    ensures Inv(After(s, es)) && After(s, es).total == s.total
    decreases |es|
  {
    if es != [] {
      StepInv(s, es[0]);
      RunInv(Next(s, es[0]), es[1..]);
    }
  }

  /** Once the same pages are owned as before, the list is the same as before. */
  lemma ListRestored(s: Sys, es: seq<Event>)
    requires Inv(s) && PermittedRun(s, es) && After(s, es).owned == s.owned
    ensures After(s, es).runs == s.runs
  {
    RunInv(s, es);
    Unique(After(s, es).runs, s.runs);
  }

  /** From rt_page_init on: when all pages are back, there is one run again. */
  lemma AllFreed(total: nat, es: seq<Event>)
    requires total > 0
    requires PermittedRun(Sys(total, Put([], 0, total), {}), es)
    requires After(Sys(total, Put([], 0, total), {}), es).owned == {}
    ensures After(Sys(total, Put([], 0, total), {}), es).runs == [Run(0, total)]
  {
    var s := Sys(total, Put([], 0, total), {});
    PutUnion([], 0, total);
    NothingFree();
    ListRestored(s, es);
  }
}

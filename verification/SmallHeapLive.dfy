/**
 * Blocks in use of the small heap: what each operation does to them, over whole runs, and whether
 * they hold what was asked for.
 */
module SmallHeapLive {
  import opened Base
  import opened Tiling
  import opened SmallHeap
  import opened SmallHeapLaws
  import O = Occupancy

  /** A block in use, with its header, from offset s to offset e. */
  ghost predicate InUse(h: Heap, s: nat, e: nat) {
    O.InUse(h.blocks, End(h), s, e)
  }

  /** The blocks in use after an operation: those of before, without the one at gone, and with one from s to e. */
  ghost predicate Gains(h: Heap, h': Heap, gone: Option<nat>, s: nat, e: nat) {
    forall t, f :: InUse(h', t, f) <==> (InUse(h, t, f) && gone != Some(t)) || (t == s && f == e)
  }

  ghost predicate Loses(h: Heap, h': Heap, gone: nat) {
    forall t, f :: InUse(h', t, f) <==> InUse(h, t, f) && t != gone
  }

  /** A client's pointer is good exactly while its block is in use. */
  lemma LiveInUse(h: Heap, s: nat)
    requires Inv(h)
    ensures LiveAt(h, s) <==> exists e :: InUse(h, s, e)
    ensures LiveAt(h, s) ==> InUse(h, s, After(h, IndexOf(h.blocks, s)))
  {
    var i := IndexOf(h.blocks, s);
    O.Found(h.blocks, End(h), HEADER, s, After(h, i));
    if e :| InUse(h, s, e) {
      O.Found(h.blocks, End(h), HEADER, s, e);
    }
    assert LiveAt(h, s) ==> InUse(h, s, After(h, i));
  }

  /** Blocks in use do not overlap, have room for their headers, and lie in the heap. */
  lemma PayloadsApart(h: Heap, s: nat, e: nat, t: nat, f: nat)
    requires Inv(h) && InUse(h, s, e) && InUse(h, t, f)
    ensures s + HEADER <= e <= End(h) && ((s == t && e == f) || e <= t || f <= s)
  {
    O.Apart(h.blocks, End(h), HEADER, s, e, t, f);
  }

  // ---- Free ----

  lemma ForwardUse(h: Heap, i: nat, t: nat, f: nat)
    requires i < |h.blocks| && !h.blocks[i].used
    ensures var h1 := PlugForward(h, i);
            i < |h1.blocks| && !h1.blocks[i].used && (InUse(h1, t, f) <==> InUse(h, t, f))
  {
    hide O.InUse;
    if i + 1 < |h.blocks| && !h.blocks[i + 1].used {
      O.Merged(h.blocks, End(h), i, t, f);
    }
  }

  lemma BackwardUse(h: Heap, i: nat, t: nat, f: nat)
    requires i < |h.blocks| && !h.blocks[i].used
    ensures InUse(PlugBackward(h, i), t, f) <==> InUse(h, t, f)
  {
    hide O.InUse;
    if i > 0 && !h.blocks[i - 1].used {
      O.Merged(h.blocks, End(h), i - 1, t, f);
    }
  }

  lemma PluggedUse(h: Heap, i: nat, t: nat, f: nat)
    requires i < |h.blocks| && !h.blocks[i].used
    ensures i < |PlugForward(h, i).blocks| && (InUse(Plugged(h, i), t, f) <==> InUse(h, t, f))
  {
    hide InUse, PlugForward, PlugBackward;
    ForwardUse(h, i, t, f);
    BackwardUse(PlugForward(h, i), i, t, f);
  }

  /** rt_free keeps the invariant, takes this block away, and no other changes start or end. */
  lemma FreeCorrect(h: Heap, i: nat)
    requires Inv(h) && i < |h.blocks| && h.blocks[i].used
    ensures Inv(Free(h, i)) && Loses(h, Free(h, i), h.blocks[i].start)
  {
    FreeInv(h, i);
    var h1 := Released(h, i);
    forall t, f ensures InUse(Free(h, i), t, f) <==> InUse(h, t, f) && t != h.blocks[i].start {
      O.Marked(h.blocks, End(h), HEADER, i, false, t, f);
      PluggedUse(h1, i, t, f);
    }
  }

  // ---- Malloc ----

  /** Where block k ends once n bytes of it are handed out. */
  function NewEnd(h: Heap, k: nat, n: nat): nat
    requires k < |h.blocks|
  {
    if Splits(h, k, n) then h.blocks[k].start + HEADER + n else After(h, k)
  }

  lemma AllocatedUse(h: Heap, k: nat, n: nat, t: nat, f: nat)
    requires Inv(h) && k < |h.blocks| && Fits(h, k, n) && n % 8 == 0
    ensures InUse(Allocated(h, k, n), t, f) <==> InUse(h, t, f) || (t == h.blocks[k].start && f == NewEnd(h, k, n))
  {
    hide O.InUse, Coalesced, LfreeOk, Total, Aligned, Roomy;
    var (s, at) := (h.blocks[k].start, h.blocks[k].start + HEADER + n);
    FreeNotInUse(h, k, f);
    if Splits(h, k, n) {
      SplitTiled(h.blocks, k, at, End(h), HEADER);
      O.Cut(h.blocks, End(h), HEADER, k, at, t, f);
      O.Marked(Split(h.blocks, k, at), End(h), HEADER, k, true, t, f);
    } else {
      O.Marked(h.blocks, End(h), HEADER, k, true, t, f);
    }
  }

  lemma FreeNotInUse(h: Heap, k: nat, f: nat)
    requires Inv(h) && k < |h.blocks| && !h.blocks[k].used
    ensures !InUse(h, h.blocks[k].start, f) && !LiveAt(h, h.blocks[k].start)
  {
    hide O.InUse;
    IndexOfStart(h.blocks, End(h), HEADER, k);
    O.Found(h.blocks, End(h), HEADER, h.blocks[k].start, f);
  }

  lemma AllocatedGains(h: Heap, k: nat, n: nat)
    requires Inv(h) && k < |h.blocks| && Fits(h, k, n) && n % 8 == 0
    ensures Gains(h, Allocated(h, k, n), None, h.blocks[k].start, NewEnd(h, k, n)) && !LiveAt(h, h.blocks[k].start)
    ensures NewEnd(h, k, n) >= h.blocks[k].start + HEADER + n
  {
    FreeNotInUse(h, k, 0);
    hide Inv, InUse, Allocated;
    forall t, f ensures InUse(Allocated(h, k, n), t, f)
                        <==> InUse(h, t, f) || (t == h.blocks[k].start && f == NewEnd(h, k, n)) {
      AllocatedUse(h, k, n, t, f);
    }
  }

  /**
   * rt_malloc hands out a block that nobody had, at an aligned address and with room for the rounded
   * request, and no other block in use changes; or it fails and changes nothing.
   */
  lemma MallocCorrect(h: Heap, size: u32)
    requires Inv(h)
    ensures var (h', r) := Malloc(h, size);
            && Inv(h') && h'.size == h.size
            && match r
               case None => h' == h
               case Some(s) =>
                 && !LiveAt(h, s) && s % 8 == 0
                 && exists e: nat :: e >= s + HEADER + AtLeastMin(Rounded(size)) && Gains(h, h', None, s, e)
  {
    MallocInv(h, size);
    MallocForm(h, size);
    hide Inv, Malloc, Rounded, AtLeastMin, Find, Allocated, InUse, Gains, NewEnd, Fits;
    if Malloc(h, size).1.Some? {
      AllocatedGains(h, IndexOf(h.blocks, Malloc(h, size).1.value), AtLeastMin(Rounded(size)));
    }
  }

  // ---- Realloc ----

  lemma ShrunkUse(h: Heap, i: nat, n: nat)
    requires Inv(h) && i < |h.blocks| && h.blocks[i].used && Shrinks(h, i, n) && n % 8 == 0
    ensures var s := h.blocks[i].start; Gains(h, Shrunk(h, i, n), Some(s), s, s + HEADER + n)
  {
    var s := h.blocks[i].start;
    forall t, f
      ensures InUse(Shrunk(h, i, n), t, f) <==> (InUse(h, t, f) && t != s) || (t == s && f == s + HEADER + n)
    {
      O.Cut(h.blocks, End(h), HEADER, i, s + HEADER + n, t, f);
      PluggedUse(Cut(h, i, n), i + 1, t, f);
      hide O.InUse, Inv;
    }
  }

  lemma MovedUse(h: Heap, i: nat, n: u32)
    requires Inv(h) && i < |h.blocks| && h.blocks[i].used
    ensures var (h', r) := Moved(h, i, n);
            match r
            case None => h' == h
            case Some(t) =>
              && t != h.blocks[i].start && !LiveAt(h, t)
              && exists e: nat :: e >= t + HEADER + AtLeastMin(Rounded(n))
                  && Gains(h, h', Some(h.blocks[i].start), t, e)
  {
    hide Inv, Malloc, Rounded, AtLeastMin, Free, Moved, Gains, Loses, LiveAt;
    MovedInv(h, i, n);
    MallocCorrect(h, n);
    var (h1, r) := Malloc(h, n);
    if r.Some? {
      var (s, t) := (h.blocks[i].start, r.value);
      var e :| e >= t + HEADER + AtLeastMin(Rounded(n)) && Gains(h, h1, None, t, e);
      FreeCorrect(h1, IndexOf(h1.blocks, s));
      GainsThenLoses(h, h1, Moved(h, i, n).0, t, e, s);
    } else {
      MovedNone(h, i, n);
    }
  }

  lemma GainsThenLoses(h: Heap, h1: Heap, h2: Heap, t: nat, e: nat, gone: nat)
    requires Gains(h, h1, None, t, e) && Loses(h1, h2, gone) && t != gone
    ensures Gains(h, h2, Some(gone), t, e)
  {
    hide InUse;
  }

  lemma MovedNone(h: Heap, i: nat, n: u32)
    requires Inv(h) && i < |h.blocks| && Malloc(h, n).1.None?
    ensures Moved(h, i, n) == (h, None)
  {
    MallocInv(h, n);
  }

  /**
   * rt_realloc of a block in use: the data's block, where it was or moved, has room for the rounded
   * size, the old one is gone if it moved, and no other block changes; or it fails and changes nothing.
   */
  lemma ReallocCorrect(h: Heap, i: nat, newsize: u32)
    requires Inv(h) && i < |h.blocks| && h.blocks[i].used
    ensures var (h', r) := Realloc(h, Some(i), newsize);
            && Inv(h')
            && match r
               case None => h' == h
               case Some(t) =>
                 && (t != h.blocks[i].start ==> !LiveAt(h, t))
                 && exists e: nat :: e >= t + HEADER + Rounded(newsize) && Gains(h, h', Some(h.blocks[i].start), t, e)
  {
    hide Inv, Malloc, Rounded, AtLeastMin, Shrunk, Moved, Gains, LiveAt;
    ReallocInv(h, Some(i), newsize);
    RoundedAgain(newsize);
    var (n, s) := (Rounded(newsize), h.blocks[i].start);
    if n <= h.size {
      if After(h, i) - s - HEADER == n {
        StaysInUse(h, i);
      } else if Shrinks(h, i, n) {
        ShrunkUse(h, i, n);
      } else {
        MovedUse(h, i, n);
      }
    }
  }

  lemma RoundedAgain(size: u32)
    ensures Rounded(size) % 8 == 0 && Rounded(Rounded(size)) == Rounded(size) <= AtLeastMin(Rounded(size))
  {
  }

  lemma StaysInUse(h: Heap, i: nat)
    requires Inv(h) && i < |h.blocks| && h.blocks[i].used
    ensures var s := h.blocks[i].start; Gains(h, h, Some(s), s, After(h, i))
  {
    var s := h.blocks[i].start;
    IndexOfStart(h.blocks, End(h), HEADER, i);
    forall f ensures InUse(h, s, f) <==> f == After(h, i) {
      O.Found(h.blocks, End(h), HEADER, s, f);
    }
  }

  // ---- Runs ----

  /** The event names another block. */
  predicate Spares(e: Event, s: nat) {
    match e
    case MallocEv(_) => true
    case FreeEv(x) => x != s
    case ReallocEv(x, _) => x != Some(s)
  }

  lemma StepKeeps(h: Heap, ev: Event, s: nat, e: nat)
    requires Inv(h) && Permitted(h, ev) && InUse(h, s, e) && Spares(ev, s)
    ensures InUse(Next(h, ev), s, e)
  {
    hide Inv, Malloc, Free, Realloc, InUse, Rounded, IndexOf;
    match ev
    case MallocEv(size) => MallocCorrect(h, size);
    case FreeEv(x) => FreeCorrect(h, IndexOf(h.blocks, x));
    case ReallocEv(x, size) =>
      if x.Some? {
        ReallocCorrect(h, IndexOf(h.blocks, x.value), size);
      } else {
        ReallocNothing(h, size);
        MallocCorrect(h, Rounded(size));
      }
  }

  lemma ReallocNothing(h: Heap, size: u32)
    ensures Realloc(h, None, size).0 == h || Realloc(h, None, size) == Malloc(h, Rounded(size))
  {
  }

  /** Over any run a block that is in use and that nobody frees or reallocates keeps its start and its end. */
  lemma {:induction false} RunKeeps(h: Heap, es: seq<Event>, s: nat, e: nat)
    requires Inv(h) && PermittedRun(h, es) && InUse(h, s, e) && forall ev <- es :: Spares(ev, s)
    ensures InUse(AfterRun(h, es), s, e)
    decreases |es|
  {
    hide Inv, InUse, Permitted, Next;
    if es != [] {
      StepInv(h, es[0]);
      StepKeeps(h, es[0], s, e);
      RunKeeps(Next(h, es[0]), es[1..], s, e);
    }
  }

  // ---- Whether a grant holds the request ----

  /** The block handed out holds the request exactly if rounding it up does not wrap around. */
  lemma GrantsRequest(h: Heap, size: u32, e: nat)
    requires Inv(h) && End(h) + 7 < TWO32 && Malloc(h, size).1.Some?
    requires InUse(Malloc(h, size).0, Malloc(h, size).1.value, e)
    ensures e - (Malloc(h, size).1.value + HEADER) >= size <==> size + 7 < TWO32
  {
    hide Inv, Malloc, InUse, Rounded, AtLeastMin, LiveAt;
    var (h', s) := (Malloc(h, size).0, Malloc(h, size).1.value);
    MallocCorrect(h, size);
    PayloadsApart(h', s, e, s, e);
    var f: nat :| f >= s + HEADER + AtLeastMin(Rounded(size)) && Gains(h, h', None, s, f);
    assert InUse(h', s, f);
    PayloadsApart(h', s, e, s, f);
    RoundedCovers(size);
  }

  /** So does the block that rt_realloc returns. */
  lemma ReallocGrantsRequest(h: Heap, i: nat, newsize: u32, e: nat)
    requires Inv(h) && End(h) + 7 < TWO32 && i < |h.blocks| && h.blocks[i].used && Realloc(h, Some(i), newsize).1.Some?
    requires var (h', r) := Realloc(h, Some(i), newsize); InUse(h', r.value, e)
    ensures e - (Realloc(h, Some(i), newsize).1.value + HEADER) >= newsize <==> newsize + 7 < TWO32
  {
    hide Inv, Realloc, InUse, Rounded, AtLeastMin, LiveAt;
    var (h', t) := (Realloc(h, Some(i), newsize).0, Realloc(h, Some(i), newsize).1.value);
    ReallocCorrect(h, i, newsize);
    PayloadsApart(h', t, e, t, e);
    var f: nat :| f >= t + HEADER + Rounded(newsize) && Gains(h, h', Some(h.blocks[i].start), t, f);
    assert InUse(h', t, f);
    PayloadsApart(h', t, e, t, f);
    RoundedCovers(newsize);
    ReallocKeepsEnd(h, i, newsize);
  }

  lemma ReallocKeepsEnd(h: Heap, i: nat, newsize: u32)
    requires Inv(h) && i < |h.blocks| && h.blocks[i].used
    ensures End(Realloc(h, Some(i), newsize).0) == End(h)
  {
    hide Inv, Rounded;
  }

  lemma RoundedCovers(size: u32)
    ensures size + 7 < TWO32 ==> size <= Rounded(size) <= AtLeastMin(Rounded(size))
  {
  }

  /** A block of 104 bytes that is to grow to 4294967295 is returned without payload. */
  lemma WrappedRealloc()
    ensures Inv(TwoTaken()) && InUse(TwoTaken(), 0, HEADER + 104)
    ensures Realloc(TwoTaken(), Some(0), 0xFFFF_FFFF).1 == Some(0)
    ensures InUse(Realloc(TwoTaken(), Some(0), 0xFFFF_FFFF).0, 0, HEADER)
  {
    hide Inv, Shrunk;
    var h := TwoTaken();
    TwoTakenInv();
    assert Rounded(0xFFFF_FFFF) == 0 && Shrinks(h, 0, 0);
    assert h.blocks[0] == Block(0, true) && Edge(h.blocks, 1, End(h)) == HEADER + 104;
    ShrunkUse(h, 0, 0);
  }

  /** A request that wraps is granted the smallest block. */
  lemma WrappedGrant()
    ensures Inv(Fresh(1024)) && Malloc(Fresh(1024), 0xFFFF_FFFF).1 == Some(0)
    ensures InUse(Malloc(Fresh(1024), 0xFFFF_FFFF).0, 0, HEADER + MIN_ALIGNED)
  {
    var h := Fresh(1024);
    FreshInv(1024);
    assert Rounded(0xFFFF_FFFF) == 0 && AtLeastMin(0) == 16;
    assert Find(h, 16, 0) == Some(0);
    AllocatedUse(h, 0, 16, 0, HEADER + MIN_ALIGNED);
  }
}

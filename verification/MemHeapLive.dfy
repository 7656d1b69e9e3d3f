/**
 * Blocks in use of the boundary tag heap: what each operation does to them, over whole runs, whether
 * they hold what was asked for, and whether they are aligned.
 */
module MemHeapLive {
  import opened Base
  import opened Tiling
  import opened MemHeap
  import O = Occupancy

  /** A block in use, with its header, from offset s to offset e. */
  ghost predicate InUse(h: Heap, s: nat, e: nat) {
    O.InUse(h.blocks, h.end, s, e)
  }

  /** The blocks in use after an operation: those of before, and one from s to e. */
  ghost predicate Gains(h: Heap, h': Heap, s: nat, e: nat) {
    forall t, f :: InUse(h', t, f) <==> InUse(h, t, f) || (t == s && f == e)
  }

  ghost predicate Loses(h: Heap, h': Heap, gone: nat) {
    forall t, f :: InUse(h', t, f) <==> InUse(h, t, f) && t != gone
  }

  /** A client's pointer is good exactly while its block is in use. */
  lemma LiveInUse(h: Heap, s: nat)
    requires Inv(h)
    ensures Permitted(h, FreeEv(s)) <==> exists e :: InUse(h, s, e)
  {
    var i := IndexOf(h.blocks, s);
    O.Found(h.blocks, h.end, HEADER, s, After(h, i));
    assert Permitted(h, FreeEv(s)) ==> InUse(h, s, After(h, i));
    if e :| InUse(h, s, e) {
      O.Found(h.blocks, h.end, HEADER, s, e);
    }
  }

  /** Blocks in use do not overlap, have room for their headers, and lie in the pool. */
  lemma PayloadsApart(h: Heap, s: nat, e: nat, t: nat, f: nat)
    requires Inv(h) && InUse(h, s, e) && InUse(h, t, f)
    ensures s + HEADER <= e <= h.end && ((s == t && e == f) || e <= t || f <= s)
  {
    O.Apart(h.blocks, h.end, HEADER, s, e, t, f);
  }

  // ---- Free ----

  lemma LeftUse(h: Heap, i: nat, t: nat, f: nat)
    requires i < |h.blocks| && !h.blocks[i].used && FreeAt(h, i - 1)
    ensures InUse(JoinedLeft(h, i), t, f) <==> InUse(h, t, f)
  {
    hide O.InUse;
    O.Merged(h.blocks, h.end, i - 1, t, f);
  }

  lemma RightUse(h: Heap, i: nat, t: nat, f: nat)
    requires i < |h.blocks| && !h.blocks[i].used && FreeAt(h, i + 1)
    ensures InUse(JoinedRight(h, i), t, f) <==> InUse(h, t, f)
  {
    hide O.InUse;
    O.Merged(h.blocks, h.end, i, t, f);
  }

  lemma FreedUse(h: Heap, i: nat, t: nat, f: nat)
    requires Inv(h) && i < |h.blocks| && h.blocks[i].used
    ensures InUse(Free(h, i), t, f) <==> InUse(h, t, f) && t != h.blocks[i].start
  {
    hide O.InUse, Coalesced, Listed, Total, Roomy;
    O.Marked(h.blocks, h.end, HEADER, i, false, t, f);
    var h1 := Released(h, i);
    var left := FreeAt(h1, i - 1);
    var h2 := if left then JoinedLeft(h1, i) else h1;
    var j := if left then i - 1 else i;
    if left { LeftUse(h1, i, t, f); }
    if FreeAt(h2, j + 1) { RightUse(h2, j, t, f); }
  }

  /** rt_memheap_free keeps the invariant, takes this block away, and no other changes start or end. */
  lemma FreeCorrect(h: Heap, i: nat)
    requires Inv(h) && i < |h.blocks| && h.blocks[i].used
    ensures Inv(Free(h, i)) && Loses(h, Free(h, i), h.blocks[i].start)
  {
    hide Inv, InUse, Free;
    FreeInv(h, i);
    forall t, f ensures InUse(Free(h, i), t, f) <==> InUse(h, t, f) && t != h.blocks[i].start {
      FreedUse(h, i, t, f);
    }
  }

  // ---- Alloc ----

  /** Where block k ends once n bytes of it are handed out. */
  function NewEnd(h: Heap, k: nat, n: nat): nat
    requires k < |h.blocks|
  {
    if Splits(h, k, n) then h.blocks[k].start + HEADER + n else After(h, k)
  }

  lemma FreeNotInUse(h: Heap, k: nat, f: nat)
    requires Inv(h) && k < |h.blocks| && !h.blocks[k].used
    ensures !InUse(h, h.blocks[k].start, f) && !Permitted(h, FreeEv(h.blocks[k].start))
  {
    hide O.InUse;
    IndexOfStart(h.blocks, h.end, HEADER, k);
    O.Found(h.blocks, h.end, HEADER, h.blocks[k].start, f);
  }

  lemma AllocatedUse(h: Heap, k: nat, n: nat, t: nat, f: nat)
    requires Inv(h) && k < |h.blocks| && !h.blocks[k].used && After(h, k) - h.blocks[k].start - HEADER >= n > 0
    ensures InUse(Allocated(h, k, n), t, f) <==> InUse(h, t, f) || (t == h.blocks[k].start && f == NewEnd(h, k, n))
  {
    hide O.InUse, Coalesced, Listed, Total, Roomy;
    var (s, at) := (h.blocks[k].start, h.blocks[k].start + HEADER + n);
    FreeNotInUse(h, k, f);
    if Splits(h, k, n) {
      SplitTiled(h.blocks, k, at, h.end, HEADER);
      O.Cut(h.blocks, h.end, HEADER, k, at, t, f);
      O.Marked(Split(h.blocks, k, at), h.end, HEADER, k, true, t, f);
    } else {
      O.Marked(h.blocks, h.end, HEADER, k, true, t, f);
    }
  }

  lemma AllocatedGains(h: Heap, k: nat, n: nat)
    requires Inv(h) && k < |h.blocks| && !h.blocks[k].used && After(h, k) - h.blocks[k].start - HEADER >= n > 0
    ensures Gains(h, Allocated(h, k, n), h.blocks[k].start, NewEnd(h, k, n))
    ensures NewEnd(h, k, n) >= h.blocks[k].start + HEADER + n
  {
    hide Inv, InUse, Allocated;
    forall t, f ensures InUse(Allocated(h, k, n), t, f)
                        <==> InUse(h, t, f) || (t == h.blocks[k].start && f == NewEnd(h, k, n)) {
      AllocatedUse(h, k, n, t, f);
    }
  }

  /** A grant is the block that was found, handed out for the rounded size. */
  lemma AllocForm(h: Heap, size: u32)
    requires Inv(h) && Alloc(h, size).1.Some?
    ensures var (s, n) := (Alloc(h, size).1.value, Request(size));
            var k := IndexOf(h.blocks, s);
            && k < |h.blocks| && h.blocks[k] == Block(s, false) && Alloc(h, size).0 == Allocated(h, k, n)
            && After(h, k) - s - HEADER >= n > 0
  {
    var n := Request(size);
    RequestAtLeast(size);
    hide Inv, Request;
    ListedBlock(h, h.free[Search(h, n, 0).value]);
  }

  /**
   * rt_memheap_alloc hands out a block that nobody had, with room for the rounded request, and no
   * other block in use changes; or it fails and changes nothing.
   */
  lemma AllocCorrect(h: Heap, size: u32)
    requires Inv(h)
    ensures var (h', r) := Alloc(h, size);
            && Inv(h') && h'.end == h.end
            && match r
               case None => h' == h
               case Some(s) =>
                 && !Permitted(h, FreeEv(s))
                 && exists e: nat :: e >= s + HEADER + Request(size) && Gains(h, h', s, e)
  {
    hide Inv, Alloc, Request, Allocated, InUse, Gains, NewEnd;
    AllocInv(h, size);
    if Alloc(h, size).1.Some? {
      AllocForm(h, size);
      var k := IndexOf(h.blocks, Alloc(h, size).1.value);
      FreeNotInUse(h, k, 0);
      AllocatedGains(h, k, Request(size));
    }
  }

  // ---- Runs ----

  lemma StepKeeps(h: Heap, ev: Event, s: nat, e: nat)
    requires Inv(h) && Permitted(h, ev) && InUse(h, s, e) && ev != FreeEv(s)
    ensures Inv(Next(h, ev)) && InUse(Next(h, ev), s, e)
  {
    hide Inv, Alloc, Free, InUse, IndexOf;
    match ev
    case AllocEv(size) => AllocCorrect(h, size);
    case FreeEv(x) => FreeCorrect(h, IndexOf(h.blocks, x));
  }

  /** Over any run a block that is in use and that nobody frees keeps its start and its end. */
  lemma {:induction false} RunKeeps(h: Heap, es: seq<Event>, s: nat, e: nat)
    requires Inv(h) && PermittedRun(h, es) && InUse(h, s, e) && FreeEv(s) !in es
    ensures InUse(AfterRun(h, es), s, e)
    decreases |es|
  {
    hide Inv, InUse, Permitted, Next;
    if es != [] {
      StepKeeps(h, es[0], s, e);
      RunKeeps(Next(h, es[0]), es[1..], s, e);
    }
  }

  // ---- Whether a request is met ----

  /** The block handed out holds the request exactly if rounding it up does not wrap around. */
  lemma GrantsRequest(h: Heap, size: u32, e: nat)
    requires Inv(h) && h.end + 7 < TWO32 && Alloc(h, size).1.Some?
    requires InUse(Alloc(h, size).0, Alloc(h, size).1.value, e)
    ensures e - (Alloc(h, size).1.value + HEADER) >= size <==> size + 7 < TWO32
  {
    hide Inv, Alloc, InUse, Request;
    var (h', s) := (Alloc(h, size).0, Alloc(h, size).1.value);
    AllocCorrect(h, size);
    PayloadsApart(h', s, e, s, e);
    var f: nat :| f >= s + HEADER + Request(size) && Gains(h, h', s, f);
    assert InUse(h', s, f);
    PayloadsApart(h', s, e, s, f);
    RequestAtLeast(size);
  }

  /** A request that wraps is granted the smallest block. */
  lemma WrappedGrant()
    ensures Inv(Fresh(1024)) && Alloc(Fresh(1024), 0xFFFF_FFFF).1 == Some(0)
    ensures InUse(Alloc(Fresh(1024), 0xFFFF_FFFF).0, 0, HEADER + MINI)
  {
    var h := Fresh(1024);
    FreshInv(1024);
    assert Request(0xFFFF_FFFF) == MINI && Room(h, 0) == 1000 && Search(h, MINI, 0) == Some(0);
    AllocatedUse(h, 0, MINI, 0, HEADER + MINI);
  }

  /** Although a block is large enough, a request is refused exactly if it asks for all that is available. */
  lemma RefusedThoughFits(h: Heap, size: u32)
    requires Inv(h) && exists s :: s in h.free && Room(h, s) >= Request(size)
    ensures Alloc(h, size).1.None? <==> Request(size) == h.available
  {
    hide Inv, Alloc, Request;
    var s :| s in h.free && Room(h, s) >= Request(size);
    RoomAvailable(h, s);
    FailsExactly(h, size);
  }

  lemma FreshRequest(end: nat, n: nat)
    requires HEADER + 16 <= end < TWO32 - 7 && end % 8 == 0 && n % 8 == 0 && 16 <= n <= end - HEADER
    ensures Request(n) == n && Alloc(Fresh(end), n).1 == (if n < end - HEADER then Some(0) else None)
  {
    hide Wrap;
    FreshInv(end);
    FailsExactly(Fresh(end), n);
    assert Room(Fresh(end), 0) == end - HEADER;
    AsRequested(n);
  }

  lemma AsRequested(n: nat)
    requires 16 <= n < TWO32 - 7 && n % 8 == 0
    ensures Request(n) == n
  {
  }

  /** A fresh pool refuses a request for all of it, and grants one for less. */
  lemma AllIsRefused(end: nat)
    requires HEADER + 16 <= end < TWO32 - 7 && end % 8 == 0
    ensures Inv(Fresh(end)) && Request(end - HEADER) == end - HEADER == Room(Fresh(end), 0)
    ensures Alloc(Fresh(end), end - HEADER).1.None?
    ensures end >= HEADER + 24 ==> Alloc(Fresh(end), end - HEADER - 8).1 == Some(0)
  {
    FreshInv(end);
    FreshRequest(end, end - HEADER);
    if end >= HEADER + 24 {
      FreshRequest(end, end - HEADER - 8);
    }
    hide Alloc, Request;
  }

  // ---- Alignment ----

  /** Every header, and so every payload, is at a multiple of RT_ALIGN_SIZE. */
  ghost predicate Aligned(h: Heap) {
    forall i :: 0 <= i < |h.blocks| ==> Multiple(h.blocks[i].start)
  }

  predicate Multiple(x: nat) {
    x % 8 == 0
  }

  lemma BehindInEights(s: nat, n: nat)
    requires Multiple(s)
    ensures Multiple(s + n + HEADER) <==> Multiple(n)
  {
  }

  /** Whether the first listed block with room for the minimum of 12 bytes would be split behind them. */
  ghost predicate SplitsMinimum(h: Heap) {
    var k := Search(h, MINI, 0);
    k.Some? && Room(h, h.free[k.value]) >= MINI + HEADER + MINI
  }

  /** A grant keeps all blocks aligned exactly if it is for more than the minimum, or takes its block whole. */
  lemma AlignedExactly(h: Heap, size: u32)
    requires Inv(h) && Aligned(h) && Alloc(h, size).1.Some?
    ensures Aligned(Alloc(h, size).0) <==> Request(size) != MINI || !SplitsMinimum(h)
  {
    hide Inv, Request, Multiple, Room, Allocated;
    AllocForm(h, size);
    RequestInEights(size);
    var (s, n) := (Alloc(h, size).1.value, Request(size));
    var k := IndexOf(h.blocks, s);
    RoomIs(h, s);
    AllocatedAligned(h, k, n);
    assert n == MINI ==> (SplitsMinimum(h) <==> Splits(h, k, n));
  }

  lemma RoomIs(h: Heap, s: nat)
    requires var k := IndexOf(h.blocks, s); k < |h.blocks| && h.blocks[k].start == s
    ensures var k := IndexOf(h.blocks, s); Room(h, s) == After(h, k) - s - HEADER
  {
  }

  lemma AllocatedAligned(h: Heap, k: nat, n: nat)
    requires Aligned(h) && k < |h.blocks|
    ensures Aligned(Allocated(h, k, n)) <==> Multiple(n) || !Splits(h, k, n)
  {
    hide Multiple;
    var h' := Allocated(h, k, n);
    if Splits(h, k, n) {
      assert h'.blocks[k + 1].start == h.blocks[k].start + n + HEADER;
      BehindInEights(h.blocks[k].start, n);
      forall i | 0 <= i < |h'.blocks| && i != k + 1 ensures Multiple(h'.blocks[i].start) {
        assert h'.blocks[i].start == h.blocks[if i <= k then i else i - 1].start;
      }
    } else {
      assert forall i :: 0 <= i < |h.blocks| ==> h'.blocks[i].start == h.blocks[i].start;
    }
  }

  /** A request of more than 8 bytes whose rounding does not wrap keeps all blocks aligned, granted or not. */
  lemma StaysAligned(h: Heap, size: u32)
    requires Inv(h) && Aligned(h) && 8 < size < TWO32 - 7
    ensures Aligned(Alloc(h, size).0)
  {
    hide Inv, Aligned, Alloc;
    RequestIs(size);
    if Alloc(h, size).1.Some? {
      AlignedExactly(h, size);
    } else {
      AllocCorrect(h, size);
    }
  }

  lemma RequestIs(size: u32)
    ensures Request(size) == MINI <==> size <= 8 || size >= TWO32 - 7
  {
  }

  lemma RequestInEights(size: u32)
    ensures (Request(size) == MINI && !Multiple(MINI)) || (Request(size) != MINI && Multiple(Request(size)))
  {
  }

  /** Freeing keeps them aligned. */
  lemma FreeAligned(h: Heap, i: nat)
    requires Aligned(h) && i < |h.blocks|
    ensures Aligned(Free(h, i))
  {
    var h1 := Released(h, i);
    assert Aligned(h1);
    var left := FreeAt(h1, i - 1);
    var h2 := if left then JoinedLeft(h1, i) else h1;
    assert Aligned(h2);
  }

  /** A request of 8 bytes out of a fresh pool misaligns the block behind it. */
  lemma SmallRequestMisaligns()
    ensures Inv(Fresh(1024)) && Aligned(Fresh(1024)) && Alloc(Fresh(1024), 8).1 == Some(0)
    ensures !Aligned(Alloc(Fresh(1024), 8).0)
  {
    var h := Fresh(1024);
    FreshInv(1024);
    assert Request(8) == MINI && Room(h, 0) == 1000 && Search(h, MINI, 0) == Some(0);
    AlignedExactly(h, 8);
  }
}

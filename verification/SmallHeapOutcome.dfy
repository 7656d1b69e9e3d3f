/**
 * What exactly rt_malloc and rt_realloc of mem.c answer: which requests are refused, which block is
 * taken and where it ends, said of the blocks that tile the heap.
 */
module SmallHeapOutcome {
  import opened Base
  import opened Tiling
  import opened SmallHeap
  import opened SmallHeapLaws
  import opened SmallHeapLive

  /** RT_ALIGN: the next multiple of 8, or 0 where that does not fit in a word. */
  lemma RoundedIs(size: u32)
    ensures size + 7 < TWO32 ==> size <= Rounded(size) < size + 8 && Rounded(size) % 8 == 0
    ensures size + 7 >= TWO32 ==> Rounded(size) == 0
  {
  }

  /** What is searched for: the rounded size, at least 16. */
  function Needed(r: nat): nat {
    if r < 16 then 16 else r
  }

  /** Block j is free, starts at lfree or behind it, and holds n bytes well before the end of the heap. */
  ghost predicate Usable(h: Heap, j: int, n: nat) {
    && 0 <= j < |h.blocks| && !h.blocks[j].used && h.lfree <= h.blocks[j].start
    && Edge(h.blocks, j + 1, h.size + HEADER) - h.blocks[j].start - HEADER >= n && h.blocks[j].start + n < h.size
  }

  ghost predicate FirstUsable(h: Heap, j: int, n: nat) {
    0 <= j < |h.blocks| && Usable(h, j, n) && forall i :: i < j ==> !Usable(h, i, n)
  }

  /** Where block j ends when n bytes of it are handed out: behind them, if a header and 16 bytes are left. */
  ghost function TakenEnd(h: Heap, j: nat, n: nat): nat
    requires j < |h.blocks|
  {
    var (s, e) := (h.blocks[j].start, Edge(h.blocks, j + 1, h.size + HEADER));
    if e - s - HEADER >= n + HEADER + 16 then s + HEADER + n else e
  }

  lemma BehindLfree(h: Heap, j: nat)
    requires Inv(h) && j < |h.blocks|
    ensures h.lfree <= h.blocks[j].start <==> IndexOf(h.blocks, h.lfree) <= j
  {
    LfreeIs(h);
    var k := IndexOf(h.blocks, h.lfree);
    hide Inv, IndexOf;
    assert Tiled(h.blocks, End(h), HEADER) by { TiledOf(h); }
    if k < j {
      Ascending(h.blocks, End(h), HEADER, k, j);
    } else if j < k {
      Ascending(h.blocks, End(h), HEADER, j, k);
    }
  }

  lemma TiledOf(h: Heap)
    requires Inv(h)
    ensures Tiled(h.blocks, End(h), HEADER) && IndexOf(h.blocks, h.lfree) <= |h.blocks|
  {
    LfreeIs(h);
  }

  /** The search finds the first usable block, if there is one. */
  lemma FoundExactly(h: Heap, n: nat)
    requires Inv(h)
    ensures match Find(h, n, IndexOf(h.blocks, h.lfree))
            case Some(i) => FirstUsable(h, i, n)
            case None => forall j :: !Usable(h, j, n)
  {
    var k := IndexOf(h.blocks, h.lfree);
    TiledOf(h);
    forall j | 0 <= j < |h.blocks| ensures h.lfree <= h.blocks[j].start <==> k <= j { BehindLfree(h, j); }
    hide Inv, IndexOf, Tiled;
    match Find(h, n, k)
    case Some(i) =>
      assert h.lfree <= h.blocks[i].start;
      forall j | j < i ensures !Usable(h, j, n) {
        assert k <= j ==> !Fits(h, j, n);
      }
    case None =>
      forall j ensures !Usable(h, j, n) {
        if Usable(h, j, n) { FindNone(h, n, k, j); }
      }
  }

  /**
   * rt_malloc refuses exactly a request for nothing, one that is rounded past the heap, and one for
   * which no block is usable; else it takes the first usable block, up to where it is cut.
   */
  lemma MallocExactly(h: Heap, size: u32)
    requires Inv(h)
    ensures var ((h', r), n) := (Malloc(h, size), Needed(Rounded(size)));
            && (r.None? <==> size == 0 || Rounded(size) > h.size || forall j :: !Usable(h, j, n))
            && (r.Some? ==> exists j: nat :: FirstUsable(h, j, n) && r.value == h.blocks[j].start
                                             && Gains(h, h', None, r.value, TakenEnd(h, j, n)))
  {
    var n := Needed(Rounded(size));
    FoundExactly(h, n);
    NeededInEights(size);
    hide Inv, Rounded, Usable, IndexOf, Allocated, Gains;
    if Malloc(h, size).1.Some? {
      var i := Find(h, n, IndexOf(h.blocks, h.lfree)).value;
      AllocatedGains(h, i, n);
      TakenEndIs(h, i, n);
    }
  }

  lemma NeededInEights(size: u32)
    ensures Needed(Rounded(size)) % 8 == 0 && AtLeastMin(Rounded(size)) == Needed(Rounded(size))
  {
  }

  lemma TakenEndIs(h: Heap, j: nat, n: nat)
    requires j < |h.blocks|
    ensures NewEnd(h, j, n) == TakenEnd(h, j, n)
  {
  }

  // ---- rt_realloc ----

  /** The bytes behind the header of block i. */
  ghost function RoomOf(h: Heap, i: nat): int
    requires i < |h.blocks|
  {
    Edge(h.blocks, i + 1, h.size + HEADER) - h.blocks[i].start - HEADER
  }

  /** The block keeps its place: it has this size, or a header and more than 12 bytes are left over. */
  ghost predicate StaysPut(h: Heap, i: nat, r: nat)
    requires i < |h.blocks|
  {
    r <= h.size && (RoomOf(h, i) == r || r + HEADER + 12 < RoomOf(h, i))
  }

  /**
   * rt_realloc of a block in use refuses exactly a size that is rounded past the heap, or that the
   * block neither has nor is cut down to while it is zero or no block is usable.
   */
  lemma ReallocRefused(h: Heap, i: nat, newsize: u32)
    requires Inv(h) && i < |h.blocks| && h.blocks[i].used
    ensures var r := Rounded(newsize);
            Realloc(h, Some(i), newsize).1.None? <==>
              || r > h.size
              || (!StaysPut(h, i, r) && (r == 0 || forall j :: !Usable(h, j, Needed(r))))
  {
    RoundedAgain(newsize);
    MallocExactly(h, Rounded(newsize));
    hide Inv, Rounded, Malloc, Shrunk, Gains, Usable;
    MovedAnswers(h, i, Rounded(newsize));
  }

  lemma MovedAnswers(h: Heap, i: nat, n: u32)
    requires Inv(h) && i < |h.blocks| && h.blocks[i].used
    ensures Moved(h, i, n).1 == Malloc(h, n).1
  {
  }

  /** Otherwise the block keeps its start and ends behind the rounded size, or it moves to the first usable block. */
  lemma ReallocExactly(h: Heap, i: nat, newsize: u32)
    requires Inv(h) && i < |h.blocks| && h.blocks[i].used && Realloc(h, Some(i), newsize).1.Some?
    ensures var ((h', t), r, s) := (Realloc(h, Some(i), newsize), Rounded(newsize), h.blocks[i].start);
            if StaysPut(h, i, r) then t.value == s && Gains(h, h', Some(s), s, s + HEADER + r)
            else
              exists j: nat :: FirstUsable(h, j, Needed(r)) && t.value == h.blocks[j].start
                               && Gains(h, h', Some(s), t.value, TakenEnd(h, j, Needed(r)))
  {
    var (r, s) := (Rounded(newsize), h.blocks[i].start);
    RoundedAgain(newsize);
    hide Inv, Rounded, Malloc, Moved, Shrunk, Gains, FirstUsable;
    if StaysPut(h, i, r) {
      if RoomOf(h, i) == r {
        StaysInUse(h, i);
      } else {
        ShrunkUse(h, i, r);
      }
    } else {
      MovedExactly(h, i, r);
    }
  }

  lemma MovedExactly(h: Heap, i: nat, n: u32)
    requires Inv(h) && i < |h.blocks| && h.blocks[i].used && Moved(h, i, n).1.Some? && Rounded(n) == n
    ensures var ((h', t), s) := (Moved(h, i, n), h.blocks[i].start);
            exists j: nat :: FirstUsable(h, j, Needed(n)) && t.value == h.blocks[j].start
                             && Gains(h, h', Some(s), t.value, TakenEnd(h, j, Needed(n)))
  {
    hide Inv, Malloc, Moved, Free, Gains, Loses, Usable, IndexOf, TakenEnd, Rounded;
    var (s, (h1, t)) := (h.blocks[i].start, Malloc(h, n));
    MovedAnswers(h, i, n);
    MallocExactly(h, n);
    MovedInv(h, i, n);
    MallocInv(h, n);
    var j: nat :| FirstUsable(h, j, Needed(n)) && t.value == h.blocks[j].start
                  && Gains(h, h1, None, t.value, TakenEnd(h, j, Needed(n)));
    FreeCorrect(h1, IndexOf(h1.blocks, s));
    GainsThenLoses(h, h1, Moved(h, i, n).0, t.value, TakenEnd(h, j, Needed(n)), s);
  }

  /** rt_realloc of no block is rt_malloc of the rounded size, and refused exactly as that is. */
  lemma ReallocOfNothing(h: Heap, size: u32)
    requires Inv(h)
    ensures var r := Rounded(size);
            && Realloc(h, None, size) == Malloc(h, r)
            && (Realloc(h, None, size).1.None? <==> r == 0 || r > h.size || forall j :: !Usable(h, j, Needed(r)))
  {
    RoundedAgain(size);
    MallocExactly(h, Rounded(size));
    hide Inv, Usable, Gains, Find, Rounded;
  }

  /** A block of 104 bytes that has another one behind it moves to the free space when it grows. */
  lemma GrownBlockMoves()
    ensures Inv(TwoTaken()) && Realloc(TwoTaken(), Some(0), 200).1 == Some(152)
  {
    hide Inv, Realloc, Gains;
    TwoTakenInv();
    var h := TwoTaken();
    assert Rounded(200) == 200 && Needed(200) == 200 && !StaysPut(h, 0, 200) && Usable(h, 2, Needed(200));
    ReallocRefused(h, 0, 200);
    assert Realloc(h, Some(0), 200).1.Some?;
    ReallocExactly(h, 0, 200);
  }
}

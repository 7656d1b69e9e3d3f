/** What the small heap promises: first fit, exact round trips, and where these end. */
module SmallHeapLaws {
  import opened Base
  import opened Tiling
  import opened SmallHeap

  // ---- Runs ----

  /** Blocks are named by where they start, as their addresses do. */
  datatype Event = MallocEv(size: u32) | FreeEv(start: nat) | ReallocEv(ptr: Option<nat>, size: u32)

  ghost predicate LiveAt(h: Heap, start: nat) {
    var i := IndexOf(h.blocks, start);
    i < |h.blocks| && h.blocks[i].used
  }

  ghost predicate Permitted(h: Heap, e: Event) {
    match e
    case MallocEv(_) => true
    case FreeEv(s) => LiveAt(h, s)
    case ReallocEv(s, _) => s.Some? ==> LiveAt(h, s.value)
  }

  ghost function Next(h: Heap, e: Event): Heap
    requires Permitted(h, e)
  {
    match e
    case MallocEv(size) => Malloc(h, size).0
    case FreeEv(s) => Free(h, IndexOf(h.blocks, s))
    case ReallocEv(s, size) => Realloc(h, if s.None? then None else Some(IndexOf(h.blocks, s.value)), size).0
  }

  lemma StepInv(h: Heap, e: Event)
    requires Inv(h) && Permitted(h, e)
    ensures Inv(Next(h, e))
  {
    hide Inv, Malloc, Free, Realloc;
    match e
    case MallocEv(size) => MallocInv(h, size);
    case FreeEv(s) => FreeInv(h, IndexOf(h.blocks, s));
    case ReallocEv(s, size) => ReallocInv(h, if s.None? then None else Some(IndexOf(h.blocks, s.value)), size);
  }

  ghost predicate PermittedRun(h: Heap, es: seq<Event>)
    decreases |es|
  {
    es == [] || (Permitted(h, es[0]) && PermittedRun(Next(h, es[0]), es[1..]))
  }

  ghost function AfterRun(h: Heap, es: seq<Event>): Heap
    requires PermittedRun(h, es)
    decreases |es|
  {
    if es == [] then h else AfterRun(Next(h, es[0]), es[1..])
  }

  /** rt_system_heap_init: one free block. */
  ghost function Fresh(size: nat): Heap {
    Heap(size, [Block(0, false)], 0, 0)
  }

  lemma FreshInv(size: nat)
    requires size >= MIN_ALIGNED && size % 8 == 0
    ensures Inv(Fresh(size)) && Lowest(Fresh(size))
  {
    assert Total([], End(Fresh(size)), true, 0) == 0;
  }

  /** The blocks tile the heap, no two neighbours are free and the accounts are right, after any run. */
  lemma {:induction false} RunInv(h: Heap, es: seq<Event>)
    requires Inv(h) && PermittedRun(h, es)
    ensures Inv(AfterRun(h, es))
    decreases |es|
  {
    if es != [] {
      StepInv(h, es[0]);
      RunInv(Next(h, es[0]), es[1..]);
    }
  }

  // ---- First fit ----

  /** lfree is the lowest free block exactly if all blocks before it are used. */
  lemma LowestIndex(h: Heap, k: nat)
    requires Tiled(h.blocks, End(h), HEADER) && k <= |h.blocks| && h.lfree == Edge(h.blocks, k, End(h))
    ensures Lowest(h) <==> forall j :: 0 <= j < k ==> h.blocks[j].used
  {
    forall j | 0 <= j < |h.blocks| ensures j < k <==> h.blocks[j].start < h.lfree {
      if j < k {
        Ascending(h.blocks, End(h), HEADER, j, k);
      } else if k < j {
        Ascending(h.blocks, End(h), HEADER, k, j);
      }
    }
  }

  lemma LowestAllocated(h: Heap, i: nat, n: nat)
    requires Inv(h) && Lowest(h) && i < |h.blocks| && Fits(h, i, n) && n % 8 == 0
    requires IndexOf(h.blocks, h.lfree) <= i
    ensures Lowest(Allocated(h, i, n))
  {
    AllocatedShape(h, i, n);
    LfreeIs(h);
    var (h', k) := (Allocated(h, i, n), IndexOf(h.blocks, h.lfree));
    hide Total, IndexOf, Roomy, Aligned, Coalesced;
    LowestIndex(h, k);
    hide Lowest;
    if k == i {
      LowestIndex(h', NextFree(h'.blocks, i));
    } else {
      Ascending(h.blocks, End(h), HEADER, k, i);
      LowestIndex(h', k);
    }
  }

  lemma LowestMalloc(h: Heap, size: u32)
    requires Inv(h) && Lowest(h)
    ensures Lowest(Malloc(h, size).0)
  {
    MallocForm(h, size);
    hide Inv, Lowest, Malloc, Allocated, Rounded, AtLeastMin, Find;
    match Malloc(h, size).1
    case None => {}
    case Some(s) => LowestAllocated(h, IndexOf(h.blocks, s), AtLeastMin(Rounded(size)));
  }

  /** Merging never raises lfree and makes no new start. */
  lemma LowestMerged(h: Heap, i: nat, lfree: nat)
    requires Lowest(h) && i + 1 < |h.blocks| && !h.blocks[i + 1].used && lfree <= h.lfree
    ensures Lowest(h.(blocks := Merge(h.blocks, i), lfree := lfree))
  {
  }

  lemma LowestPlugged(h: Heap, i: nat)
    requires InvAt(h, i) && Lowest(h)
    ensures i < |PlugForward(h, i).blocks| && Lowest(Plugged(h, i))
  {
    ForwardInv(h, i);
    var h1 := PlugForward(h, i);
    if i + 1 < |h.blocks| && !h.blocks[i + 1].used {
      Ascending(h.blocks, End(h), HEADER, i, i + 1);
      LowestMerged(h, i, h1.lfree);
    }
    if i > 0 && !h1.blocks[i - 1].used {
      Ascending(h1.blocks, End(h), HEADER, i - 1, i);
      LowestMerged(h1, i - 1, PlugBackward(h1, i).lfree);
    }
  }

  lemma LowestFree(h: Heap, i: nat)
    requires Inv(h) && Lowest(h) && i < |h.blocks| && h.blocks[i].used
    ensures Lowest(Free(h, i))
  {
    ReleasedInv(h, i);
    assert Lowest(Released(h, i));
    LowestPlugged(Released(h, i), i);
  }

  /**
   * A shrinking rt_realloc keeps lfree the lowest free block exactly if a block before it, or the
   * free block right behind it, was the lowest; it does not lower lfree by itself.
   */
  lemma LowestShrunk(h: Heap, i: nat, n: nat)
    requires Inv(h) && Lowest(h) && i < |h.blocks| && h.blocks[i].used && Shrinks(h, i, n) && n % 8 == 0
    ensures Lowest(Shrunk(h, i, n)) <==>
              h.lfree < h.blocks[i].start || (i + 1 < |h.blocks| && h.lfree == h.blocks[i + 1].start)
  {
    LfreeIs(h);
    var k := IndexOf(h.blocks, h.lfree);
    hide Inv, Lowest, Total, IndexOf, LfreeOk, Shrinks, Shrunk;
    if k < i || (k == i + 1 && k < |h.blocks|) {
      StillLowest(h, i, n, k);
    } else {
      StillBehind(h, i, n, k);
    }
  }

  lemma StillLowest(h: Heap, i: nat, n: nat, k: nat)
    requires Inv(h) && Lowest(h) && i < |h.blocks| && h.blocks[i].used && Shrinks(h, i, n) && n % 8 == 0
    requires k < |h.blocks| && h.lfree == h.blocks[k].start && !h.blocks[k].used && (k < i || k == i + 1)
    ensures Lowest(Shrunk(h, i, n))
    ensures h.lfree < h.blocks[i].start || (i + 1 < |h.blocks| && h.lfree == h.blocks[i + 1].start)
  {
    hide Inv, Shrunk, Shrinks, Lowest, Tiled;
    ShrunkForm(h, i, n);
    LowestIndex(h, k);
    if k < i {
      Ascending(h.blocks, End(h), HEADER, k, i);
      Ascending(h.blocks, End(h), HEADER, k, i + 1);
    }
    var u := Shrunk(h, i, n);
    assert forall j :: 0 <= j <= i ==> u.blocks[j] == u.blocks[..i + 1][j] == h.blocks[j];
    LowestIndex(u, k);
  }

  /** After a shrinking rt_realloc a free block starts where the old one was cut. */
  lemma ShrunkForm(h: Heap, i: nat, n: nat)
    requires Inv(h) && i < |h.blocks| && h.blocks[i].used && Shrinks(h, i, n) && n % 8 == 0
    ensures Tiled(h.blocks, End(h), HEADER)
    ensures var (h', at) := (Shrunk(h, i, n), h.blocks[i].start + HEADER + n);
            && h'.size == h.size && Tiled(h'.blocks, End(h), HEADER)
            && i + 1 < |h'.blocks| && h'.blocks[..i + 1] == h.blocks[..i + 1] && h'.blocks[i + 1] == Block(at, false)
            && h'.lfree == (if i + 1 < |h.blocks| && !h.blocks[i + 1].used && h.lfree == h.blocks[i + 1].start
                then at else h.lfree)
  {
    CutInv(h, i, n);
    var h1 := Cut(h, i, n);
    ForwardInv(h1, i + 1);
    assert PlugForward(h1, i + 1) == Shrunk(h, i, n);
  }

  /** lfree stays behind the block that was cut off. */
  lemma StillBehind(h: Heap, i: nat, n: nat, k: nat)
    requires Inv(h) && i < |h.blocks| && h.blocks[i].used && Shrinks(h, i, n) && n % 8 == 0
    requires i < k <= |h.blocks| && h.lfree == Edge(h.blocks, k, End(h)) && (k == i + 1 ==> k == |h.blocks|)
    ensures !Lowest(Shrunk(h, i, n)) && h.lfree > h.blocks[i].start
    ensures !(i + 1 < |h.blocks| && h.lfree == h.blocks[i + 1].start)
  {
    ShrunkForm(h, i, n);
    hide Inv, Shrunk;
    Ascending(h.blocks, End(h), HEADER, i, k);
    if i + 1 < k {
      Ascending(h.blocks, End(h), HEADER, i + 1, k);
    }
    assert !Shrunk(h, i, n).blocks[i + 1].used;
  }

  /** The search stops at the first block that fits, or at a block that starts too late, or at the end. */
  lemma {:induction false} FindNone(h: Heap, n: nat, k: nat, j: nat)
    requires Tiled(h.blocks, End(h), HEADER) && Find(h, n, k).None? && k <= j < |h.blocks|
    requires h.blocks[j].start + n < h.size
    ensures !Fits(h, j, n)
    decreases j - k
  {
    if h.blocks[k].start + n >= h.size {
      if k < j {
        Ascending(h.blocks, End(h), HEADER, k, j);
      }
    } else if k < j {
      FindNone(h, n, k + 1, j);
    }
  }

  /**
   * While lfree is the lowest free block, rt_malloc takes the lowest block that fits and starts
   * below mem_size_aligned - size, and fails only if there is none.
   */
  lemma FirstFit(h: Heap, size: u32)
    requires Inv(h) && Lowest(h) && 0 < size && Rounded(size) <= h.size
    ensures var n := AtLeastMin(Rounded(size));
            match Malloc(h, size).1
            case Some(s) =>
              var i := IndexOf(h.blocks, s);
              && i < |h.blocks| && Fits(h, i, n) && s + n < h.size
              && forall j :: 0 <= j < i ==> !Fits(h, j, n)
            case None => forall j :: 0 <= j < |h.blocks| && Fits(h, j, n) ==> h.blocks[j].start + n >= h.size
  {
    var n := AtLeastMin(Rounded(size));
    MallocForm(h, size);
    LfreeIs(h);
    var k := IndexOf(h.blocks, h.lfree);
    forall j | 0 <= j < |h.blocks| && j < k ensures !Fits(h, j, n) {
      Ascending(h.blocks, End(h), HEADER, j, k);
    }
    hide Rounded, AtLeastMin, Total, Coalesced, Aligned;
    match Malloc(h, size).1
    case Some(s) => {}
    case None =>
      forall j | 0 <= j < |h.blocks| && Fits(h, j, n) ensures h.blocks[j].start + n >= h.size {
        if h.blocks[j].start + n < h.size {
          FindNone(h, n, k, j);
        }
      }
  }

  /** A run in which no rt_realloc shrinks its block. */
  ghost predicate NoShrink(h: Heap, e: Event)
    requires Permitted(h, e)
  {
    e.ReallocEv? && e.ptr.Some? && Rounded(e.size) <= h.size ==>
      !Shrinks(h, IndexOf(h.blocks, e.ptr.value), Rounded(e.size))
  }

  lemma LowestStep(h: Heap, e: Event)
    requires Inv(h) && Lowest(h) && Permitted(h, e) && NoShrink(h, e)
    ensures Lowest(Next(h, e))
  {
    hide Inv, Lowest, Malloc, Free, Shrunk, Moved, Rounded;
    match e
    case MallocEv(size) => LowestMalloc(h, size);
    case FreeEv(s) => LowestFree(h, IndexOf(h.blocks, s));
    case ReallocEv(s, size) =>
      LowestMalloc(h, Rounded(size));
      if s.Some? {
        LowestMoved(h, IndexOf(h.blocks, s.value), Rounded(size));
      }
  }

  lemma LowestMoved(h: Heap, i: nat, n: u32)
    requires Inv(h) && Lowest(h) && i < |h.blocks| && h.blocks[i].used
    ensures Lowest(Moved(h, i, n).0)
  {
    LowestMalloc(h, n);
    MovedInv(h, i, n);
    MallocKeeps(h, n);
    var h' := Malloc(h, n).0;
    var j := IndexOf(h'.blocks, h.blocks[i].start);
    hide Inv, Lowest, Malloc, Free;
    if Malloc(h, n).1.Some? {
      LowestFree(h', j);
    }
  }

  ghost predicate NoShrinkRun(h: Heap, es: seq<Event>)
    requires PermittedRun(h, es)
    decreases |es|
  {
    es == [] || (NoShrink(h, es[0]) && NoShrinkRun(Next(h, es[0]), es[1..]))
  }

  /** In runs without a shrinking rt_realloc lfree is always the lowest free block. */
  lemma {:induction false} RunLowest(h: Heap, es: seq<Event>)
    requires Inv(h) && Lowest(h) && PermittedRun(h, es) && NoShrinkRun(h, es)
    ensures Lowest(AfterRun(h, es))
    decreases |es|
  {
    if es != [] {
      StepInv(h, es[0]);
      LowestStep(h, es[0]);
      RunLowest(Next(h, es[0]), es[1..]);
    }
  }

  // ---- Round trip ----

  lemma AllocatedThenFree(h: Heap, i: nat, n: nat)
    requires Inv(h) && i < |h.blocks| && Fits(h, i, n) && n % 8 == 0 && IndexOf(h.blocks, h.lfree) <= i
    ensures i < |Allocated(h, i, n).blocks| && Free(Allocated(h, i, n), i) == h
  {
    ReleasedAgain(h, i, n);
    var h2 := Released(Allocated(h, i, n), i);
    assert i + 1 < |h.blocks| ==> h.blocks[i + 1].used;
    assert i > 0 ==> h.blocks[i - 1].used;
    hide Inv;
    if Splits(h, i, n) {
      assert Merge(h2.blocks, i) == h.blocks;
    } else {
      assert h2.blocks == h.blocks;
    }
    assert PlugForward(h2, i) == h;
  }

  /** Marking the block free again brings lfree and the account back. */
  lemma ReleasedAgain(h: Heap, i: nat, n: nat)
    requires Inv(h) && i < |h.blocks| && Fits(h, i, n) && n % 8 == 0 && IndexOf(h.blocks, h.lfree) <= i
    ensures i < |Allocated(h, i, n).blocks|
    ensures var h2 := Released(Allocated(h, i, n), i);
            h2.lfree == h.lfree == (if h.lfree <= h.blocks[i].start then h.lfree else h.blocks[i].start)
                && h2.used == h.used
  {
    var h1 := Allocated(h, i, n);
    AllocatedShape(h, i, n);
    LfreeIs(h);
    var k := IndexOf(h.blocks, h.lfree);
    hide Total, IndexOf, Roomy, Aligned, Coalesced;
    if k == i {
      var m := NextFree(h1.blocks, i);
      assert m > i;
      Ascending(h1.blocks, End(h), HEADER, i, m);
    } else {
      Ascending(h.blocks, End(h), HEADER, k, i);
    }
  }

  /** rt_malloc followed directly by rt_free restores the chain of blocks, lfree and used_mem. */
  lemma MallocThenFree(h: Heap, size: u32)
    requires Inv(h) && Malloc(h, size).1.Some?
    ensures var (h', r) := Malloc(h, size);
            LiveAt(h', r.value) && Free(h', IndexOf(h'.blocks, r.value)) == h
  {
    MallocForm(h, size);
    hide Inv, Malloc, Rounded, AtLeastMin, Find, Allocated, Free;
    var (i, n) := (IndexOf(h.blocks, Malloc(h, size).1.value), AtLeastMin(Rounded(size)));
    AllocatedBlock(h, i, n);
    AllocatedThenFree(h, i, n);
  }

  // ---- A run that loses the lowest free block ----

  /** Two blocks handed out of a fresh heap. */
  ghost function TwoTaken(): Heap {
    Heap(1024, [Block(0, true), Block(120, true), Block(152, false)], 152, 152)
  }

  lemma TwoTakenReached()
    ensures PermittedRun(Fresh(1024), [MallocEv(100), MallocEv(16)])
    ensures AfterRun(Fresh(1024), [MallocEv(100), MallocEv(16)]) == TwoTaken()
  {
    hide Malloc, Fresh, OneTaken, TwoTaken;
    FirstTaken();
    SecondTaken();
    assert [MallocEv(100), MallocEv(16)][1..] == [MallocEv(16)];
  }

  /** Between the two requests. */
  ghost function OneTaken(): Heap {
    Heap(1024, [Block(0, true), Block(120, false)], 120, 120)
  }

  lemma FirstTaken()
    ensures Malloc(Fresh(1024), 100).0 == OneTaken()
  {
    var (h, h1) := (Fresh(1024), OneTaken());
    assert Rounded(100) == 104;
    assert Find(h, 104, 0) == Some(0) && Allocated(h, 0, 104).blocks == h1.blocks;
    assert NextFree(h1.blocks, 0) == 1;
  }

  lemma SecondTaken()
    ensures Malloc(OneTaken(), 16).0 == TwoTaken()
  {
    var h1 := OneTaken();
    assert Rounded(16) == 16;
    IndexOfSecond(h1);
    assert Find(h1, 16, 1) == Some(1) && Allocated(h1, 1, 16).blocks == TwoTaken().blocks;
    assert NextFree(TwoTaken().blocks, 1) == 2;
  }

  lemma IndexOfSecond(h: Heap)
    requires |h.blocks| >= 2 && h.blocks[0].start != h.blocks[1].start
    ensures IndexOf(h.blocks, h.blocks[1].start) == 1
  {
    assert h.blocks[1..][0] == h.blocks[1];
  }

  /** Shrinking the first of them leaves a free block below lfree. */
  lemma ShrinkLosesLowest()
    ensures var h := TwoTaken();
            && Permitted(h, ReallocEv(Some(0), 8)) && Next(h, ReallocEv(Some(0), 8)) == Shrunk(h, 0, 8)
            && Lowest(h) && !Lowest(Shrunk(h, 0, 8))
  {
    hide Inv, Lowest, Shrunk;
    var h := TwoTaken();
    TwoTakenInv();
    assert Rounded(8) == 8 && Shrinks(h, 0, 8);
    TwoTakenLowest();
    LowestShrunk(h, 0, 8);
  }

  lemma TwoTakenInv()
    ensures Inv(TwoTaken())
  {
    hide Inv, AfterRun, PermittedRun;
    TwoTakenReached();
    FreshInv(1024);
    RunInv(Fresh(1024), [MallocEv(100), MallocEv(16)]);
  }

  lemma TwoTakenLowest()
    ensures Lowest(TwoTaken())
  {
  }
}

/** The small heap of mem.c: first fit from lfree on, splitting, and plugging of holes. */
module SmallHeap {
  import opened Base
  import opened Tiling

  /** SIZEOF_STRUCT_MEM, MIN_SIZE_ALIGNED and MIN_SIZE with RT_ALIGN_SIZE 8. */
  const HEADER: nat := 16
  const MIN_ALIGNED: nat := 16
  const MIN_SIZE: nat := 12

  /** size is mem_size_aligned; offsets count from heap_ptr; used is used_mem. */
  datatype Heap = Heap(size: nat, blocks: seq<Block>, lfree: nat, used: int)

  /** The offset of heap_end. */
  function End(h: Heap): nat {
    h.size + HEADER
  }

  function After(h: Heap, i: nat): nat {
    Edge(h.blocks, i + 1, End(h))
  }

  /** RT_ALIGN in 32 bits. */
  function Rounded(size: u32): u32 {
    Wrap(size + 7) / 8 * 8
  }

  function AtLeastMin(n: nat): nat {
    if n < MIN_ALIGNED then MIN_ALIGNED else n
  }

  /** Block i is free and has room for n bytes behind its header. */
  predicate Fits(h: Heap, i: nat, n: nat)
    requires i < |h.blocks|
  {
    !h.blocks[i].used && After(h, i) - (h.blocks[i].start + HEADER) >= n
  }

  /** The search of rt_malloc from block k on. */
  function Find(h: Heap, n: nat, k: nat): (r: Option<nat>)
    ensures r.Some? ==> k <= r.value < |h.blocks| && Fits(h, r.value, n) && h.blocks[r.value].start + n < h.size
    ensures r.Some? ==> forall j :: k <= j < r.value ==> !Fits(h, j, n)
    decreases |h.blocks| - k
  {
    if k >= |h.blocks| || h.blocks[k].start + n >= h.size then None
    else if Fits(h, k, n) then Some(k)
    else Find(h, n, k + 1)
  }

  /** The first free block from k on. */
  function NextFree(blocks: seq<Block>, k: nat): (r: nat)
    requires k <= |blocks|
    ensures k <= r <= |blocks| && (r < |blocks| ==> !blocks[r].used)
    ensures forall j :: k <= j < r ==> blocks[j].used
    decreases |blocks| - k
  {
    if k == |blocks| || !blocks[k].used then k else NextFree(blocks, k + 1)
  }

  /** Whether enough is left for another block. */
  predicate Splits(h: Heap, i: nat, n: nat)
    requires i < |h.blocks|
  {
    After(h, i) - (h.blocks[i].start + HEADER) >= n + HEADER + MIN_ALIGNED
  }

  /** Block i is handed out for n bytes. */
  function Allocated(h: Heap, i: nat, n: nat): Heap
    requires i < |h.blocks|
  {
    var s := h.blocks[i].start;
    var bs := Mark(if Splits(h, i, n) then Split(h.blocks, i, s + HEADER + n) else h.blocks, i, true);
    Heap(h.size, bs,
         if s == h.lfree then Edge(bs, NextFree(bs, i), End(h)) else h.lfree,
         h.used + if Splits(h, i, n) then n + HEADER else After(h, i) - s)
  }

  /** rt_malloc; the result is the start of the block. */
  function Malloc(h: Heap, size: u32): (Heap, Option<nat>) {
    if size == 0 || Rounded(size) > h.size then (h, None)
    else
      var n := AtLeastMin(Rounded(size));
      match Find(h, n, IndexOf(h.blocks, h.lfree))
      case None => (h, None)
      case Some(i) => (Allocated(h, i, n), Some(h.blocks[i].start))
  }

  /** plug_holes, its first half: block i swallows a free block behind it. */
  function PlugForward(h: Heap, i: nat): Heap
    requires i < |h.blocks|
  {
    if i + 1 < |h.blocks| && !h.blocks[i + 1].used then
      h.(blocks := Merge(h.blocks, i),
         lfree := if h.lfree == h.blocks[i + 1].start then h.blocks[i].start else h.lfree)
    else h
  }

  /** Its second half: block i is swallowed by a free block before it. */
  function PlugBackward(h: Heap, i: nat): Heap
    requires i < |h.blocks|
  {
    if i > 0 && !h.blocks[i - 1].used then
      h.(blocks := Merge(h.blocks, i - 1),
         lfree := if h.lfree == h.blocks[i].start then h.blocks[i - 1].start else h.lfree)
    else h
  }

  function Plugged(h: Heap, i: nat): Heap
    requires i < |h.blocks|
  {
    PlugBackward(PlugForward(h, i), i)
  }

  /** rt_free of block i up to the plugging of holes. */
  function Released(h: Heap, i: nat): Heap
    requires i < |h.blocks|
  {
    var s := h.blocks[i].start;
    Heap(h.size, Mark(h.blocks, i, false), if s < h.lfree then s else h.lfree, h.used - (After(h, i) - s))
  }

  function Free(h: Heap, i: nat): Heap
    requires i < |h.blocks|
  {
    Plugged(Released(h, i), i)
  }

  /** The shrinking branch of rt_realloc. */
  function Cut(h: Heap, i: nat, n: nat): Heap
    requires i < |h.blocks|
  {
    var s := h.blocks[i].start;
    h.(blocks := Split(h.blocks, i, s + HEADER + n), used := h.used - (After(h, i) - s - HEADER - n))
  }

  function Shrunk(h: Heap, i: nat, n: nat): Heap
    requires i < |h.blocks|
  {
    Plugged(Cut(h, i, n), i + 1)
  }

  predicate Shrinks(h: Heap, i: nat, n: nat)
    requires i < |h.blocks|
  {
    n + HEADER + MIN_SIZE < After(h, i) - h.blocks[i].start - HEADER
  }

  /** rt_realloc of block i, or of nothing; the result is the start of the block that holds the data. */
  function Realloc(h: Heap, i: Option<nat>, newsize: u32): (Heap, Option<nat>)
    requires i.Some? ==> i.value < |h.blocks|
  {
    var n := Rounded(newsize);
    if n > h.size then (h, None)
    else if i.None? then Malloc(h, n)
    else
      var s := h.blocks[i.value].start;
      if After(h, i.value) - s - HEADER == n then (h, Some(s))
      else if Shrinks(h, i.value, n) then (Shrunk(h, i.value, n), Some(s))
      else Moved(h, i.value, n)
  }

  /** A new block is found for block i, then block i is freed. */
  function Moved(h: Heap, i: nat, n: u32): (Heap, Option<nat>)
    requires i < |h.blocks|
  {
    var (h', r) := Malloc(h, n);
    var j := IndexOf(h'.blocks, h.blocks[i].start);
    if r.None? || j == |h'.blocks| then (h', r) else (Free(h', j), r)
  }

  // ---- Invariant ----

  /** Every block starts at a multiple of RT_ALIGN_SIZE. */
  ghost predicate Aligned(blocks: seq<Block>) {
    forall i :: 0 <= i < |blocks| ==> blocks[i].start % 8 == 0
  }

  /** lfree is a free block, or the end of the heap. */
  ghost predicate LfreeOk(blocks: seq<Block>, lfree: nat, end: nat) {
    var k := IndexOf(blocks, lfree);
    if k < |blocks| then !blocks[k].used else lfree == end
  }

  ghost predicate Shape(h: Heap) {
    && h.size >= MIN_ALIGNED && h.size % 8 == 0
    && Tiled(h.blocks, End(h), HEADER) && Aligned(h.blocks)
  }

  ghost predicate Inv(h: Heap) {
    && Shape(h) && Coalesced(h.blocks)
    && LfreeOk(h.blocks, h.lfree, End(h))
    && h.used == Total(h.blocks, End(h), true, 0)
  }

  /** No free block starts before lfree. */
  ghost predicate Lowest(h: Heap) {
    forall i :: 0 <= i < |h.blocks| && !h.blocks[i].used ==> h.lfree <= h.blocks[i].start
  }

  lemma LfreeAt(h: Heap, k: nat)
    requires Tiled(h.blocks, End(h), HEADER) && k <= |h.blocks| && h.lfree == Edge(h.blocks, k, End(h))
    requires k < |h.blocks| ==> !h.blocks[k].used
    ensures LfreeOk(h.blocks, h.lfree, End(h)) && IndexOf(h.blocks, h.lfree) == k
  {
    IndexOfStart(h.blocks, End(h), HEADER, k);
  }

  lemma LfreeIs(h: Heap)
    requires Tiled(h.blocks, End(h), HEADER) && LfreeOk(h.blocks, h.lfree, End(h))
    ensures var k := IndexOf(h.blocks, h.lfree);
            k <= |h.blocks| && h.lfree == Edge(h.blocks, k, End(h)) && (k < |h.blocks| ==> !h.blocks[k].used)
  {
  }

  lemma SplitAligned(blocks: seq<Block>, i: nat, at: nat)
    requires Aligned(blocks) && i < |blocks| && at % 8 == 0
    ensures Aligned(Split(blocks, i, at))
  {
  }

  lemma MarkAligned(blocks: seq<Block>, i: nat, u: bool)
    requires Aligned(blocks) && i < |blocks|
    ensures Aligned(Mark(blocks, i, u))
  {
  }

  /** Where block i is split is a multiple of 8 again. */
  lemma SplitPlace(h: Heap, i: nat, n: nat)
    requires Aligned(h.blocks) && i < |h.blocks| && n % 8 == 0
    ensures (h.blocks[i].start + HEADER + n) % 8 == 0
  {
  }

  // ---- Allocation ----

  lemma AllocatedShape(h: Heap, i: nat, n: nat)
    requires Shape(h) && i < |h.blocks| && Fits(h, i, n) && n % 8 == 0
    ensures Shape(Allocated(h, i, n))
  {
    hide Aligned, Roomy, Mark, Split;
    var at := h.blocks[i].start + HEADER + n;
    SplitPlace(h, i, n);
    if Splits(h, i, n) {
      SplitTiled(h.blocks, i, at, End(h), HEADER);
      SplitAligned(h.blocks, i, at);
      MarkTiled(Split(h.blocks, i, at), i, true, End(h), HEADER);
      MarkAligned(Split(h.blocks, i, at), i, true);
    } else {
      MarkTiled(h.blocks, i, true, End(h), HEADER);
      MarkAligned(h.blocks, i, true);
    }
  }

  lemma AllocatedUsed(h: Heap, i: nat, n: nat)
    requires i < |h.blocks| && Fits(h, i, n)
    ensures Allocated(h, i, n).used - h.used
         == Total(Allocated(h, i, n).blocks, End(h), true, 0) - Total(h.blocks, End(h), true, 0)
  {
    var s := h.blocks[i].start;
    if Splits(h, i, n) {
      SplitTotal(h.blocks, i, s + HEADER + n, End(h), true, 0);
      MarkTotal(Split(h.blocks, i, s + HEADER + n), i, true, End(h), true, 0);
    } else {
      MarkTotal(h.blocks, i, true, End(h), true, 0);
    }
  }

  lemma AllocatedLfree(h: Heap, i: nat, n: nat)
    requires Shape(h) && LfreeOk(h.blocks, h.lfree, End(h)) && i < |h.blocks| && Fits(h, i, n) && n % 8 == 0
    requires IndexOf(h.blocks, h.lfree) <= i
    ensures var h' := Allocated(h, i, n); LfreeOk(h'.blocks, h'.lfree, End(h))
  {
    AllocatedShape(h, i, n);
    LfreeIs(h);
    var k := IndexOf(h.blocks, h.lfree);
    var h' := Allocated(h, i, n);
    hide Aligned, Roomy;
    if k == i {
      LfreeAt(h', NextFree(h'.blocks, i));
    } else {
      Ascending(h.blocks, End(h), HEADER, k, i);
      LfreeAt(h', k);
    }
  }

  lemma AllocatedInv(h: Heap, i: nat, n: nat)
    requires Inv(h) && i < |h.blocks| && Fits(h, i, n) && n % 8 == 0 && IndexOf(h.blocks, h.lfree) <= i
    ensures Inv(Allocated(h, i, n))
  {
    AllocatedShape(h, i, n);
    hide Shape, LfreeOk, Total;
    AllocatedUsed(h, i, n);
    AllocatedLfree(h, i, n);
  }

  // ---- Release ----

  lemma MergedShape(h: Heap, i: nat, lfree: nat, used: int)
    requires Shape(h) && i + 1 < |h.blocks|
    ensures Shape(Heap(h.size, Merge(h.blocks, i), lfree, used))
  {
    MergeTiled(h.blocks, i, End(h), HEADER);
  }

  /** What plug_holes finds: the invariant, but block i may have free neighbours. */
  ghost predicate InvAt(h: Heap, i: nat) {
    && Shape(h) && i < |h.blocks| && !h.blocks[i].used
    && (forall j :: 0 <= j < |h.blocks| - 1 && j != i && j + 1 != i ==> h.blocks[j].used || h.blocks[j + 1].used)
    && LfreeOk(h.blocks, h.lfree, End(h))
    && h.used == Total(h.blocks, End(h), true, 0)
  }

  lemma MergedLfree(h: Heap, i: nat)
    requires Shape(h) && LfreeOk(h.blocks, h.lfree, End(h)) && i + 1 < |h.blocks|
    requires !h.blocks[i].used && !h.blocks[i + 1].used
    ensures LfreeOk(Merge(h.blocks, i), if h.lfree == h.blocks[i + 1].start then h.blocks[i].start else h.lfree, End(h))
  {
    LfreeIs(h);
    var k := IndexOf(h.blocks, h.lfree);
    var h' := h.(blocks := Merge(h.blocks, i),
                 lfree := if h.lfree == h.blocks[i + 1].start then h.blocks[i].start else h.lfree);
    MergedShape(h, i, h'.lfree, h.used);
    if h.lfree == h.blocks[i + 1].start {
      LfreeAt(h', i);
    } else {
      assert k != i + 1;
      LfreeAt(h', if k <= i then k else k - 1);
    }
  }

  lemma ForwardInv(h: Heap, i: nat)
    requires InvAt(h, i)
    ensures InvAt(PlugForward(h, i), i)
    ensures var h' := PlugForward(h, i); i + 1 < |h'.blocks| ==> h'.blocks[i + 1].used
  {
    hide Shape, LfreeOk, Total;
    if i + 1 < |h.blocks| && !h.blocks[i + 1].used {
      MergedShape(h, i, PlugForward(h, i).lfree, h.used);
      MergedLfree(h, i);
      MergeTotal(h.blocks, i, End(h), true, 0);
    }
  }

  lemma BackwardInv(h: Heap, i: nat)
    requires InvAt(h, i) && (i + 1 < |h.blocks| ==> h.blocks[i + 1].used)
    ensures Inv(PlugBackward(h, i))
  {
    hide Shape, LfreeOk, Total;
    if i > 0 && !h.blocks[i - 1].used {
      MergedShape(h, i - 1, PlugBackward(h, i).lfree, h.used);
      MergedLfree(h, i - 1);
      MergeTotal(h.blocks, i - 1, End(h), true, 0);
    }
  }

  lemma PluggedInv(h: Heap, i: nat)
    requires InvAt(h, i)
    ensures i < |PlugForward(h, i).blocks| && Inv(Plugged(h, i))
  {
    ForwardInv(h, i);
    BackwardInv(PlugForward(h, i), i);
  }

  lemma ReleasedInv(h: Heap, i: nat)
    requires Inv(h) && i < |h.blocks| && h.blocks[i].used
    ensures InvAt(Released(h, i), i)
  {
    var h' := Released(h, i);
    MarkTiled(h.blocks, i, false, End(h), HEADER);
    MarkTotal(h.blocks, i, false, End(h), true, 0);
    LfreeIs(h);
    var k := IndexOf(h.blocks, h.lfree);
    hide Total, Roomy;
    assert k != i;
    if k < i {
      Ascending(h.blocks, End(h), HEADER, k, i);
      LfreeAt(h', k);
    } else {
      Ascending(h.blocks, End(h), HEADER, i, k);
      LfreeAt(h', i);
    }
  }

  lemma FreeInv(h: Heap, i: nat)
    requires Inv(h) && i < |h.blocks| && h.blocks[i].used
    ensures Inv(Free(h, i))
  {
    ReleasedInv(h, i);
    PluggedInv(Released(h, i), i);
  }

  lemma CutInv(h: Heap, i: nat, n: nat)
    requires Inv(h) && i < |h.blocks| && h.blocks[i].used && Shrinks(h, i, n) && n % 8 == 0
    ensures InvAt(Cut(h, i, n), i + 1)
  {
    hide Total, Roomy, Aligned, IndexOf;
    CutShape(h, i, n);
    SplitTotal(h.blocks, i, h.blocks[i].start + HEADER + n, End(h), true, 0);
    LfreeIs(h);
    var k := IndexOf(h.blocks, h.lfree);
    var h' := Cut(h, i, n);
    LfreeAt(h', if k <= i then k else k + 1);
  }

  lemma CutShape(h: Heap, i: nat, n: nat)
    requires Shape(h) && i < |h.blocks| && Shrinks(h, i, n) && n % 8 == 0
    ensures Shape(Cut(h, i, n))
  {
    RoomInEights(h, i);
    SplitPlace(h, i, n);
    SplitAligned(h.blocks, i, h.blocks[i].start + HEADER + n);
    hide Aligned, Roomy, Split;
    SplitTiled(h.blocks, i, h.blocks[i].start + HEADER + n, End(h), HEADER);
  }

  /** The room of a block is a multiple of 8, so what is cut off has room for a header and 16 bytes. */
  lemma RoomInEights(h: Heap, i: nat)
    requires Shape(h) && i < |h.blocks|
    ensures (After(h, i) - h.blocks[i].start) % 8 == 0
  {
  }

  lemma ShrunkInv(h: Heap, i: nat, n: nat)
    requires Inv(h) && i < |h.blocks| && h.blocks[i].used && Shrinks(h, i, n) && n % 8 == 0
    ensures Inv(Shrunk(h, i, n))
  {
    CutInv(h, i, n);
    PluggedInv(Cut(h, i, n), i + 1);
  }

  // ---- Requests ----

  /** rt_malloc fails and changes nothing, or hands out the block its search finds. */
  lemma MallocForm(h: Heap, size: u32)
    requires Inv(h)
    ensures var (h', r) := Malloc(h, size);
            var n := AtLeastMin(Rounded(size));
            match r
            case None => h' == h
            case Some(s) =>
              var k := IndexOf(h.blocks, s);
              && k < |h.blocks| && Find(h, n, IndexOf(h.blocks, h.lfree)) == Some(k) && Fits(h, k, n)
              && IndexOf(h.blocks, h.lfree) <= k && n % 8 == 0 && h' == Allocated(h, k, n)
  {
    var n := AtLeastMin(Rounded(size));
    assert n % 8 == 0;
    hide Rounded, AtLeastMin, Allocated, Total;
    match Find(h, n, IndexOf(h.blocks, h.lfree))
    case None => {}
    case Some(i) => IndexOfStart(h.blocks, End(h), HEADER, i);
  }

  /** Where the block that was handed out is afterwards, and how large. */
  lemma AllocatedBlock(h: Heap, i: nat, n: nat)
    requires Inv(h) && i < |h.blocks| && Fits(h, i, n) && n % 8 == 0
    ensures var h' := Allocated(h, i, n);
            && IndexOf(h'.blocks, h.blocks[i].start) == i < |h'.blocks| && h'.blocks[i].used
            && After(h', i) >= h.blocks[i].start + HEADER + n && h.blocks[i].start % 8 == 0
  {
    AllocatedShape(h, i, n);
    hide Total;
    IndexOfStart(Allocated(h, i, n).blocks, End(h), HEADER, i);
  }

  /** A grant is a free block turned into a used one with room for the rounded request. */
  lemma MallocInv(h: Heap, size: u32)
    requires Inv(h)
    ensures var (h', r) := Malloc(h, size);
            && Inv(h') && h'.size == h.size
            && match r
               case None => h' == h
               case Some(s) =>
                 var (i, j) := (IndexOf(h.blocks, s), IndexOf(h'.blocks, s));
                 && i < |h.blocks| && !h.blocks[i].used && j < |h'.blocks| && h'.blocks[j].used
                 && After(h', j) >= s + HEADER + AtLeastMin(Rounded(size)) && s % 8 == 0
  {
    MallocForm(h, size);
    hide Malloc, Inv, Rounded, AtLeastMin, Find;
    match Malloc(h, size).1
    case None => {}
    case Some(s) =>
      var (i, n) := (IndexOf(h.blocks, s), AtLeastMin(Rounded(size)));
      AllocatedInv(h, i, n);
      AllocatedBlock(h, i, n);
  }

  /** Allocation leaves the used blocks where they are. */
  lemma AllocatedKeeps(h: Heap, k: nat, n: nat, i: nat)
    requires Inv(h) && k < |h.blocks| && Fits(h, k, n) && n % 8 == 0 && i < |h.blocks| && h.blocks[i].used
    ensures var h' := Allocated(h, k, n);
            var j := IndexOf(h'.blocks, h.blocks[i].start);
            j < |h'.blocks| && h'.blocks[j] == h.blocks[i] && After(h', j) == After(h, i)
    ensures h.blocks[k].start != h.blocks[i].start
  {
    AllocatedShape(h, k, n);
    AllocatedIndex(h, k, n, i);
    hide Allocated, Inv, Fits;
    assert Tiled(h.blocks, End(h), HEADER);
    IndexOfStart(h.blocks, End(h), HEADER, k);
    IndexOfStart(h.blocks, End(h), HEADER, i);
    var h' := Allocated(h, k, n);
    var j := if i < k || !Splits(h, k, n) then i else i + 1;
    hide Total, Roomy, Aligned, IndexOf;
    IndexOfStart(h'.blocks, End(h), HEADER, j);
  }

  lemma AllocatedIndex(h: Heap, k: nat, n: nat, i: nat)
    requires k < |h.blocks| && Fits(h, k, n) && i < |h.blocks| && h.blocks[i].used
    ensures var (h', j) := (Allocated(h, k, n), if i < k || !Splits(h, k, n) then i else i + 1);
            && i != k && j < |h'.blocks| && h'.blocks[j] == h.blocks[i] && After(h', j) == After(h, i)
            && h'.size == h.size
  {
    assert i != k;
    if Splits(h, k, n) {
      KeptBySplit(h.blocks, k, h.blocks[k].start + HEADER + n, i, End(h));
    }
  }

  lemma KeptBySplit(blocks: seq<Block>, k: nat, at: nat, i: nat, end: nat)
    requires k < |blocks| && i < |blocks| && i != k
    ensures var (bs, j) := (Mark(Split(blocks, k, at), k, true), if i < k then i else i + 1);
            bs[j] == blocks[i] && Edge(bs, j + 1, end) == Edge(blocks, i + 1, end)
  {
  }

  lemma MallocKeeps(h: Heap, size: u32)
    requires Inv(h)
    ensures Inv(Malloc(h, size).0)
  {
    MallocInv(h, size);
  }

  lemma MovedKeeps(h: Heap, i: nat, n: u32)
    requires Inv(h) && i < |h.blocks| && h.blocks[i].used
    ensures Inv(Moved(h, i, n).0)
  {
    MovedInv(h, i, n);
  }

  lemma ReallocInv(h: Heap, i: Option<nat>, newsize: u32)
    requires Inv(h) && (i.Some? ==> i.value < |h.blocks| && h.blocks[i.value].used)
    ensures Inv(Realloc(h, i, newsize).0)
  {
    var n := Rounded(newsize);
    assert n % 8 == 0;
    hide Inv, Rounded, Malloc, Moved, Shrunk, After;
    MallocKeeps(h, n);
    if i.Some? {
      MovedKeeps(h, i.value, n);
      if Shrinks(h, i.value, n) {
        ShrunkInv(h, i.value, n);
      }
    }
  }

  /** Moving a block: a new one is found, then the old one freed. */
  lemma MovedInv(h: Heap, i: nat, n: u32)
    requires Inv(h) && i < |h.blocks| && h.blocks[i].used
    ensures Inv(Moved(h, i, n).0)
    ensures var (h', r) := Malloc(h, n);
            r.Some? ==>
              var j := IndexOf(h'.blocks, h.blocks[i].start);
              && j < |h'.blocks| && h'.blocks[j] == h.blocks[i] && r.value != h.blocks[i].start
              && Moved(h, i, n) == (Free(h', j), r)
  {
    MallocForm(h, n);
    MallocInv(h, n);
    hide Inv, Rounded, Malloc, AtLeastMin, Allocated, Free, Find, IndexOf;
    var (h', r) := Malloc(h, n);
    if r.Some? {
      AllocatedKeeps(h, IndexOf(h.blocks, r.value), AtLeastMin(Rounded(n)), i);
      FreeInv(h', IndexOf(h'.blocks, h.blocks[i].start));
    }
  }
}

/**
 * The boundary tag heap of memheap.c: blocks with links to both neighbours and a free list of its
 * own, which is neither sorted nor first fit by address.
 */
module MemHeap {
  import opened Base
  import opened Lists
  import opened Tiling

  /** RT_MEMHEAP_SIZE and RT_MEMHEAP_MINIALLOC; the latter is not rounded up to RT_ALIGN_SIZE. */
  const HEADER: nat := 24
  const MINI: nat := 12

  /** end is the offset of the tailer block, pool_size less one header; free is the free list, first block first. */
  datatype Heap = Heap(end: nat, blocks: seq<Block>, free: seq<nat>, available: int)

  function After(h: Heap, i: nat): nat {
    Edge(h.blocks, i + 1, h.end)
  }

  /** The bytes behind the header of the block at offset s. */
  function Room(h: Heap, s: nat): int {
    After(h, IndexOf(h.blocks, s)) - s - HEADER
  }

  /** The size searched for: rounded up in 32 bits, at least RT_MEMHEAP_MINIALLOC. */
  function Request(size: u32): nat {
    var n := Wrap(size + 7) / 8 * 8;
    if n < MINI then MINI else n
  }

  /** The first block of the free list from place k on that is large enough. */
  function Search(h: Heap, n: nat, k: nat): (r: Option<nat>)
    ensures r.Some? ==> k <= r.value < |h.free| && Room(h, h.free[r.value]) >= n
    ensures r.Some? ==> forall j :: k <= j < r.value ==> Room(h, h.free[j]) < n
    ensures r.None? ==> forall j :: k <= j < |h.free| ==> Room(h, h.free[j]) < n
    decreases |h.free| - k
  {
    if k >= |h.free| then None else if Room(h, h.free[k]) >= n then Some(k) else Search(h, n, k + 1)
  }

  /** Whether a block is left over behind n bytes of block i. */
  predicate Splits(h: Heap, i: nat, n: nat)
    requires i < |h.blocks|
  {
    After(h, i) - h.blocks[i].start - HEADER >= n + HEADER + MINI
  }

  /** Block i is cut and handed out; what is left over goes to the front of the free list. */
  function TakenInPart(h: Heap, i: nat, n: nat): Heap
    requires i < |h.blocks|
  {
    var s := h.blocks[i].start;
    var at := s + n + HEADER;
    Heap(h.end, Mark(Split(h.blocks, i, at), i, true), [at] + Without(h.free, s), h.available - n - HEADER)
  }

  function TakenWhole(h: Heap, i: nat): Heap
    requires i < |h.blocks|
  {
    var s := h.blocks[i].start;
    Heap(h.end, Mark(h.blocks, i, true), Without(h.free, s), h.available - (After(h, i) - s - HEADER))
  }

  function Allocated(h: Heap, i: nat, n: nat): Heap
    requires i < |h.blocks|
  {
    if Splits(h, i, n) then TakenInPart(h, i, n) else TakenWhole(h, i)
  }

  /** rt_memheap_alloc; the result is the offset of the header of the block. */
  function Alloc(h: Heap, size: u32): (Heap, Option<nat>) {
    var n := Request(size);
    if n >= h.available then (h, None)
    else
      match Search(h, n, 0)
      case None => (h, None)
      case Some(k) =>
        var i := IndexOf(h.blocks, h.free[k]);
        if i < |h.blocks| then (Allocated(h, i, n), Some(h.free[k])) else (h, None)
  }

  /** The freed block i is counted as available. */
  function Released(h: Heap, i: nat): Heap
    requires i < |h.blocks|
  {
    h.(blocks := Mark(h.blocks, i, false), available := h.available + (After(h, i) - h.blocks[i].start - HEADER))
  }

  predicate FreeAt(h: Heap, i: int) {
    0 <= i < |h.blocks| && !h.blocks[i].used
  }

  /** The free neighbour before block i takes it over. */
  function JoinedLeft(h: Heap, i: nat): Heap
    requires 0 < i < |h.blocks|
  {
    h.(blocks := Merge(h.blocks, i - 1), available := h.available + HEADER)
  }

  /** Block i takes over its free neighbour behind it, which leaves the free list. */
  function JoinedRight(h: Heap, i: nat): Heap
    requires i + 1 < |h.blocks|
  {
    h.(blocks := Merge(h.blocks, i), available := h.available + HEADER, free := Without(h.free, h.blocks[i + 1].start))
  }

  /** rt_memheap_free of block i. */
  function Free(h: Heap, i: nat): Heap
    requires i < |h.blocks|
  {
    var h1 := Released(h, i);
    var left := FreeAt(h1, i - 1);
    var h2 := if left then JoinedLeft(h1, i) else h1;
    var j := if left then i - 1 else i;
    var h3 := if FreeAt(h2, j + 1) then JoinedRight(h2, j) else h2;
    if left then h3 else h3.(free := [h.blocks[i].start] + h3.free)
  }

  // ---- Invariant ----

  /** The free list holds exactly the blocks that are not used, but for the block that starts at but. */
  ghost predicate Listed(blocks: seq<Block>, free: seq<nat>, but: int) {
    && NoDup(free)
    && (forall i :: 0 <= i < |blocks| && !blocks[i].used && blocks[i].start != but ==> blocks[i].start in free)
    && (forall s <- free :: s != but && Vacant(blocks, s))
  }

  /** A free block starts there. */
  ghost predicate Vacant(blocks: seq<Block>, s: nat) {
    exists i :: 0 <= i < |blocks| && blocks[i].start == s && !blocks[i].used
  }

  ghost predicate Shape(h: Heap) {
    Tiled(h.blocks, h.end, HEADER) && h.available == Total(h.blocks, h.end, false, HEADER)
  }

  ghost predicate Inv(h: Heap) {
    Shape(h) && Coalesced(h.blocks) && Listed(h.blocks, h.free, -1)
  }

  lemma SplitListed(blocks: seq<Block>, free: seq<nat>, i: nat, at: nat, end: nat)
    requires Listed(blocks, free, -1) && Strict(blocks, end) && i < |blocks| && !blocks[i].used
    requires blocks[i].start < at < Edge(blocks, i + 1, end)
    ensures Listed(Mark(Split(blocks, i, at), i, true), [at] + Without(free, blocks[i].start), -1)
  {
    var (s, bs) := (blocks[i].start, Mark(Split(blocks, i, at), i, true));
    WithoutMembers(free, s);
    WithoutNoDup(free, s);
    hide NoDup;
    forall x <- Without(free, s) ensures x != at && Vacant(bs, x) {
      VacantSplit(blocks, i, at, x, end);
    }
    assert bs[i + 1] == Block(at, false);
    forall j | 0 <= j < |bs| && !bs[j].used ensures bs[j].start in [at] + Without(free, s) {
      if j != i + 1 {
        assert bs[j] == blocks[if j < i then j else j - 1];
      }
    }
    PushNoDup(Without(free, s), at);
  }

  lemma VacantSplit(blocks: seq<Block>, i: nat, at: nat, x: nat, end: nat)
    requires Strict(blocks, end) && i < |blocks| && blocks[i].start < at < Edge(blocks, i + 1, end)
    requires Vacant(blocks, x) && x != blocks[i].start
    ensures x != at && Vacant(Mark(Split(blocks, i, at), i, true), x)
  {
    var j :| 0 <= j < |blocks| && blocks[j].start == x && !blocks[j].used;
    assert Mark(Split(blocks, i, at), i, true)[if j < i then j else j + 1] == blocks[j];
    assert j > i ==> blocks[i + 1].start <= blocks[j].start;
  }

  lemma MarkListed(blocks: seq<Block>, free: seq<nat>, i: nat, end: nat)
    requires Listed(blocks, free, -1) && Strict(blocks, end) && i < |blocks|
    ensures Listed(Mark(blocks, i, true), Without(free, blocks[i].start), -1)
  {
    var (s, bs) := (blocks[i].start, Mark(blocks, i, true));
    WithoutMembers(free, s);
    WithoutNoDup(free, s);
    hide NoDup;
    forall x <- Without(free, s) ensures Vacant(bs, x) {
      var j :| 0 <= j < |blocks| && blocks[j].start == x && !blocks[j].used;
      assert bs[j] == blocks[j];
    }
  }

  lemma AllocatedInv(h: Heap, i: nat, n: nat)
    requires Inv(h) && i < |h.blocks| && !h.blocks[i].used && After(h, i) - h.blocks[i].start - HEADER >= n > 0
    ensures Inv(Allocated(h, i, n))
  {
    hide NoDup, Total, Listed, Roomy, Coalesced, Tiled, Strict;
    var s := h.blocks[i].start;
    var at := s + n + HEADER;
    TiledStrict(h.blocks, h.end, HEADER);
    TakenCoalesced(h.blocks, i, at);
    if After(h, i) - s - HEADER >= n + HEADER + MINI {
      SplitTiled(h.blocks, i, at, h.end, HEADER);
      SplitTotal(h.blocks, i, at, h.end, false, HEADER);
      MarkTiled(Split(h.blocks, i, at), i, true, h.end, HEADER);
      MarkTotal(Split(h.blocks, i, at), i, true, h.end, false, HEADER);
      SplitListed(h.blocks, h.free, i, at, h.end);
    } else {
      MarkTiled(h.blocks, i, true, h.end, HEADER);
      MarkTotal(h.blocks, i, true, h.end, false, HEADER);
      MarkListed(h.blocks, h.free, i, h.end);
    }
  }

  /** Inside rt_memheap_free: block j is free and may have free neighbours; the block at but is not listed yet. */
  ghost predicate Near(h: Heap, j: nat, but: int) {
    && Shape(h) && j < |h.blocks| && !h.blocks[j].used
    && (forall k :: 0 <= k < |h.blocks| - 1 && k != j && k + 1 != j ==> h.blocks[k].used || h.blocks[k + 1].used)
    && Listed(h.blocks, h.free, but)
  }

  lemma ReleasedNear(h: Heap, i: nat)
    requires Inv(h) && i < |h.blocks| && h.blocks[i].used
    ensures Near(Released(h, i), i, h.blocks[i].start)
  {
    MarkTiled(h.blocks, i, false, h.end, HEADER);
    MarkTotal(h.blocks, i, false, h.end, false, HEADER);
    TiledStrict(h.blocks, h.end, HEADER);
    MarkedUnlisted(h.blocks, h.free, i, h.end);
    hide NoDup, Total, Listed, Roomy, Tiled, Strict;
  }

  lemma MarkedUnlisted(blocks: seq<Block>, free: seq<nat>, i: nat, end: nat)
    requires Listed(blocks, free, -1) && Strict(blocks, end) && i < |blocks| && blocks[i].used
    ensures Listed(Mark(blocks, i, false), free, blocks[i].start)
  {
    var bs := Mark(blocks, i, false);
    hide NoDup;
    forall x <- free ensures x != blocks[i].start && Vacant(bs, x) {
      var j :| 0 <= j < |blocks| && blocks[j].start == x && !blocks[j].used;
      assert bs[j] == blocks[j];
    }
  }

  lemma LeftNear(h: Heap, i: nat)
    requires i < |h.blocks| && Near(h, i, h.blocks[i].start) && FreeAt(h, i - 1)
    ensures Near(JoinedLeft(h, i), i - 1, -1)
    ensures var h' := JoinedLeft(h, i); i == 1 || h'.blocks[i - 2].used
  {
    TiledStrict(h.blocks, h.end, HEADER);
    MergeTiled(h.blocks, i - 1, h.end, HEADER);
    MergeTotal(h.blocks, i - 1, h.end, false, HEADER);
    LeftListed(h.blocks, h.free, i, h.end);
    hide NoDup, Total, Listed, Roomy, Tiled, Strict;
  }

  lemma LeftListed(blocks: seq<Block>, free: seq<nat>, i: nat, end: nat)
    requires 0 < i < |blocks| && Strict(blocks, end) && Listed(blocks, free, blocks[i].start)
    ensures Listed(Merge(blocks, i - 1), free, -1)
  {
    var bs := Merge(blocks, i - 1);
    hide NoDup, Merge;
    forall x <- free ensures Vacant(bs, x) {
      VacantLeft(blocks, i, x);
    }
    forall j | 0 <= j < |bs| && !bs[j].used ensures bs[j].start in free {
      assert bs[j] == blocks[if j < i then j else j + 1];
    }
  }

  lemma VacantLeft(blocks: seq<Block>, i: nat, x: nat)
    requires 0 < i < |blocks| && Vacant(blocks, x) && x != blocks[i].start
    ensures Vacant(Merge(blocks, i - 1), x)
  {
    var j :| 0 <= j < |blocks| && blocks[j].start == x && !blocks[j].used;
    assert Merge(blocks, i - 1)[if j < i then j else j - 1] == blocks[j];
  }

  lemma RightNear(h: Heap, j: nat, but: int)
    requires Near(h, j, but) && FreeAt(h, j + 1) && (but == -1 || but == h.blocks[j].start)
    ensures Near(JoinedRight(h, j), j, but)
    ensures var h' := JoinedRight(h, j); !FreeAt(h', j + 1) && h'.blocks[..j + 1] == h.blocks[..j + 1]
  {
    TiledStrict(h.blocks, h.end, HEADER);
    MergeTiled(h.blocks, j, h.end, HEADER);
    MergeTotal(h.blocks, j, h.end, false, HEADER);
    RightListed(h.blocks, h.free, j, but, h.end);
    hide NoDup, Total, Listed, Roomy, Tiled, Strict;
  }

  lemma RightListed(blocks: seq<Block>, free: seq<nat>, j: nat, but: int, end: nat)
    requires j + 1 < |blocks| && Strict(blocks, end) && Listed(blocks, free, but)
    requires but == -1 || but == blocks[j].start
    ensures Listed(Merge(blocks, j), Without(free, blocks[j + 1].start), but)
  {
    var (s, bs) := (blocks[j + 1].start, Merge(blocks, j));
    WithoutMembers(free, s);
    WithoutNoDup(free, s);
    hide NoDup;
    forall x <- Without(free, s) ensures Vacant(bs, x) {
      VacantLeft(blocks, j + 1, x);
    }
    forall k | 0 <= k < |bs| && !bs[k].used && bs[k].start != but ensures bs[k].start in Without(free, s) {
      assert bs[k] == blocks[if k <= j then k else k + 1];
    }
  }

  /** Free neighbours are listed, the block just freed is not. */
  lemma NearListed(h: Heap, j: nat, but: int)
    requires Near(h, j, but) && (but == -1 || but == h.blocks[j].start)
    ensures forall s <- h.free :: s != but
    ensures FreeAt(h, j + 1) ==> h.blocks[j + 1].start in h.free
  {
    TiledStrict(h.blocks, h.end, HEADER);
  }

  /** Putting the block in front of the list completes it. */
  lemma PushListed(blocks: seq<Block>, free: seq<nat>, i: nat, end: nat)
    requires i < |blocks| && Strict(blocks, end) && !blocks[i].used && Listed(blocks, free, blocks[i].start)
    ensures Listed(blocks, [blocks[i].start] + free, -1)
  {
    PushNoDup(free, blocks[i].start);
    hide NoDup;
    assert Vacant(blocks, blocks[i].start);
  }

  lemma NearDone(h: Heap, j: nat)
    requires Near(h, j, -1) && !FreeAt(h, j + 1) && !FreeAt(h, j - 1)
    ensures Inv(h)
  {
    hide Shape, Listed;
  }

  lemma FreeInv(h: Heap, i: nat)
    requires Inv(h) && i < |h.blocks| && h.blocks[i].used
    ensures Inv(Free(h, i))
  {
    ReleasedNear(h, i);
    hide Inv, Near, Released, JoinedLeft, JoinedRight;
    var h1 := Released(h, i);
    var left := FreeAt(h1, i - 1);
    if left {
      LeftNear(h1, i);
      FreeTail(JoinedLeft(h1, i), i - 1);
    } else {
      FreeAlone(h1, i);
    }
  }

  lemma FreeTail(h: Heap, j: nat)
    requires Near(h, j, -1) && !FreeAt(h, j - 1)
    ensures Inv(if FreeAt(h, j + 1) then JoinedRight(h, j) else h)
  {
    if FreeAt(h, j + 1) {
      RightNear(h, j, -1);
      hide Near, Inv;
      NearDone(JoinedRight(h, j), j);
    } else {
      NearDone(h, j);
    }
  }

  lemma FreeAlone(h: Heap, i: nat)
    requires i < |h.blocks| && Near(h, i, h.blocks[i].start) && !FreeAt(h, i - 1)
    ensures var h3 := if FreeAt(h, i + 1) then JoinedRight(h, i) else h;
            Inv(h3.(free := [h.blocks[i].start] + h3.free))
  {
    if FreeAt(h, i + 1) {
      RightNear(h, i, h.blocks[i].start);
    }
    var h3 := if FreeAt(h, i + 1) then JoinedRight(h, i) else h;
    TiledStrict(h3.blocks, h.end, HEADER);
    PushListed(h3.blocks, h3.free, i, h.end);
    hide Listed, Total, Tiled, Strict, JoinedRight;
    NearDone(h3.(free := [h.blocks[i].start] + h3.free), i);
  }

  // ---- Requests ----

  lemma ListedBlock(h: Heap, s: nat)
    requires Inv(h) && s in h.free
    ensures var i := IndexOf(h.blocks, s);
            i < |h.blocks| && !h.blocks[i].used && h.blocks[i].start == s && Room(h, s) == After(h, i) - s - HEADER
  {
    var j :| 0 <= j < |h.blocks| && h.blocks[j].start == s && !h.blocks[j].used;
    IndexOfStart(h.blocks, h.end, HEADER, j);
  }

  /** A grant is a free block turned into a used one with room for the request, at the place it had. */
  lemma AllocInv(h: Heap, size: u32)
    requires Inv(h)
    ensures var (h', r) := Alloc(h, size);
            && Inv(h') && h'.end == h.end
            && match r
               case None => h' == h
               case Some(s) =>
                 var i := IndexOf(h.blocks, s);
                 && i < |h.blocks| && !h.blocks[i].used && h.blocks[i].start == s
                 && i < |h'.blocks| && h'.blocks[i] == Block(s, true)
                 && After(h', i) >= s + HEADER + Request(size)
  {
    var n := Request(size);
    hide Inv, Request;
    match Search(h, n, 0)
    case None => {}
    case Some(k) =>
      ListedBlock(h, h.free[k]);
      if n < h.available {
        assert n > 0 by { RequestAtLeast(size); }
        AllocatedInv(h, IndexOf(h.blocks, h.free[k]), n);
      }
  }

  lemma RequestAtLeast(size: u32)
    ensures Request(size) >= MINI
    ensures size <= Request(size) <==> size <= MINI || size + 7 < TWO32
  {
  }

  lemma {:induction false} FreeSumBounds(blocks: seq<Block>, end: nat, i: nat)
    requires i < |blocks| && forall j :: 0 <= j < |blocks| ==> Roomy(blocks, j, end, HEADER)
    ensures Total(blocks, end, false, HEADER) >= 0
    ensures !blocks[i].used ==> Edge(blocks, i + 1, end) - blocks[i].start - HEADER <= Total(blocks, end, false, HEADER)
    decreases |blocks|
  {
    assert Roomy(blocks, 0, end, HEADER);
    if |blocks| > 1 {
      forall j | 0 <= j < |blocks| - 1 ensures Roomy(blocks[1..], j, end, HEADER) {
        assert Roomy(blocks, j + 1, end, HEADER);
      }
      FreeSumBounds(blocks[1..], end, if i == 0 then 0 else i - 1);
    }
  }

  /**
   * A request fails exactly if no free block is large enough or it asks for all that is available:
   * a block of just the size is refused when it is all there is.
   */
  lemma FailsExactly(h: Heap, size: u32)
    requires Inv(h)
    ensures Alloc(h, size).1.None? <==>
              Request(size) >= h.available || forall s <- h.free :: Room(h, s) < Request(size)
  {
    var n := Request(size);
    hide Inv, Request;
    match Search(h, n, 0)
    case None => {}
    case Some(k) =>
      ListedBlock(h, h.free[k]);
      assert h.free[k] in h.free;
  }

  /** No block has more room than is available. */
  lemma RoomAvailable(h: Heap, s: nat)
    requires Inv(h) && s in h.free
    ensures 0 <= Room(h, s) <= h.available
  {
    ListedBlock(h, s);
    var i := IndexOf(h.blocks, s);
    FreeSumBounds(h.blocks, h.end, i);
    assert Roomy(h.blocks, i, h.end, HEADER);
  }

  /** Without used blocks there is one free block, listed and all available. */
  lemma AllFree(h: Heap)
    requires Inv(h) && forall i :: 0 <= i < |h.blocks| ==> !h.blocks[i].used
    ensures h == Fresh(h.end)
  {
    assert |h.blocks| == 1 && h.blocks == [Block(0, false)];
    assert h.available == Total([Block(0, false)], h.end, false, HEADER);
    assert h.blocks[0].start in h.free;
    forall s <- h.free ensures s == 0 {
      ListedBlock(h, s);
    }
    OnlyZero(h.free);
  }

  lemma OnlyZero(xs: seq<nat>)
    requires NoDup(xs) && 0 in xs && forall x <- xs :: x == 0
    ensures xs == [0]
  {
    Distinct(xs);
    assert Elements(xs) == {0};
    assert xs[0] in xs;
  }

  /** rt_memheap_init of a pool whose tailer block is at end. */
  ghost function Fresh(end: nat): Heap {
    Heap(end, [Block(0, false)], [0], end - HEADER)
  }

  lemma FreshInv(end: nat)
    requires end >= HEADER
    ensures Inv(Fresh(end))
  {
    assert Total([], end, false, HEADER) == 0;
  }

  // ---- Runs ----

  datatype Event = AllocEv(size: u32) | FreeEv(start: nat)

  ghost predicate Permitted(h: Heap, e: Event) {
    e.FreeEv? ==> var i := IndexOf(h.blocks, e.start); i < |h.blocks| && h.blocks[i].used
  }

  ghost function Next(h: Heap, e: Event): Heap
    requires Permitted(h, e)
  {
    match e
    case AllocEv(size) => Alloc(h, size).0
    case FreeEv(s) => Free(h, IndexOf(h.blocks, s))
  }

  ghost predicate PermittedRun(h: Heap, es: seq<Event>)
    decreases |es|
  {
    es == [] || (Permitted(h, es[0]) && PermittedRun(Next(h, es[0]), es[1..]))
  }

  ghost function AfterRun(h: Heap, es: seq<Event>): Heap
    requires PermittedRun(h, es)
    decreases |es|
  {
    if es == [] then h else AfterRun(Next(h, es[0]), es[1..])
  }

  lemma {:induction false} RunInv(h: Heap, es: seq<Event>)
    requires Inv(h) && PermittedRun(h, es)
    ensures Inv(AfterRun(h, es)) && AfterRun(h, es).end == h.end
    decreases |es|
  {
    hide Inv, Alloc, Free;
    if es != [] {
      match es[0]
      case AllocEv(size) =>
        AllocInv(h, size);
        RunInv(Next(h, es[0]), es[1..]);
      case FreeEv(s) =>
        FreeInv(h, IndexOf(h.blocks, s));
        FreeEnd(h, IndexOf(h.blocks, s));
        RunInv(Next(h, es[0]), es[1..]);
    }
  }

  lemma FreeEnd(h: Heap, i: nat)
    requires i < |h.blocks|
    ensures Free(h, i).end == h.end
  {
  }

  /** However the blocks were handed out and freed, when all are free the pool is as it was initialised. */
  lemma AllBack(end: nat, es: seq<Event>)
    requires end >= HEADER && PermittedRun(Fresh(end), es)
    requires forall b <- AfterRun(Fresh(end), es).blocks :: !b.used
    ensures AfterRun(Fresh(end), es) == Fresh(end)
  {
    FreshInv(end);
    RunInv(Fresh(end), es);
    var h := AfterRun(Fresh(end), es);
    forall i | 0 <= i < |h.blocks| ensures !h.blocks[i].used {
      assert h.blocks[i] in h.blocks;
    }
    AllFree(h);
  }
}

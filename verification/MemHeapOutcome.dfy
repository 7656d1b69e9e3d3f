/** Which requests rt_memheap_alloc refuses, which block it takes and where that ends, by the pool's blocks. */
module MemHeapOutcome {
  import opened Base
  import opened Lists
  import opened Tiling
  import opened MemHeap
  import opened MemHeapLive

  /** RT_ALIGN to 8, and at least 12; a size that does not fit in a word when it is rounded asks for 12. */
  lemma RequestIs(size: u32)
    ensures 8 < size < TWO32 - 7 ==> size <= Request(size) < size + 8 && Request(size) % 8 == 0
    ensures size <= 8 || size >= TWO32 - 7 ==> Request(size) == 12
  {
  }

  /** The bytes behind the header of block j. */
  ghost function RoomOf(h: Heap, j: nat): int
    requires j < |h.blocks|
  {
    Edge(h.blocks, j + 1, h.end) - h.blocks[j].start - HEADER
  }

  /** A free block starts at s and has n bytes behind its header. */
  ghost predicate Offers(h: Heap, s: nat, n: nat) {
    exists j :: 0 <= j < |h.blocks| && h.blocks[j].start == s && !h.blocks[j].used && RoomOf(h, j) >= n
  }

  /** Where block j ends when n bytes of it are handed out: behind them, if a header and 12 bytes are left. */
  ghost function TakenEnd(h: Heap, j: nat, n: nat): nat
    requires j < |h.blocks|
  {
    if RoomOf(h, j) >= n + HEADER + 12 then h.blocks[j].start + HEADER + n else Edge(h.blocks, j + 1, h.end)
  }

  lemma OffersListed(h: Heap, s: nat, n: nat)
    requires Inv(h)
    ensures Offers(h, s, n) <==> s in h.free && Room(h, s) >= n
  {
    if Offers(h, s, n) {
      var j :| 0 <= j < |h.blocks| && h.blocks[j].start == s && !h.blocks[j].used && RoomOf(h, j) >= n;
      IndexOfStart(h.blocks, h.end, HEADER, j);
    }
    if s in h.free { ListedBlock(h, s); }
  }

  /**
   * A request is refused exactly if it asks for all that is available or more, or no free block has
   * room for it. Else it takes the first block of the free list that has, up to where that is cut.
   */
  lemma AllocExactly(h: Heap, size: u32)
    requires Inv(h)
    ensures var ((h', r), n) := (Alloc(h, size), Request(size));
            && (r.None? <==> n >= h.available || forall s: nat :: !Offers(h, s, n))
            && (r.Some? ==>
                  exists k: nat, j: nat ::
                    && k < |h.free| && r.value == h.free[k] && Offers(h, h.free[k], n)
                    && (forall i :: 0 <= i < k ==> !Offers(h, h.free[i], n))
                    && j < |h.blocks| && h.blocks[j].start == r.value && Gains(h, h', r.value, TakenEnd(h, j, n)))
  {
    var n := Request(size);
    forall s: nat ensures Offers(h, s, n) <==> s in h.free && Room(h, s) >= n { OffersListed(h, s, n); }
    FailsExactly(h, size);
    if Alloc(h, size).1.Some? {
      AllocForm(h, size);
      var (k, j) := (Search(h, n, 0).value, IndexOf(h.blocks, Alloc(h, size).1.value));
      AllocatedGains(h, j, n);
      TakenEndIs(h, j, n);
      hide Inv, Offers, Gains, Request, Room;
      forall i | 0 <= i < k ensures !Offers(h, h.free[i], n) {
        assert Room(h, h.free[i]) < n;
      }
      assert Offers(h, h.free[k], n);
    }
  }

  lemma TakenEndIs(h: Heap, j: nat, n: nat)
    requires j < |h.blocks|
    ensures NewEnd(h, j, n) == TakenEnd(h, j, n)
  {
  }

  /** What is available is what the free blocks hold behind their headers. */
  lemma AvailableIs(h: Heap)
    requires Inv(h)
    ensures h.available == Sum(h, 0)
  {
    SumIs(h, 0);
    assert h.blocks[0..] == h.blocks;
  }

  /** The room of the free blocks from j on. */
  ghost function Sum(h: Heap, j: nat): int
    requires j <= |h.blocks|
    decreases |h.blocks| - j
  {
    if j == |h.blocks| then 0 else (if h.blocks[j].used then 0 else RoomOf(h, j)) + Sum(h, j + 1)
  }

  lemma {:induction false} SumIs(h: Heap, j: nat)
    requires j <= |h.blocks|
    ensures Sum(h, j) == Total(h.blocks[j..], h.end, false, HEADER)
    decreases |h.blocks| - j
  {
    if j < |h.blocks| {
      SumIs(h, j + 1);
      assert h.blocks[j..][1..] == h.blocks[j + 1..];
    }
  }

  // ---- The order of the free list ----

  /**
   * A freed block without a free block before it comes first in the free list; the others stay in
   * order, but for the one behind that it takes over.
   */
  lemma FreedFirst(h: Heap, i: nat)
    requires Inv(h) && i < |h.blocks| && h.blocks[i].used && (i > 0 ==> h.blocks[i - 1].used)
    ensures var f := Free(h, i);
            && f.free == [h.blocks[i].start]
                         + (if FreeAt(h, i + 1) then Without(h.free, h.blocks[i + 1].start) else h.free)
            && i < |f.blocks| && f.blocks[i] == Block(h.blocks[i].start, false) && RoomOf(f, i) >= RoomOf(h, i)
  {
    if FreeAt(h, i + 1) {
      assert Roomy(h.blocks, i + 1, h.end, HEADER);
    }
  }

  /** The next request that such a block has room for gets it, unless that asks for all that is available. */
  lemma ReusedFirst(h: Heap, i: nat, size: u32)
    requires Inv(h) && i < |h.blocks| && h.blocks[i].used && (i > 0 ==> h.blocks[i - 1].used)
    requires Request(size) <= RoomOf(h, i)
    ensures Alloc(Free(h, i), size).1 == if Request(size) < Free(h, i).available then Some(h.blocks[i].start) else None
  {
    FreedFirst(h, i);
    FreeInv(h, i);
    hide Free, Request;
    var (f, n) := (Free(h, i), Request(size));
    IndexOfStart(f.blocks, f.end, HEADER, i);
    hide Inv;
    assert Search(f, n, 0) == Some(0);
  }
}

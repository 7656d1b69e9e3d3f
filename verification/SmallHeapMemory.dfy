/** The small heap of mem.c in place: the words of the headers, indexed by the offset of the block. */
module SmallHeapMemory {
  import opened Base
  import opened Tiling
  import H = SmallHeap

  class Memory {
    /** mem_size_aligned; the header of heap_end stands at offset end. */
    const size: nat
    const end: nat
    const next: array<nat>
    const prev: array<nat>
    const used: array<bool>
    var lfree: nat
    var usedMem: int
    ghost var blocks: seq<Block>

    /** The headers tell the blocks; the first block leads back to itself, the end stub counts as used. */
    ghost predicate Linked()
      reads this`blocks, next, prev, used
    {
      && end == size + H.HEADER && next.Length == prev.Length == used.Length == end + 1
      && Tiled(blocks, end, H.HEADER)
      && Forward(next[..], blocks, end) && Backward(prev[..], blocks) && Flagged(used[..], blocks)
      && prev[0] == 0 && used[end]
    }

    ghost function View(): H.Heap
      reads this
    {
      H.Heap(size, blocks, lfree, usedMem)
    }

    ghost predicate Valid()
      reads this, next, prev, used
    {
      Linked() && H.Inv(View())
    }

    /** rt_system_heap_init with n bytes between the first header and heap_end. */
    constructor (n: nat)
      requires n >= H.MIN_ALIGNED && n % 8 == 0
      ensures Valid() && View() == H.Heap(n, [Block(0, false)], 0, 0)
    {
      size, end := n, n + H.HEADER;
      next := new nat[n + H.HEADER + 1];
      prev := new nat[n + H.HEADER + 1];
      used := new bool[n + H.HEADER + 1];
      lfree, usedMem, blocks := 0, 0, [Block(0, false)];
      new;
      next[0], prev[0], used[0] := end, 0, false;
      used[end], next[end], prev[end] := true, end, end;
      assert Leads(next[..], blocks, 0, end) && Roomy(blocks, 0, end, H.HEADER);
      assert Total([], end, true, 0) == 0;
    }

    /** What the headers say of block i. */
    lemma HeaderAt(i: nat)
      requires Linked() && i < |blocks|
      ensures var s := blocks[i].start;
              && s < end && next[s] == Edge(blocks, i + 1, end) <= end && s < next[s] && used[s] == blocks[i].used
              && prev[s] == if i == 0 then 0 else blocks[i - 1].start
    {
      TiledStrict(blocks, end, H.HEADER);
      assert Leads(next[..], blocks, i, end);
    }

    /** A new free header at offset at, linked in behind block i at s. */
    method SplitBlock(s: nat, at: nat, ghost i: nat)
      requires Linked() && i < |blocks| && s == blocks[i].start
      requires s + H.HEADER <= at && at + H.HEADER <= Edge(blocks, i + 1, end)
      modifies this`blocks, next, prev, used
      ensures Linked() && blocks == Split(old(blocks), i, at)
    {
      hide Strict, Forward, Backward, Flagged, Tiled, Split;
      HeaderAt(i);
      TiledStrict(blocks, end, H.HEADER);
      SplitTiled(blocks, i, at, end, H.HEADER);
      SplitForward(next[..], blocks, i, at, end);
      SplitBackward(prev[..], blocks, i, at, end);
      SplitFlagged(used[..], blocks, i, at, end);
      ghost var q := prev[..][at := s][next[s] := at];
      used[at] := false;
      next[at] := next[s];
      prev[at] := s;
      next[s] := at;
      if next[at] != end {
        prev[next[at]] := at;
      }
      blocks := Split(blocks, i, at);
      TiledStrict(blocks, end, H.HEADER);
      if next[at] == end {
        EndBackward(q, blocks, end, prev[end]);
        assert q[end := prev[end]] == prev[..];
      }
    }

    /** Block i at s takes over the one behind it at n. */
    method Absorb(s: nat, n: nat, ghost i: nat)
      requires Linked() && i + 1 < |blocks| && s == blocks[i].start && n == blocks[i + 1].start
      modifies this`blocks, next, prev
      ensures Linked() && blocks == Merge(old(blocks), i)
    {
      hide Strict, Forward, Backward, Flagged, Tiled, Merge;
      HeaderAt(i);
      HeaderAt(i + 1);
      TiledStrict(blocks, end, H.HEADER);
      MergeTiled(blocks, i, end, H.HEADER);
      MergeForward(next[..], blocks, i, end);
      MergeBackward(prev[..], blocks, i, end);
      MergeFlagged(used[..], blocks, i);
      next[s] := next[n];
      prev[next[n]] := s;
      blocks := Merge(blocks, i);
    }

    method MarkBlock(s: nat, u: bool, ghost i: nat)
      requires Linked() && i < |blocks| && s == blocks[i].start
      modifies this`blocks, used
      ensures Linked() && blocks == Mark(old(blocks), i, u)
    {
      hide Strict, Forward, Backward, Flagged, Tiled, Mark;
      HeaderAt(i);
      TiledStrict(blocks, end, H.HEADER);
      MarkTiled(blocks, i, u, end, H.HEADER);
      MarkForward(next[..], blocks, i, u, end);
      MarkBackward(prev[..], blocks, i, u);
      MarkFlagged(used[..], blocks, i, u, end);
      used[s] := u;
      blocks := Mark(blocks, i, u);
    }

    /** plug_holes. */
    method PlugHoles(mem: nat, ghost i: nat)
      requires Linked() && i < |blocks| && mem == blocks[i].start
      modifies this`lfree, this`blocks, next, prev
      ensures Linked() && i < |H.PlugForward(old(View()), i).blocks| && View() == H.Plugged(old(View()), i)
    {
      ghost var h := View();
      HeaderAt(i);
      if i + 1 < |blocks| {
        HeaderAt(i + 1);
      }
      hide Linked;
      var nmem := next[mem];
      if mem != nmem && !used[nmem] && nmem != end {
        if lfree == nmem {
          lfree := mem;
        }
        Absorb(mem, nmem, i);
      }
      assert View() == H.PlugForward(h, i);
      HeaderAt(i);
      if i > 0 {
        HeaderAt(i - 1);
      }
      var pmem := prev[mem];
      if pmem != mem && !used[pmem] {
        if lfree == mem {
          lfree := pmem;
        }
        Absorb(pmem, mem, i - 1);
      }
    }

    /** rt_free of the block whose header is at mem. */
    method Free(mem: nat, ghost i: nat)
      requires Valid() && i < |blocks| && mem == blocks[i].start && blocks[i].used
      modifies this, next, prev, used
      ensures Valid() && View() == H.Free(old(View()), i)
    {
      ghost var h := View();
      H.FreeInv(h, i);
      HeaderAt(i);
      hide H.Inv, Mark, H.Plugged, Linked;
      MarkBlock(mem, false, i);
      HeaderAt(i);
      if mem < lfree {
        lfree := mem;
      }
      usedMem := usedMem - (next[mem] - mem);
      assert View() == H.Released(h, i);
      PlugHoles(mem, i);
    }

    /** The loop that moves lfree on to the next free block. */
    method AdvanceLfree(ghost k: nat)
      requires Linked() && k < |blocks| && lfree == blocks[k].start
      modifies this`lfree
      ensures lfree == Edge(blocks, H.NextFree(blocks, k), end)
    {
      ghost var j := k;
      HeaderAt(j);
      while used[lfree] && lfree != end
        invariant k <= j <= |blocks| && lfree == Edge(blocks, j, end) <= end
        invariant H.NextFree(blocks, k) == H.NextFree(blocks, j)
        invariant j < |blocks| ==>
                    used[lfree] == blocks[j].used && next[lfree] == Edge(blocks, j + 1, end) <= end && lfree < end
        decreases |blocks| - j
      {
        HeaderAt(j);
        lfree := next[lfree];
        j := j + 1;
        if j < |blocks| {
          HeaderAt(j);
        }
      }
    }

    /** The search of rt_malloc; n is the size after rounding. */
    method Search(n: nat) returns (mem: Option<nat>, ghost i: nat)
      requires Valid() && n <= size
      ensures var r := H.Find(View(), n, IndexOf(blocks, lfree));
              if r.Some? then mem == Some(blocks[r.value].start) && i == r.value else mem == None
    {
      H.LfreeIs(View());
      i := IndexOf(blocks, lfree);
      ghost var k := i;
      var ptr := lfree;
      hide H.Inv, IndexOf;
      while ptr < size - n
        invariant k <= i <= |blocks| && ptr == Edge(blocks, i, end)
        invariant H.Find(View(), n, k) == H.Find(View(), n, i)
        decreases |blocks| - i
      {
        HeaderAt(i);
        if !used[ptr] && next[ptr] - (ptr + H.HEADER) >= n {
          return Some(ptr), i;
        }
        ptr := next[ptr];
        i := i + 1;
      }
      mem := None;
    }

    /** rt_malloc; the offset of the header of the block handed out. */
    method Malloc(request: u32) returns (mem: Option<nat>)
      requires Valid()
      modifies this, next, prev, used
      ensures Valid() && (View(), mem) == H.Malloc(old(View()), request)
    {
      ghost var h := View();
      H.MallocInv(h, request);
      if request == 0 {
        return None;
      }
      var n: nat := H.Rounded(request);
      if n > size {
        return None;
      }
      if n < H.MIN_ALIGNED {
        n := H.MIN_ALIGNED;
      }
      ghost var i;
      mem, i := Search(n);
      if mem.Some? {
        TakeBlock(mem.value, n, i);
      }
    }

    lemma EndIs()
      requires Linked()
      ensures end == H.End(View())
    {
    }

    /** Block i is split if enough is left over, and marked used. */
    method TakeBlock(mem: nat, n: nat, ghost i: nat)
      requires Linked() && i < |blocks| && mem == blocks[i].start && H.Fits(View(), i, n)
      modifies this, next, prev, used
      ensures Linked() && View() == H.Allocated(old(View()), i, n)
    {
      hide Mark, Split, Linked, H.NextFree, H.Splits, H.Fits, H.After;
      ghost var h := View();
      EndIs();
      Carve(mem, n, i);
      MarkBlock(mem, true, i);
      if mem == lfree {
        AdvanceLfree(i);
      }
      assert View() == H.Allocated(h, i, n);
    }

    /** The split, and the account of what is handed out. */
    method Carve(mem: nat, n: nat, ghost i: nat)
      requires Linked() && i < |blocks| && mem == blocks[i].start && H.Fits(View(), i, n)
      modifies this`blocks, this`usedMem, next, prev, used
      ensures Linked() && i < |blocks| && blocks[i].start == mem
      ensures var h := old(View());
              && blocks == (if H.Splits(h, i, n) then Split(h.blocks, i, mem + H.HEADER + n) else h.blocks)
              && usedMem == h.used + if H.Splits(h, i, n) then n + H.HEADER else H.After(h, i) - mem
    {
      HeaderAt(i);
      hide Split, Linked;
      if next[mem] - (mem + H.HEADER) >= n + H.HEADER + H.MIN_ALIGNED {
        SplitBlock(mem, mem + H.HEADER + n, i);
        usedMem := usedMem + (n + H.HEADER);
      } else {
        usedMem := usedMem + (next[mem] - mem);
      }
    }

    /** rt_realloc of the block whose header is at mem, or of nothing. */
    method Realloc(mem: Option<nat>, newsize: u32, ghost i: Option<nat>) returns (r: Option<nat>)
      requires Valid() && mem.Some? == i.Some?
      requires i.Some? ==> i.value < |blocks| && mem.value == blocks[i.value].start && blocks[i.value].used
      modifies this, next, prev, used
      ensures Valid() && (View(), r) == H.Realloc(old(View()), i, newsize)
    {
      ghost var h := View();
      H.ReallocInv(h, i, newsize);
      hide H.Inv, H.Malloc, H.Shrunk, H.Free, H.Rounded;
      var n := H.Rounded(newsize);
      if n > size {
        return None;
      }
      if mem.None? {
        r := Malloc(n);
        return;
      }
      var ptr := mem.value;
      HeaderAt(i.value);
      var room := next[ptr] - ptr - H.HEADER;
      hide Linked;
      if room == n {
        return Some(ptr);
      }
      if n + H.HEADER + H.MIN_SIZE < room {
        ShrinkBlock(ptr, n, i.value);
        return Some(ptr);
      }
      H.MovedInv(h, i.value, n);
      r := Malloc(n);
      if r.Some? {
        Free(ptr, IndexOf(blocks, ptr));
      }
    }

    method ShrinkBlock(mem: nat, n: nat, ghost i: nat)
      requires Linked() && i < |blocks| && mem == blocks[i].start && H.Shrinks(View(), i, n)
      modifies this, next, prev, used
      ensures Linked() && View() == H.Shrunk(old(View()), i, n)
    {
      ghost var h := View();
      HeaderAt(i);
      hide Linked, H.Plugged, Split;
      usedMem := usedMem - (next[mem] - mem - H.HEADER - n);
      SplitBlock(mem, mem + H.HEADER + n, i);
      assert View() == H.Cut(h, i, n);
      PlugHoles(mem + H.HEADER + n, i + 1);
    }
  }
}

/** The boundary tag heap of memheap.c in place: headers by offset, and the circular free list through its own head. */
module MemHeapMemory {
  import opened Base
  import opened Lists
  import opened Tiling
  import H = MemHeap
  import R = Rings

  function AlignDown(size: nat): nat {
    size / 8 * 8
  }

  lemma TwoRing(next: seq<nat>, prev: seq<nat>, head: nat)
    requires 0 < head < |next| == |prev| && next[0] == prev[0] == head && next[head] == prev[head] == 0
    ensures R.Ring(next, prev, [head] + [0])
  {
    var c := [head] + [0];
    assert R.Joined(next, prev, c, 0) && R.Joined(next, prev, c, 1);
  }

  lemma OneBlock(next: seq<nat>, prev: seq<nat>, used: seq<bool>, end: nat)
    requires |next| > 0 && |used| > 0 && next[0] == end && !used[0] && end >= H.HEADER
    ensures var bs := [Block(0, false)];
            Forward(next, bs, end) && Backward(prev, bs) && Flagged(used, bs) && Tiled(bs, end, H.HEADER)
  {
    var bs := [Block(0, false)];
    assert Leads(next, bs, 0, end) && Roomy(bs, 0, end, H.HEADER);
  }

  class Pool {
    /** The offset of the tailer block; the free list header has the number behind it. */
    const end: nat
    const head: nat
    const next: array<nat>
    const prev: array<nat>
    const used: array<bool>
    const nextFree: array<nat>
    const prevFree: array<nat>
    var available: int
    ghost var blocks: seq<Block>
    ghost var free: seq<nat>

    /** The headers tell the blocks; the tailer counts as used and closes the circle of neighbours. */
    ghost predicate Linked()
      reads this`blocks, next, prev, used
    {
      && next != prev && next.Length == prev.Length == used.Length == end + 1
      && Tiled(blocks, end, H.HEADER)
      && Forward(next[..], blocks, end) && Backward(prev[..], blocks) && Flagged(used[..], blocks)
      && prev[0] == end && prev[end] == blocks[|blocks| - 1].start && used[end]
    }

    /** The free list runs through its head and the free blocks. */
    ghost predicate Ringed()
      reads this`free, nextFree, prevFree
    {
      && head == end + 1 && nextFree != prevFree && nextFree.Length == prevFree.Length == end + 2
      && (forall s <- free :: s <= end)
      && R.Ring(nextFree[..], prevFree[..], [head] + free)
    }

    /** Links of the block list and of the free list are different words. */
    ghost predicate Separate() {
      next != nextFree && next != prevFree && prev != nextFree && prev != prevFree
    }

    ghost function View(): H.Heap
      reads this
    {
      H.Heap(end, blocks, free, available)
    }

    ghost predicate Valid()
      reads this, next, prev, used, nextFree, prevFree
    {
      Linked() && Ringed() && Separate() && H.Inv(View())
    }

    /** rt_memheap_init of a pool of size bytes, rounded down to RT_ALIGN_SIZE. */
    constructor (size: nat)
      requires AlignDown(size) >= 2 * H.HEADER
      ensures Valid() && View() == H.Fresh(AlignDown(size) - H.HEADER)
    {
      hide AlignDown, H.Inv, R.Ring, Forward, Backward, Flagged, Tiled;
      var e := AlignDown(size) - H.HEADER;
      end, head := e, e + 1;
      next := new nat[e + 1];
      prev := new nat[e + 1];
      used := new bool[e + 1];
      nextFree := new nat[e + 2];
      prevFree := new nat[e + 2];
      available := e - H.HEADER;
      blocks, free := [Block(0, false)], [0];
      new;
      next[0], prev[0], used[0] := end, end, false;
      next[end], prev[end], used[end] := 0, 0, true;
      nextFree[head], prevFree[head] := 0, 0;
      nextFree[0], prevFree[0] := head, head;
      OneBlock(next[..], prev[..], used[..], end);
      TwoRing(nextFree[..], prevFree[..], head);
      H.FreshInv(end);
    }

    lemma HeaderAt(i: nat)
      requires Linked() && i < |blocks|
      ensures var s := blocks[i].start;
              && s < end && next[s] == Edge(blocks, i + 1, end) <= end && s < next[s] && used[s] == blocks[i].used
              && prev[s] == if i == 0 then end else blocks[i - 1].start
    {
      TiledStrict(blocks, end, H.HEADER);
      assert Leads(next[..], blocks, i, end);
    }

    method MarkBlock(s: nat, u: bool, ghost i: nat)
      requires Linked() && i < |blocks| && s == blocks[i].start
      modifies this`blocks, used
      ensures Linked() && blocks == Mark(old(blocks), i, u)
    {
      hide Strict, Forward, Backward, Flagged, Tiled, Mark;
      HeaderAt(i);
      TiledStrict(blocks, end, H.HEADER);
      MarkTiled(blocks, i, u, end, H.HEADER);
      MarkForward(next[..], blocks, i, u, end);
      MarkBackward(prev[..], blocks, i, u);
      MarkFlagged(used[..], blocks, i, u, end);
      used[s] := u;
      blocks := Mark(blocks, i, u);
    }

    /** The header at offset at is linked in behind block i at s. */
    method SplitBlock(s: nat, at: nat, ghost i: nat)
      requires Linked() && i < |blocks| && s == blocks[i].start
      requires s + H.HEADER <= at && at + H.HEADER <= Edge(blocks, i + 1, end)
      modifies this`blocks, next, prev, used
      ensures Linked() && blocks == Split(old(blocks), i, at) && i < |blocks| && blocks[i].start == s
    {
      hide Strict, Forward, Backward, Flagged, Tiled, Split;
      HeaderAt(i);
      TiledStrict(blocks, end, H.HEADER);
      SplitTiled(blocks, i, at, end, H.HEADER);
      SplitForward(next[..], blocks, i, at, end);
      SplitBackward(prev[..], blocks, i, at, end);
      SplitFlagged(used[..], blocks, i, at, end);
      used[at] := false;
      prev[at] := s;
      next[at] := next[s];
      prev[next[s]] := at;
      next[s] := at;
      blocks := Split(blocks, i, at);
    }

    /** Block i at s takes over the one behind it at n. */
    method Absorb(s: nat, n: nat, ghost i: nat)
      requires Linked() && i + 1 < |blocks| && s == blocks[i].start && n == blocks[i + 1].start
      modifies this`blocks, next, prev
      ensures Linked() && blocks == Merge(old(blocks), i)
    {
      hide Strict, Forward, Backward, Flagged, Tiled, Merge;
      HeaderAt(i);
      HeaderAt(i + 1);
      TiledStrict(blocks, end, H.HEADER);
      MergeTiled(blocks, i, end, H.HEADER);
      MergeForward(next[..], blocks, i, end);
      MergeBackward(prev[..], blocks, i, end);
      MergeFlagged(used[..], blocks, i);
      next[s] := next[n];
      prev[next[n]] := s;
      blocks := Merge(blocks, i);
    }

    /** The links of place k of the free list. */
    lemma Neighbours(k: nat)
      requires Ringed() && k < |free|
      ensures var (c, s) := ([head] + free, free[k]);
              && s <= end && nextFree[s] == R.Succ(c, k + 1) < end + 2 && prevFree[s] == c[k] < end + 2
              && s != c[k] && s != R.Succ(c, k + 1)
    {
      var c := [head] + free;
      assert free[k] in free;
      R.BothInRange(nextFree[..], prevFree[..], c, k + 1);
      R.BothInRange(nextFree[..], prevFree[..], c, k);
      assert R.Joined(nextFree[..], prevFree[..], c, k + 1) && R.Joined(nextFree[..], prevFree[..], c, k);
      R.Distinct2(c, k + 1);
    }

    /** The block is taken out of the free list. */
    method Unlink(s: nat)
      requires Ringed() && s in free
      modifies this`free, nextFree, prevFree
      ensures Ringed() && free == Without(old(free), s)
    {
      ghost var c := [head] + free;
      ghost var k :| 0 <= k < |free| && free[k] == s;
      R.RingCut(nextFree[..], prevFree[..], c, k + 1);
      CutOut(head, free, k);
      Neighbours(k);
      WithoutMembers(free, s);
      hide R.Ring, NoDup, Without;
      ghost var (l, r) := (c[k], R.Succ(c, k + 1));
      ghost var (p, q) := (nextFree[..][l := r], prevFree[..][r := l]);
      prevFree[nextFree[s]] := prevFree[s];
      nextFree[prevFree[s]] := nextFree[s];
      assert nextFree[..] == p && prevFree[..] == q;
      free := Without(free, s);
      R.RingElsewhere(p[s := s], q[s := s], p, q, [head] + free);
    }

    /** The links of a block off the free list are cleared. */
    method ClearLinks(s: nat)
      requires Ringed() && s <= end && s !in free
      modifies nextFree, prevFree
      ensures Ringed()
    {
      R.RingElsewhere(nextFree[..], prevFree[..], nextFree[..][s := 0], prevFree[..][s := 0], [head] + free);
      hide R.Ring;
      nextFree[s], prevFree[s] := 0, 0;
    }

    /** The block comes first in the free list. */
    method PushFront(n: nat)
      requires Ringed() && n <= end && n !in free
      modifies this`free, nextFree, prevFree
      ensures Ringed() && free == [n] + old(free)
    {
      ghost var c := [head] + free;
      R.RingPut(nextFree[..], prevFree[..], c, 1, n);
      R.BothInRange(nextFree[..], prevFree[..], c, 0);
      assert R.Joined(nextFree[..], prevFree[..], c, 0) && R.Succ(c, 0) in c;
      assert R.Put(c, 1, n) == [head] + ([n] + free);
      hide R.Ring;
      ghost var r := R.Succ(c, 0);
      ghost var (p, q) := (nextFree[..][head := n][n := r], prevFree[..][n := head][r := n]);
      nextFree[n] := nextFree[head];
      prevFree[n] := head;
      prevFree[nextFree[head]] := n;
      nextFree[head] := n;
      assert nextFree[..] == p && prevFree[..] == q;
      free := [n] + free;
    }

    /** The walk through the free list to the first block with n bytes. */
    method Search(n: nat) returns (s: Option<nat>)
      requires Valid() && n > 0
      ensures var k := H.Search(View(), n, 0);
              s == if k.None? then None else Some(free[k.value])
    {
      hide H.Inv, R.Ring, IndexOf, Linked;
      ghost var k := 0;
      HeadAt();
      var header := nextFree[head];
      var freeSize: int := 0;
      while header != head && freeSize < n
        invariant k <= |free| && header == (if k < |free| then free[k] else head)
        invariant H.Search(View(), n, 0) == H.Search(View(), n, k)
        invariant freeSize < n || (k < |free| && freeSize == H.Room(View(), header))
        decreases |free| - k, n - freeSize
      {
        RoomAt(k);
        freeSize := next[header] - header - H.HEADER;
        if freeSize < n {
          Neighbours(k);
          header := nextFree[header];
          k := k + 1;
        }
      }
      assert k < |free| ==> free[k] in free;
      s := if freeSize >= n then Some(header) else None;
    }

    lemma RoomAt(k: nat)
      requires Valid() && k < |free|
      ensures var s := free[k]; s <= end && s < next.Length && next[s] - s - H.HEADER == H.Room(View(), s)
    {
      H.ListedBlock(View(), free[k]);
      HeaderAt(IndexOf(blocks, free[k]));
    }

    lemma HeadAt()
      requires Ringed()
      ensures nextFree[head] == if free == [] then head else free[0]
    {
      R.HeadLinks(nextFree[..], prevFree[..], head, free);
    }

    /** rt_memheap_alloc; the offset of the header of the block. */
    method Alloc(size: u32) returns (s: Option<nat>)
      requires Valid()
      modifies this, next, prev, used, nextFree, prevFree
      ensures Valid() && (View(), s) == H.Alloc(old(View()), size)
    {
      H.AllocInv(View(), size);
      H.RequestAtLeast(size);
      var n := H.Request(size);
      if n >= available {
        return None;
      }
      s := Search(n);
      if s.Some? {
        H.ListedBlock(View(), s.value);
        TakeBlock(s.value, n, IndexOf(blocks, s.value));
      }
    }

    /** The block found is split or taken whole. */
    method TakeBlock(s: nat, n: nat, ghost i: nat)
      requires Valid() && i < |blocks| && s == blocks[i].start && !blocks[i].used && s in free
      requires H.After(View(), i) - s - H.HEADER >= n > 0
      modifies this, next, prev, used, nextFree, prevFree
      ensures Linked() && Ringed() && View() == H.Allocated(old(View()), i, n)
    {
      HeaderAt(i);
      if next[s] - s - H.HEADER >= n + H.HEADER + H.MINI {
        TakePart(s, n, i);
      } else {
        hide Linked, Ringed, Mark, Without;
        available := available - (next[s] - s - H.HEADER);
        Unlist(s);
        MarkBlock(s, true, i);
      }
    }

    method Unlist(s: nat)
      requires Ringed() && s in free
      modifies this`free, nextFree, prevFree
      ensures Ringed() && free == Without(old(free), s)
    {
      WithoutMembers(free, s);
      assert s <= end;
      hide Ringed, Without;
      Unlink(s);
      ClearLinks(s);
    }

    method TakePart(s: nat, n: nat, ghost i: nat)
      requires Linked() && Ringed() && Separate() && H.Inv(View()) && i < |blocks| && s == blocks[i].start && s in free
      requires H.Splits(View(), i, n)
      modifies this, next, prev, used, nextFree, prevFree
      ensures Linked() && Ringed() && View() == H.TakenInPart(old(View()), i, n)
    {
      hide H.Inv, Linked, Ringed, Split, Mark, Without;
      var at := s + n + H.HEADER;
      NotListed(View(), i, at);
      WithoutMembers(free, s);
      SplitBlock(s, at, i);
      Unlist(s);
      PushFront(at);
      available := available - n - H.HEADER;
      MarkBlock(s, true, i);
    }

    /** No free block starts inside another block. */
    lemma NotListed(h: H.Heap, i: nat, at: nat)
      requires H.Inv(h) && i < |h.blocks| && h.blocks[i].start < at < H.After(h, i)
      ensures at !in h.free && at <= h.end
    {
      TiledStrict(h.blocks, h.end, H.HEADER);
      forall s <- h.free ensures s != at {
        H.ListedBlock(h, s);
        var j := IndexOf(h.blocks, s);
        if i < j {
          Ascending(h.blocks, h.end, H.HEADER, i, j);
        } else if j < i {
          Ascending(h.blocks, h.end, H.HEADER, j, i);
        }
      }
    }

    /** rt_memheap_free of the block whose header is at s. */
    method Free(s: nat, ghost i: nat)
      requires Valid() && i < |blocks| && s == blocks[i].start && blocks[i].used
      modifies this, next, prev, used, nextFree, prevFree
      ensures Valid() && View() == H.Free(old(View()), i)
    {
      hide H.Inv, H.Near, Linked, Ringed, H.JoinedLeft, H.JoinedRight, H.Released, H.FreeAt, H.Free;
      ghost var h := View();
      H.FreeInv(h, i);
      H.ReleasedNear(h, i);
      Release(s, i);
      ghost var h1 := View();
      var header, insert := MergeLeft(s, i);
      ghost var h2 := View();
      ghost var j := if insert then i else i - 1;
      MergeRight(header, j, if insert then s else -1);
      ghost var h3 := View();
      FreeSteps(h, i, h1, h2, j, h3);
      if insert {
        PushFront(header);
      }
    }

    /** The block before, if it is free, takes the freed one over; then it is not to be listed again. */
    method MergeLeft(s: nat, ghost i: nat) returns (header: nat, insert: bool)
      requires Linked() && i < |blocks| && s == blocks[i].start && H.Near(View(), i, s)
      modifies this`blocks, this`available, next, prev
      ensures Linked() && insert == !H.FreeAt(old(View()), i - 1)
      ensures View() == if insert then old(View()) else H.JoinedLeft(old(View()), i)
      ensures var j := if insert then i else i - 1;
              0 <= j < |blocks| && header == blocks[j].start && H.Near(View(), j, if insert then s else -1)
      ensures insert ==> header == s
    {
      BeforeAt(i);
      if !used[prev[s]] {
        H.LeftNear(View(), i);
        hide Linked, H.JoinedLeft, H.Near;
        header, insert := prev[s], false;
        JoinLeft(header, s, i);
      } else {
        header, insert := s, true;
      }
    }

    /** The block behind, if it is free, is taken over and leaves the free list. */
    method MergeRight(s: nat, ghost j: nat, ghost but: int)
      requires Linked() && Ringed() && Separate() && j < |blocks| && s == blocks[j].start
      requires H.Near(View(), j, but) && (but == -1 || but == s)
      modifies this`blocks, this`available, this`free, next, prev, nextFree, prevFree
      ensures Linked() && Ringed() && View() == if H.FreeAt(old(View()), j + 1)
          then H.JoinedRight(old(View()), j) else old(View())
      ensures s <= end && forall x <- free :: x != but
    {
      AfterAt(j);
      H.NearListed(View(), j, but);
      if !used[next[s]] {
        H.RightNear(View(), j, but);
        hide Linked, Ringed, H.JoinedRight, H.Near;
        JoinRight(s, next[s], j);
        H.NearListed(View(), j, but);
      }
    }

    method Release(s: nat, ghost i: nat)
      requires Linked() && i < |blocks| && s == blocks[i].start
      modifies this`blocks, this`available, used
      ensures Linked() && View() == H.Released(old(View()), i) && i < |blocks| && s == blocks[i].start
    {
      HeaderAt(i);
      hide Linked, Mark;
      available := available + (next[s] - s) - H.HEADER;
      MarkBlock(s, false, i);
    }

    /** What the header of the neighbour before block i tells. */
    lemma BeforeAt(i: nat)
      requires Linked() && i < |blocks|
      ensures var s := blocks[i].start;
              && s <= end && s < prev.Length && prev[s] < used.Length && (!used[prev[s]] <==> H.FreeAt(View(), i - 1))
              && (H.FreeAt(View(), i - 1) ==> prev[s] == blocks[i - 1].start)
    {
      HeaderAt(i);
      if i > 0 {
        HeaderAt(i - 1);
      }
    }

    lemma AfterAt(i: nat)
      requires Linked() && i < |blocks|
      ensures var s := blocks[i].start;
              && s <= end && s < next.Length && next[s] < used.Length && (!used[next[s]] <==> H.FreeAt(View(), i + 1))
              && (H.FreeAt(View(), i + 1) ==> next[s] == blocks[i + 1].start)
    {
      HeaderAt(i);
      if i + 1 < |blocks| {
        HeaderAt(i + 1);
      }
    }

    method JoinLeft(p: nat, s: nat, ghost i: nat)
      requires Linked() && 0 < i < |blocks| && p == blocks[i - 1].start && s == blocks[i].start
      modifies this`blocks, this`available, next, prev
      ensures Linked() && View() == H.JoinedLeft(old(View()), i)
    {
      hide Linked, Merge;
      available := available + H.HEADER;
      Absorb(p, s, i - 1);
    }

    method JoinRight(s: nat, n: nat, ghost j: nat)
      requires Linked() && Ringed() && Separate() && j + 1 < |blocks| && s == blocks[j].start
          && n == blocks[j + 1].start && n in free
      modifies this`blocks, this`available, this`free, next, prev, nextFree, prevFree
      ensures Linked() && Ringed() && View() == H.JoinedRight(old(View()), j)
    {
      hide Linked, Ringed, Merge, Without;
      available := available + H.HEADER;
      Absorb(s, n, j);
      Unlink(n);
    }
  }

  /** rt_memheap_free step by step. */
  lemma FreeSteps(h: H.Heap, i: nat, h1: H.Heap, h2: H.Heap, j: nat, h3: H.Heap)
    requires i < |h.blocks| && h1 == H.Released(h, i)
    requires j == if H.FreeAt(h1, i - 1) then i - 1 else i
    requires h2 == if H.FreeAt(h1, i - 1) then H.JoinedLeft(h1, i) else h1
    requires h3 == if H.FreeAt(h2, j + 1) then H.JoinedRight(h2, j) else h2
    ensures H.Free(h, i) == if H.FreeAt(h1, i - 1) then h3 else h3.(free := [h.blocks[i].start] + h3.free)
  {
  }

  lemma CutOut(head: nat, free: seq<nat>, k: nat)
    requires NoDup([head] + free) && k < |free|
    ensures R.Cut([head] + free, k + 1) == [head] + Without(free, free[k])
  {
    CutCons(head, free, k);
    NoDupParts([head], free);
    WithoutAt(free, k);
  }

  lemma CutCons(head: nat, free: seq<nat>, k: nat)
    requires k < |free|
    ensures R.Cut([head] + free, k + 1) == [head] + (free[..k] + free[k + 1..])
  {
  }
}

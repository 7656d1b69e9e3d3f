/**
 * An area cut into blocks without gaps, each with a header at its start: the common ground of the
 * small heap of mem.c and the boundary tag heap of memheap.c.
 */
module Tiling {
  import opened Base

  /** A block reaches from its start to the start of the next one, the last to the end of the area. */
  datatype Block = Block(start: nat, used: bool)

  /** Where block i starts, or the end of the area. */
  function Edge(blocks: seq<Block>, i: nat, end: nat): nat {
    if i < |blocks| then blocks[i].start else end
  }

  /** The blocks cover the area from 0 on, each with room for a header of gap bytes. */
  ghost predicate Tiled(blocks: seq<Block>, end: nat, gap: nat) {
    && blocks != [] && blocks[0].start == 0
    && forall i :: 0 <= i < |blocks| ==> Roomy(blocks, i, end, gap)
  }

  ghost predicate Roomy(blocks: seq<Block>, i: nat, end: nat, gap: nat)
    requires i < |blocks|
  {
    blocks[i].start + gap <= Edge(blocks, i + 1, end)
  }

  /** No two neighbours are both free. */
  ghost predicate Coalesced(blocks: seq<Block>) {
    forall i :: 0 <= i < |blocks| - 1 ==> blocks[i].used || blocks[i + 1].used
  }

  /** Block i ends at a new free block that takes its place up to the next one. */
  function Split(blocks: seq<Block>, i: nat, at: nat): (r: seq<Block>)
    requires i < |blocks|
    ensures |r| == |blocks| + 1
    ensures forall j :: 0 <= j < |r| ==>
              r[j] == if j <= i then blocks[j] else if j == i + 1 then Block(at, false) else blocks[j - 1]
  {
    blocks[..i + 1] + [Block(at, false)] + blocks[i + 1..]
  }

  /** Block i swallows the one behind it. */
  function Merge(blocks: seq<Block>, i: nat): (r: seq<Block>)
    requires i + 1 < |blocks|
    ensures |r| == |blocks| - 1
    ensures forall j :: 0 <= j < |r| ==> r[j] == if j <= i then blocks[j] else blocks[j + 1]
  {
    blocks[..i + 1] + blocks[i + 2..]
  }

  function Mark(blocks: seq<Block>, i: nat, used: bool): (r: seq<Block>)
    requires i < |blocks|
    ensures |r| == |blocks|
    ensures forall j :: 0 <= j < |r| ==> r[j] == if j == i then Block(blocks[i].start, used) else blocks[j]
  {
    blocks[i := Block(blocks[i].start, used)]
  }

  lemma SplitTiled(blocks: seq<Block>, i: nat, at: nat, end: nat, gap: nat)
    requires Tiled(blocks, end, gap) && i < |blocks|
    requires blocks[i].start + gap <= at && at + gap <= Edge(blocks, i + 1, end)
    ensures Tiled(Split(blocks, i, at), end, gap)
  {
    var r := Split(blocks, i, at);
    forall j | 0 <= j < |r| ensures Roomy(r, j, end, gap) {
      if j > i {
        assert Roomy(blocks, j - 1, end, gap);
      } else {
        assert Roomy(blocks, j, end, gap);
      }
    }
  }

  lemma MergeTiled(blocks: seq<Block>, i: nat, end: nat, gap: nat)
    requires Tiled(blocks, end, gap) && i + 1 < |blocks|
    ensures Tiled(Merge(blocks, i), end, gap)
  {
    var r := Merge(blocks, i);
    forall j | 0 <= j < |r| ensures Roomy(r, j, end, gap) {
      var k := if j < i then j else j + 1;
      assert Roomy(blocks, k, end, gap);
      assert Roomy(blocks, i, end, gap);
    }
  }

  lemma MarkTiled(blocks: seq<Block>, i: nat, used: bool, end: nat, gap: nat)
    requires Tiled(blocks, end, gap) && i < |blocks|
    ensures Tiled(Mark(blocks, i, used), end, gap)
  {
    var r := Mark(blocks, i, used);
    forall j | 0 <= j < |r| ensures Roomy(r, j, end, gap) {
      assert Roomy(blocks, j, end, gap);
    }
  }

  /** A free block that is handed out, split or not, has used neighbours: nothing free touches what is left. */
  lemma TakenCoalesced(blocks: seq<Block>, i: nat, at: nat)
    requires Coalesced(blocks) && i < |blocks| && !blocks[i].used
    ensures Coalesced(Mark(blocks, i, true)) && Coalesced(Mark(Split(blocks, i, at), i, true))
  {
    assert i + 1 < |blocks| ==> blocks[i + 1].used;
    var r := Mark(Split(blocks, i, at), i, true);
    forall j | 0 <= j < |r| - 1 ensures r[j].used || r[j + 1].used {
      if j > i + 1 {
        assert r[j] == blocks[j - 1] && r[j + 1] == blocks[j];
      } else if j < i {
        assert r[j] == blocks[j];
      }
    }
  }

  /** Blocks further on start further on; so blocks do not overlap. */
  lemma {:induction false} Ascending(blocks: seq<Block>, end: nat, gap: nat, i: nat, j: nat)
    requires Tiled(blocks, end, gap) && i < j <= |blocks|
    ensures blocks[i].start + gap <= Edge(blocks, j, end)
    ensures Edge(blocks, i + 1, end) <= Edge(blocks, j, end)
    decreases j
  {
    assert Roomy(blocks, i, end, gap);
    if i + 1 < j {
      Ascending(blocks, end, gap, i, j - 1);
      assert Roomy(blocks, j - 1, end, gap);
    }
  }

  /** With headers that are not empty, a block is found by its start. */
  lemma SameStart(blocks: seq<Block>, end: nat, gap: nat, i: nat, j: nat)
    requires Tiled(blocks, end, gap) && gap > 0 && i < |blocks| && j <= |blocks|
    requires blocks[i].start == Edge(blocks, j, end)
    ensures i == j
  {
    if i < j {
      Ascending(blocks, end, gap, i, j);
    } else if j < i {
      Ascending(blocks, end, gap, j, i);
    }
  }

  /** The number of the block that starts there, or the number of blocks. */
  function IndexOf(blocks: seq<Block>, start: nat): (i: nat)
    ensures i <= |blocks|
    ensures i < |blocks| ==> blocks[i].start == start
    ensures forall j :: 0 <= j < i ==> blocks[j].start != start
  {
    if blocks == [] || blocks[0].start == start then 0 else 1 + IndexOf(blocks[1..], start)
  }

  lemma IndexOfStart(blocks: seq<Block>, end: nat, gap: nat, i: nat)
    requires Tiled(blocks, end, gap) && gap > 0 && i <= |blocks|
    ensures IndexOf(blocks, Edge(blocks, i, end)) == i
  {
    var k := IndexOf(blocks, Edge(blocks, i, end));
    if k < |blocks| {
      SameStart(blocks, end, gap, k, i);
    }
  }

  // ---- Sums ----

  /** What a block adds to the sum over the used or the free blocks, less cut bytes each. */
  function Share(len: int, used: bool, want: bool, cut: nat): int {
    if used == want then len - cut else 0
  }

  /** The sum over all blocks that are used, or that are free. */
  function Total(blocks: seq<Block>, end: nat, want: bool, cut: nat): int {
    if blocks == [] then 0
    else
      Share(Edge(blocks, 1, end) - blocks[0].start, blocks[0].used, want, cut) + Total(blocks[1..], end, want, cut)
  }

  lemma {:induction false} TotalJoin(a: seq<Block>, b: seq<Block>, end: nat, want: bool, cut: nat)
    ensures Total(a + b, end, want, cut) == Total(a, Edge(b, 0, end), want, cut) + Total(b, end, want, cut)
  {
    if a == [] {
      assert a + b == b;
    } else {
      TotalJoin(a[1..], b, end, want, cut);
      assert (a + b)[0] == a[0] && (a + b)[1..] == a[1..] + b;
      assert Edge(a + b, 1, end) == Edge(a, 1, Edge(b, 0, end));
    }
  }

  /** The sum around block i. */
  lemma TotalAround(blocks: seq<Block>, i: nat, end: nat, want: bool, cut: nat)
    requires i < |blocks|
    ensures Total(blocks, end, want, cut)
         == Total(blocks[..i], blocks[i].start, want, cut)
          + Share(Edge(blocks, i + 1, end) - blocks[i].start, blocks[i].used, want, cut)
          + Total(blocks[i + 1..], end, want, cut)
  {
    assert blocks == blocks[..i] + blocks[i..] && blocks[i..][1..] == blocks[i + 1..];
    TotalJoin(blocks[..i], blocks[i..], end, want, cut);
  }

  lemma SplitTotal(blocks: seq<Block>, i: nat, at: nat, end: nat, want: bool, cut: nat)
    requires i < |blocks|
    ensures Total(Split(blocks, i, at), end, want, cut)
         == Total(blocks, end, want, cut)
          - Share(Edge(blocks, i + 1, end) - blocks[i].start, blocks[i].used, want, cut)
          + Share(at - blocks[i].start, blocks[i].used, want, cut)
          + Share(Edge(blocks, i + 1, end) - at, false, want, cut)
  {
    var r := Split(blocks, i, at);
    TotalAround(blocks, i, end, want, cut);
    TotalAround(r, i, end, want, cut);
    assert r[..i] == blocks[..i] && r[i + 1..] == [Block(at, false)] + blocks[i + 1..];
    assert Edge(r[i + 1..], 1, end) == Edge(blocks, i + 1, end) && r[i + 1..][1..] == blocks[i + 1..];
  }

  lemma MergeTotal(blocks: seq<Block>, i: nat, end: nat, want: bool, cut: nat)
    requires i + 1 < |blocks|
    ensures Total(Merge(blocks, i), end, want, cut)
         == Total(blocks, end, want, cut)
          - Share(blocks[i + 1].start - blocks[i].start, blocks[i].used, want, cut)
          - Share(Edge(blocks, i + 2, end) - blocks[i + 1].start, blocks[i + 1].used, want, cut)
          + Share(Edge(blocks, i + 2, end) - blocks[i].start, blocks[i].used, want, cut)
  {
    var r := Merge(blocks, i);
    TotalAround(blocks, i, end, want, cut);
    TotalAround(r, i, end, want, cut);
    assert r[..i] == blocks[..i] && r[i + 1..] == blocks[i + 2..];
    assert blocks[i + 1..][1..] == blocks[i + 2..] && Edge(blocks[i + 1..], 1, end) == Edge(blocks, i + 2, end);
  }

  lemma MarkTotal(blocks: seq<Block>, i: nat, used: bool, end: nat, want: bool, cut: nat)
    requires i < |blocks|
    ensures Total(Mark(blocks, i, used), end, want, cut)
         == Total(blocks, end, want, cut)
          - Share(Edge(blocks, i + 1, end) - blocks[i].start, blocks[i].used, want, cut)
          + Share(Edge(blocks, i + 1, end) - blocks[i].start, used, want, cut)
  {
    var r := Mark(blocks, i, used);
    TotalAround(blocks, i, end, want, cut);
    TotalAround(r, i, end, want, cut);
    assert r[..i] == blocks[..i] && r[i + 1..] == blocks[i + 1..];
  }

  // ---- Headers ----

  /** Every block starts before the later ones and before the end. */
  ghost predicate Strict(blocks: seq<Block>, end: nat) {
    && (forall i :: 0 <= i < |blocks| ==> blocks[i].start < end)
    && (forall i, j :: 0 <= i < j < |blocks| ==> blocks[i].start < blocks[j].start)
  }

  lemma TiledStrict(blocks: seq<Block>, end: nat, gap: nat)
    requires Tiled(blocks, end, gap) && gap > 0
    ensures Strict(blocks, end)
  {
    forall i | 0 <= i < |blocks| ensures blocks[i].start < end {
      Ascending(blocks, end, gap, i, |blocks|);
    }
    forall i, j | 0 <= i < j < |blocks| ensures blocks[i].start < blocks[j].start {
      Ascending(blocks, end, gap, i, j);
    }
  }

  /** The header of each block holds the start of the next one, or the end. */
  ghost predicate Forward(next: seq<nat>, blocks: seq<Block>, end: nat) {
    forall i :: 0 <= i < |blocks| ==> Leads(next, blocks, i, end)
  }

  ghost predicate Leads(next: seq<nat>, blocks: seq<Block>, i: nat, end: nat)
    requires i < |blocks|
  {
    blocks[i].start < |next| && next[blocks[i].start] == Edge(blocks, i + 1, end)
  }

  /** The header of each block but the first holds the start of the one before. */
  ghost predicate Backward(prev: seq<nat>, blocks: seq<Block>) {
    forall i :: 1 <= i < |blocks| ==> blocks[i].start < |prev| && prev[blocks[i].start] == blocks[i - 1].start
  }

  ghost predicate Flagged(used: seq<bool>, blocks: seq<Block>) {
    forall i :: 0 <= i < |blocks| ==> blocks[i].start < |used| && used[blocks[i].start] == blocks[i].used
  }

  lemma SplitForward(next: seq<nat>, blocks: seq<Block>, i: nat, at: nat, end: nat)
    requires Forward(next, blocks, end) && Strict(blocks, end) && i < |blocks| && at < |next|
    requires blocks[i].start < at < Edge(blocks, i + 1, end)
    ensures Forward(next[at := Edge(blocks, i + 1, end)][blocks[i].start := at], Split(blocks, i, at), end)
  {
    assert Leads(next, blocks, i, end);
    var r := Split(blocks, i, at);
    var n := next[at := Edge(blocks, i + 1, end)][blocks[i].start := at];
    forall j | 0 <= j < |r| ensures Leads(n, r, j, end) {
      assert Leads(next, blocks, if j <= i then j else j - 1, end);
    }
  }

  lemma SplitBackward(prev: seq<nat>, blocks: seq<Block>, i: nat, at: nat, end: nat)
    requires Backward(prev, blocks) && Strict(blocks, end) && i < |blocks| && end < |prev|
    requires blocks[i].start < at < Edge(blocks, i + 1, end) <= end
    ensures Backward(prev[at := blocks[i].start][Edge(blocks, i + 1, end) := at], Split(blocks, i, at))
  {
    var r := Split(blocks, i, at);
    var p := prev[at := blocks[i].start][Edge(blocks, i + 1, end) := at];
    forall j | 1 <= j < |r| ensures r[j].start < |p| && p[r[j].start] == r[j - 1].start {
      if j <= i {
        assert blocks[j].start < |prev| && prev[blocks[j].start] == blocks[j - 1].start;
      } else if j > i + 2 {
        assert blocks[j - 1].start < |prev| && prev[blocks[j - 1].start] == blocks[j - 2].start;
      }
    }
  }

  lemma SplitFlagged(used: seq<bool>, blocks: seq<Block>, i: nat, at: nat, end: nat)
    requires Flagged(used, blocks) && Strict(blocks, end) && i < |blocks| && at < |used|
    requires blocks[i].start < at < Edge(blocks, i + 1, end)
    ensures Flagged(used[at := false], Split(blocks, i, at))
  {
    var r := Split(blocks, i, at);
    forall j | 0 <= j < |r| ensures r[j].start < |used| && used[at := false][r[j].start] == r[j].used {
      var k := if j <= i then j else j - 1;
      assert blocks[k].start < |used| && used[blocks[k].start] == blocks[k].used;
    }
  }

  lemma MergeForward(next: seq<nat>, blocks: seq<Block>, i: nat, end: nat)
    requires Forward(next, blocks, end) && Strict(blocks, end) && i + 1 < |blocks|
    ensures blocks[i].start < |next|
    ensures Forward(next[blocks[i].start := Edge(blocks, i + 2, end)], Merge(blocks, i), end)
  {
    assert Leads(next, blocks, i, end);
    var r := Merge(blocks, i);
    var n := next[blocks[i].start := Edge(blocks, i + 2, end)];
    forall j | 0 <= j < |r| ensures Leads(n, r, j, end) {
      assert Leads(next, blocks, if j <= i then j else j + 1, end);
    }
  }

  lemma MergeBackward(prev: seq<nat>, blocks: seq<Block>, i: nat, end: nat)
    requires Backward(prev, blocks) && Strict(blocks, end) && i + 1 < |blocks| && end < |prev|
    ensures Edge(blocks, i + 2, end) <= end
    ensures Backward(prev[Edge(blocks, i + 2, end) := blocks[i].start], Merge(blocks, i))
  {
    var r := Merge(blocks, i);
    var p := prev[Edge(blocks, i + 2, end) := blocks[i].start];
    forall j | 1 <= j < |r| ensures r[j].start < |p| && p[r[j].start] == r[j - 1].start {
      var k := if j <= i then j else j + 1;
      assert blocks[k].start < |prev| && prev[blocks[k].start] == blocks[k - 1].start;
    }
  }

  lemma MergeFlagged(used: seq<bool>, blocks: seq<Block>, i: nat)
    requires Flagged(used, blocks) && i + 1 < |blocks|
    ensures Flagged(used, Merge(blocks, i))
  {
  }

  lemma MarkForward(next: seq<nat>, blocks: seq<Block>, i: nat, u: bool, end: nat)
    requires Forward(next, blocks, end) && i < |blocks|
    ensures Forward(next, Mark(blocks, i, u), end)
  {
    var r := Mark(blocks, i, u);
    forall j | 0 <= j < |r| ensures Leads(next, r, j, end) {
      assert Leads(next, blocks, j, end);
    }
  }

  lemma MarkBackward(prev: seq<nat>, blocks: seq<Block>, i: nat, u: bool)
    requires Backward(prev, blocks) && i < |blocks|
    ensures Backward(prev, Mark(blocks, i, u))
  {
  }

  lemma MarkFlagged(used: seq<bool>, blocks: seq<Block>, i: nat, u: bool, end: nat)
    requires Flagged(used, blocks) && Strict(blocks, end) && i < |blocks|
    ensures blocks[i].start < |used| && Flagged(used[blocks[i].start := u], Mark(blocks, i, u))
  {
  }

  /** The link that leads back from the end belongs to no block. */
  lemma EndBackward(prev: seq<nat>, blocks: seq<Block>, end: nat, v: nat)
    requires Backward(prev, blocks) && Strict(blocks, end) && end < |prev|
    ensures Backward(prev[end := v], blocks)
  {
  }
}

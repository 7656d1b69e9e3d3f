/** The heap of finsh_heap.c in place: a length and a link in each header, and the heads of the two lists. */
module FinshHeapMemory {
  import opened Base
  import opened Chains
  import opened Lists
  import opened Tiling
  import F = FinshHeap

  // ---- The lists of starts ----

  lemma {:induction false} StartsJoin(a: seq<Block>, b: seq<Block>, u: bool)
    ensures F.Starts(a + b, u) == F.Starts(a, u) + F.Starts(b, u)
  {
    if a == [] {
      assert a + b == b;
    } else {
      StartsJoin(a[1..], b, u);
      assert (a + b)[0] == a[0] && (a + b)[1..] == a[1..] + b;
      var first := if a[0].used == u then [a[0].start] else [];
      assert first + (F.Starts(a[1..], u) + F.Starts(b, u)) == (first + F.Starts(a[1..], u)) + F.Starts(b, u);
    }
  }

  lemma StartsCons(b: Block, rest: seq<Block>, u: bool)
    ensures F.Starts([b] + rest, u) == (if b.used == u then [b.start] else []) + F.Starts(rest, u)
  {
    assert ([b] + rest)[1..] == rest;
  }

  /** The list around block i. */
  lemma StartsAround(blocks: seq<Block>, i: nat, u: bool)
    requires i < |blocks|
    ensures F.Starts(blocks, u)
         == F.Starts(blocks[..i], u) + (if blocks[i].used == u then [blocks[i].start] else [])
             + F.Starts(blocks[i + 1..], u)
  {
    assert blocks == blocks[..i] + blocks[i..] && blocks[i..][0] == blocks[i] && blocks[i..][1..] == blocks[i + 1..];
    StartsJoin(blocks[..i], blocks[i..], u);
  }

  /** The length field of block i is the distance to the next block less the header. */
  ghost predicate Measures(length: seq<int>, blocks: seq<Block>, i: nat, max: nat)
    requires i < |blocks|
  {
    blocks[i].start < |length| && length[blocks[i].start] == Edge(blocks, i + 1, max) - blocks[i].start - F.HEADER
  }

  ghost predicate Measured(length: seq<int>, blocks: seq<Block>, max: nat) {
    forall i :: 0 <= i < |blocks| ==> Measures(length, blocks, i, max)
  }

  lemma MeasuredSplit(length: seq<int>, blocks: seq<Block>, i: nat, at: nat, max: nat)
    requires Measured(length, blocks, max) && Strict(blocks, max) && i < |blocks| && at < |length|
    requires blocks[i].start < at < Edge(blocks, i + 1, max)
    ensures blocks[i].start < |length|
    ensures Measured(length[at := Edge(blocks, i + 1, max) - at - F.HEADER]
        [blocks[i].start := at - blocks[i].start - F.HEADER],
                     Split(blocks, i, at), max)
  {
    assert Measures(length, blocks, i, max);
    var (s, r) := (blocks[i].start, Split(blocks, i, at));
    var l := length[at := Edge(blocks, i + 1, max) - at - F.HEADER][s := at - s - F.HEADER];
    forall j | 0 <= j < |r| ensures Measures(l, r, j, max) {
      assert Measures(length, blocks, if j <= i then j else j - 1, max);
    }
  }

  lemma MeasuredMerge(length: seq<int>, blocks: seq<Block>, i: nat, max: nat)
    requires Measured(length, blocks, max) && Strict(blocks, max) && i + 1 < |blocks|
    ensures blocks[i].start < |length| && blocks[i + 1].start < |length|
    ensures Measured(length[blocks[i].start := length[blocks[i].start] + length[blocks[i + 1].start] + F.HEADER],
                     Merge(blocks, i), max)
  {
    assert Measures(length, blocks, i, max) && Measures(length, blocks, i + 1, max);
    var r := Merge(blocks, i);
    var l := length[blocks[i].start := length[blocks[i].start] + length[blocks[i + 1].start] + F.HEADER];
    forall j | 0 <= j < |r| ensures Measures(l, r, j, max) {
      assert Measures(length, blocks, if j <= i then j else j + 1, max);
    }
  }

  lemma MeasuredMark(length: seq<int>, blocks: seq<Block>, i: nat, u: bool, max: nat)
    requires Measured(length, blocks, max) && i < |blocks|
    ensures Measured(length, Mark(blocks, i, u), max)
  {
    var r := Mark(blocks, i, u);
    forall j | 0 <= j < |r| ensures Measures(length, r, j, max) {
      assert Measures(length, blocks, j, max);
    }
  }

  // ---- How the lists change with the blocks ----

  /** Free and allocated blocks before and behind block i. */
  ghost function Pre(blocks: seq<Block>, i: nat, u: bool): seq<nat>
    requires i <= |blocks|
  {
    F.Starts(blocks[..i], u)
  }

  ghost function Post(blocks: seq<Block>, i: nat, u: bool): seq<nat>
    requires i < |blocks|
  {
    F.Starts(blocks[i + 1..], u)
  }

  lemma SplitSlices(blocks: seq<Block>, i: nat, at: nat)
    requires i < |blocks|
    ensures var r := Split(blocks, i, at);
            |r| == |blocks| + 1 && r[..i] == blocks[..i] && r[i] == blocks[i]
            && r[i + 1..] == [Block(at, false)] + blocks[i + 1..]
  {
  }

  lemma SplitStarts(blocks: seq<Block>, i: nat, at: nat)
    requires i < |blocks| && !blocks[i].used
    ensures var r := Split(blocks, i, at);
            && F.Starts(r, false) == Pre(blocks, i, false) + [blocks[i].start] + ([at] + Post(blocks, i, false))
            && F.Starts(r, true) == F.Starts(blocks, true)
  {
    hide F.Starts, Split;
    var r := Split(blocks, i, at);
    SplitSlices(blocks, i, at);
    StartsAround(r, i, false);
    StartsAround(r, i, true);
    StartsAround(blocks, i, true);
    StartsCons(Block(at, false), blocks[i + 1..], true);
    StartsCons(Block(at, false), blocks[i + 1..], false);
  }

  lemma MarkStarts(blocks: seq<Block>, i: nat, u: bool)
    requires i < |blocks| && blocks[i].used != u
    ensures F.Starts(Mark(blocks, i, u), u) == Pre(blocks, i, u) + [blocks[i].start] + Post(blocks, i, u)
    ensures F.Starts(Mark(blocks, i, u), !u) == Pre(blocks, i, !u) + Post(blocks, i, !u)
    ensures F.Starts(blocks, u) == Pre(blocks, i, u) + Post(blocks, i, u)
    ensures F.Starts(blocks, !u) == Pre(blocks, i, !u) + [blocks[i].start] + Post(blocks, i, !u)
  {
    var r := Mark(blocks, i, u);
    assert r[..i] == blocks[..i] && r[i + 1..] == blocks[i + 1..];
    StartsAround(r, i, true);
    StartsAround(r, i, false);
    StartsAround(blocks, i, true);
    StartsAround(blocks, i, false);
  }

  lemma MergeStarts(blocks: seq<Block>, i: nat)
    requires i + 1 < |blocks| && !blocks[i].used && !blocks[i + 1].used
    ensures F.Starts(Merge(blocks, i), true) == F.Starts(blocks, true)
    ensures F.Starts(blocks, false)
         == Pre(blocks, i, false) + [blocks[i].start] + ([blocks[i + 1].start] + Post(blocks, i + 1, false))
    ensures F.Starts(Merge(blocks, i), false) == Pre(blocks, i, false) + [blocks[i].start] + Post(blocks, i + 1, false)
  {
    hide F.Starts;
    var r := Merge(blocks, i);
    assert r[..i] == blocks[..i] && r[i] == blocks[i] && r[i + 1..] == blocks[i + 2..];
    assert blocks[i + 1..] == [blocks[i + 1]] + blocks[i + 2..];
    StartsAround(r, i, true);
    StartsAround(r, i, false);
    StartsAround(blocks, i, true);
    StartsAround(blocks, i, false);
    StartsCons(blocks[i + 1], blocks[i + 2..], true);
    StartsCons(blocks[i + 1], blocks[i + 2..], false);
    hide Merge;
  }

  /** The two lists are sorted, without repetition, inside the arena, and share no block. */
  lemma StartsApart(blocks: seq<Block>, max: nat)
    requires Strict(blocks, max)
    ensures F.Ascends(F.Starts(blocks, true)) && NoDup(F.Starts(blocks, true))
    ensures F.Ascends(F.Starts(blocks, false)) && NoDup(F.Starts(blocks, false))
    ensures forall x <- F.Starts(blocks, true) :: x < max && x !in F.Starts(blocks, false)
    ensures forall x <- F.Starts(blocks, false) :: x < max
  {
    F.StartsSorted(blocks, true, max);
    F.StartsSorted(blocks, false, max);
    AscendsNoDup(F.Starts(blocks, true));
    AscendsNoDup(F.Starts(blocks, false));
    forall x <- F.Starts(blocks, true) ensures x < max && x !in F.Starts(blocks, false) {
      assert Block(x, true) in blocks;
      assert Block(x, false) !in blocks;
    }
    forall x <- F.Starts(blocks, false) ensures x < max {
      assert Block(x, false) in blocks;
    }
  }

  /** In a sorted list what is before a block is smaller, what is behind it larger. */
  lemma SortedAround(a: seq<nat>, n: nat, b: seq<nat>)
    requires F.Ascends(a + [n] + b)
    ensures (forall x <- a :: x < n) && (forall x <- b :: n < x)
  {
    var c := a + [n] + b;
    forall x <- a ensures x < n {
      var i :| 0 <= i < |a| && a[i] == x;
      assert c[i] == x && c[|a|] == n;
    }
    forall x <- b ensures n < x {
      var i :| 0 <= i < |b| && b[i] == x;
      assert c[|a|] == n && c[|a| + 1 + i] == x;
    }
  }

  lemma AscendsNoDup(xs: seq<nat>)
    requires F.Ascends(xs)
    ensures NoDup(xs)
  {
  }

  /** A finsh variable: whether its type is known, and its value as an offset into the arena. */
  datatype Variable = Variable(known: bool, ptr: int)

  /** The headers of the blocks whose data some variable points to. */
  function Pinned(vars: seq<Variable>): set<nat> {
    set v <- vars | v.known && v.ptr >= F.HEADER :: v.ptr - F.HEADER
  }

  class Memory {
    const max: nat
    const length: array<int>
    const next: array<int>
    var freeList: int
    var allocateList: int
    ghost var blocks: seq<Block>

    ghost function View(): F.Heap
      reads this`blocks
    {
      F.Heap(max, blocks)
    }

    /** Lengths and lists are those of the blocks. */
    ghost predicate Linked()
      reads this, length, next
    {
      && length != next && length.Length == max && Tiled(blocks, max, F.HEADER) && Measured(length[..], blocks, max)
      && IsList(true, F.Starts(blocks, true)) && IsList(false, F.Starts(blocks, false))
    }

    ghost predicate Valid()
      reads this, length, next
    {
      Linked() && F.Inv(View())
    }

    function Head(inUse: bool): int
      reads this`freeList, this`allocateList
    {
      if inUse then allocateList else freeList
    }

    /** A list runs through the nodes of xs and ends. */
    ghost predicate IsList(inUse: bool, xs: seq<nat>)
      reads this`freeList, this`allocateList, next
    {
      next.Length == max && Chained(next[..], xs, NULL) && Head(inUse) == At(xs, 0, NULL)
    }

    /** Of all links only those of header and of the node before it may have changed. */
    twostate predicate OthersSame(a: seq<nat>, header: nat)
      reads next
    {
      next.Length == max &&
      forall x :: 0 <= x < max && x != header && (a == [] || x != a[|a| - 1]) ==> next[x] == old(next[x])
    }

    method SetHead(inUse: bool, v: int)
      modifies this`freeList, this`allocateList
      ensures Head(inUse) == v && Head(!inUse) == old(Head(!inUse))
    {
      if inUse {
        allocateList := v;
      } else {
        freeList := v;
      }
    }

    /** finsh_block_remove. */
    method Remove(inUse: bool, header: nat, ghost a: seq<nat>, ghost b: seq<nat>)
      requires IsList(inUse, a + [header] + b) && NoDup(a + [header] + b) && header < max
      modifies this`freeList, this`allocateList, next
      ensures IsList(inUse, a + b) && Head(!inUse) == old(Head(!inUse))
      ensures OthersSame(a, header) && next[header] == if a == [] then NULL else old(next[header])
    {
      hide NoDup, Chained;
      ListAround(next[..], a, header, b);
      if Head(inUse) == header {
        FirstOnly(a, header, b);
        ChainedElsewhere(next[..], b, header, NULL, NULL);
        SetHead(inUse, next[header]);
        next[header] := NULL;
        return;
      }
      var node := Head(inUse);
      ghost var (j, links) := (0, next[..]);
      FirstOnly(a, header, b);
      while next[node] != header
        invariant 0 <= j < |a| && node == a[j] && node < max && next[..] == links
        decreases |a| - j
        modifies {}
      {
        LinkIn(next[..], a, header, b, j);
        node := next[node];
        j := j + 1;
      }
      LinkIn(next[..], a, header, b, j);
      ChainedSplice(next[..], a, header, b);
      next[node] := next[header];
    }

    /** finsh_block_insert; a block that comes last must have a clear link already. */
    method Insert(inUse: bool, header: nat, ghost a: seq<nat>, ghost b: seq<nat>)
      requires IsList(inUse, a + b) && NoDup(a + [header] + b) && header < max
      requires (forall x <- a :: x < header) && (forall x <- b :: header < x)
      requires b == [] ==> next[header] == NULL
      modifies this`freeList, this`allocateList, next
      ensures IsList(inUse, a + [header] + b) && Head(!inUse) == old(Head(!inUse))
      ensures OthersSame(a, header)
    {
      hide NoDup, Chained;
      var node := Head(inUse);
      ListsApart(next[..], a, header, b);
      if node == NULL {
        assert a + b == [] && a + [header] + b == [header];
        Alone(next[..], header);
        SetHead(inUse, header);
        return;
      }
      if node > header {
        FirstAbove(a, header, b);
        ChainedPush(next[..], b, header, NULL);
        assert a + [header] + b == [header] + b;
        next[header] := node;
        SetHead(inUse, header);
        return;
      }
      FirstBelow(a, header, b);
      ghost var (j, links) := (0, next[..]);
      while next[node] != NULL && next[node] <= header
        invariant 0 <= j < |a| && node == a[j] && node < max && next[..] == links
        decreases |a| - j
        modifies {}
      {
        LinkBetween(next[..], a, header, b, j);
        node := next[node];
        j := j + 1;
      }
      LinkBetween(next[..], a, header, b, j);
      InsertAfterLast(node, header, a, b);
    }

    /** The new block is linked in behind the last one before it. */
    method InsertAfterLast(node: nat, header: nat, ghost a: seq<nat>, ghost b: seq<nat>)
      requires a != [] && node == a[|a| - 1] < max && header < max && next.Length == max && NoDup(a)
          && header !in a && header !in b
      requires Chained(next[..], a, At(b, 0, NULL)) && Chained(next[..], b, NULL) && node !in b
      requires next[node] == At(b, 0, NULL) && (b == [] ==> next[header] == NULL)
      modifies next
      ensures Chained(next[..], a + [header] + b, NULL) && OthersSame(a, header)
    {
      hide NoDup, Chained;
      if next[node] != NULL {
        ChainedElsewhere(next[..], a, header, next[node], next[node]);
        ChainedPush(next[..], b, header, NULL);
        next[header] := next[node];
      } else {
        Alone(next[..], header);
        assert [header] + b == [header];
      }
      assert a + [header] + b == a + ([header] + b) && At([header] + b, 0, NULL) == header;
      ChainedSplice(next[..], a, At(b, 0, NULL), [header] + b);
      next[node] := header;
    }

    /** finsh_block_split: the rest of the block becomes a free one behind it. */
    method SplitHeader(header: nat, n: nat, ghost i: nat)
      requires Linked() && i < |blocks| && header == blocks[i].start && !blocks[i].used
      requires header + F.HEADER + n + F.HEADER <= Edge(blocks, i + 1, max)
      modifies this`blocks, length, next
      ensures Linked() && blocks == Split(old(blocks), i, header + F.HEADER + n)
    {
      hide Chained, NoDup, Tiled, Measured, F.Starts, Split, Strict;
      ghost var at := header + F.HEADER + n;
      TiledStrict(blocks, max, F.HEADER);
      BlockAt(i);
      SplitTiled(blocks, i, at, max, F.HEADER);
      MeasuredSplit(length[..], blocks, i, at, max);
      SplitLists(i, at);
      var rest := header + F.HEADER + n;
      ghost var l := length[..][at := Edge(blocks, i + 1, max) - at - F.HEADER][header := at - header - F.HEADER];
      ghost var links := next[..][at := next[header]][header := at];
      length[rest] := length[header] - F.HEADER - n;
      length[header] := n;
      next[rest] := next[header];
      next[header] := rest;
      assert length[..] == l && next[..] == links;
      blocks := Split(blocks, i, at);
    }

    /**
     * A block changes lists: out of the one, into the other. Handed out, its link is cleared in
     * between; freed, it is not, which is harmless because a free block is always behind it.
     */
    method Move(header: nat, inUse: bool, ghost i: nat)
      requires Linked() && i < |blocks| && header == blocks[i].start && blocks[i].used != inUse
      requires !inUse ==> Post(blocks, i, false) != []
      modifies this`blocks, this`freeList, this`allocateList, next
      ensures Linked() && blocks == Mark(old(blocks), i, inUse)
    {
      hide Chained, NoDup, Tiled, Measured, F.Starts, Strict, Mark, Pre, Post;
      TiledStrict(blocks, max, F.HEADER);
      BlockAt(i);
      MarkTiled(blocks, i, inUse, max, F.HEADER);
      MeasuredMark(length[..], blocks, i, inUse, max);
      ghost var r := Mark(blocks, i, inUse);
      MarkStarts(blocks, i, inUse);
      MarkStrict(blocks, i, inUse, max);
      StartsApart(blocks, max);
      StartsApart(r, max);
      ghost var (a, b) := (Pre(blocks, i, !inUse), Post(blocks, i, !inUse));
      ghost var (c, d) := (Pre(blocks, i, inUse), Post(blocks, i, inUse));
      SortedAround(c, header, d);
      MoveApart(a, header, b, c, d);
      ghost var links := next[..];
      Remove(!inUse, header, a, b);
      ChainedSame(links, next[..], c + d, NULL);
      if inUse {
        ghost var after := next[..];
        next[header] := NULL;
        ChainedSame(after, next[..], a + b, NULL);
        ChainedSame(after, next[..], c + d, NULL);
      }
      links := next[..];
      Insert(inUse, header, c, d);
      ChainedSame(links, next[..], a + b, NULL);
      blocks := r;
    }

    /** The block before header in the free list. */
    method FindPrev(header: nat, ghost a: seq<nat>, ghost b: seq<nat>) returns (node: int)
      requires IsList(false, a + [header] + b) && NoDup(a + [header] + b) && header < max
      ensures node == if a == [] then NULL else a[|a| - 1]
    {
      hide Chained, NoDup;
      ListAround(next[..], a, header, b);
      FirstOnly(a, header, b);
      if freeList == header {
        return NULL;
      }
      node := freeList;
      ghost var (j, links) := (0, next[..]);
      while next[node] != header
        invariant 0 <= j < |a| && node == a[j] && node < max && next[..] == links
        decreases |a| - j
      {
        LinkIn(next[..], a, header, b, j);
        node := next[node];
        j := j + 1;
      }
      LinkIn(next[..], a, header, b, j);
    }

    /** finsh_block_merge of block i with the free blocks it touches. */
    method MergeBlock(header: nat, ghost i: nat)
      requires Linked() && i < |blocks| && header == blocks[i].start && !blocks[i].used
      modifies this`blocks, length, next
      ensures Linked() && View() == F.MergedLeft(F.MergedRight(old(View()), i), i)
    {
      hide Chained, NoDup, Tiled, Measured, F.Starts, Strict;
      TiledStrict(blocks, max, F.HEADER);
      BlockAt(i);
      StartsAround(blocks, i, false);
      StartsApart(blocks, max);
      ghost var (a, b) := (Pre(blocks, i, false), Post(blocks, i, false));
      ListAround(next[..], a, header, b);
      var nextNode := next[header];
      var prevNode := FindPrev(header, a, b);
      NextTouches(blocks, i, max);
      var right := nextNode != NULL && header + length[header] + F.HEADER == nextNode;
      PrevTouches(i);
      if prevNode != NULL && prevNode + length[prevNode] + F.HEADER == header {
        if right {
          MergeThree(prevNode, header, nextNode, i);
        } else {
          MergePair(prevNode, header, i - 1);
        }
      } else if right {
        MergePair(header, nextNode, i);
      }
    }

    /** Two free neighbours become one: the first takes over length and link of the second. */
    method MergePair(s: nat, r: nat, ghost i: nat)
      requires Linked() && i + 1 < |blocks| && s == blocks[i].start && r == blocks[i + 1].start
      requires !blocks[i].used && !blocks[i + 1].used
      modifies this`blocks, length, next
      ensures Linked() && blocks == Merge(old(blocks), i)
    {
      hide Chained, NoDup, Tiled, Measured, F.Starts, Strict, Merge;
      TiledStrict(blocks, max, F.HEADER);
      BlockAt(i);
      BlockAt(i + 1);
      MergeTiled(blocks, i, max, F.HEADER);
      MeasuredMerge(length[..], blocks, i, max);
      MergeLists(next[..], blocks, i, max);
      length[s] := length[s] + (length[r] + F.HEADER);
      next[s] := next[r];
      blocks := Merge(blocks, i);
    }

    /** Three free neighbours become one. */
    method MergeThree(p: nat, s: nat, r: nat, ghost i: nat)
      requires Linked() && 0 < i && i + 1 < |blocks|
      requires p == blocks[i - 1].start && s == blocks[i].start && r == blocks[i + 1].start
      requires !blocks[i - 1].used && !blocks[i].used && !blocks[i + 1].used
      modifies this`blocks, length, next
      ensures Linked() && blocks == Merge(Merge(old(blocks), i), i - 1)
    {
      hide Chained, NoDup, Tiled, Measured, F.Starts, Strict, Merge;
      TiledStrict(blocks, max, F.HEADER);
      BlockAt(i - 1);
      BlockAt(i);
      BlockAt(i + 1);
      Merged(blocks, i);
      ghost var bs := Merge(blocks, i);
      MergeTiled(blocks, i, max, F.HEADER);
      TiledStrict(bs, max, F.HEADER);
      MergeTiled(bs, i - 1, max, F.HEADER);
      MeasuredMerge(length[..], blocks, i, max);
      MergeLists(next[..], blocks, i, max);
      ghost var (l, n) := (length[..][s := length[s] + length[r] + F.HEADER], next[..][s := next[r]]);
      MeasuredMerge(l, bs, i - 1, max);
      MergeLists(n, bs, i - 1, max);
      ghost var (l2, n2) := (l[p := l[p] + l[s] + F.HEADER], n[p := n[s]]);
      GoneAfter(blocks, i, max);
      ghost var us := Merge(bs, i - 1);
      MeasuredElsewhere(l2, us, s, length[s], max);
      ChainedElsewhere(n2, F.Starts(us, true), s, next[s], NULL);
      ChainedElsewhere(n2, F.Starts(us, false), s, next[s], NULL);
      ghost var (l3, n3) := (l2[s := length[s]], n2[s := next[s]]);
      length[p] := length[p] + (length[s] + length[r] + 2 * F.HEADER);
      next[p] := next[r];
      assert length[..] == l3 && next[..] == n3;
      blocks := us;
    }

    /** The free block before block i touches it exactly if it is the one right before it. */
    lemma PrevTouches(i: nat)
      requires Linked() && i < |blocks|
      ensures var a := Pre(blocks, i, false);
              var left := i > 0 && !blocks[i - 1].used;
              if a == [] then !left
              else
                var p := a[|a| - 1];
                && p < max && (p + length[p] + F.HEADER == blocks[i].start <==> left)
                && (left ==> p == blocks[i - 1].start)
    {
      TiledStrict(blocks, max, F.HEADER);
      var a := Pre(blocks, i, false);
      if i > 0 && !blocks[i - 1].used {
        assert blocks[..i] == blocks[..i - 1] + [blocks[i - 1]];
        StartsJoin(blocks[..i - 1], [blocks[i - 1]], false);
        BlockAt(i - 1);
      } else if a != [] {
        HeadStrict(blocks, i, max);
        F.StartsSorted(blocks[..i], false, max);
        var p := a[|a| - 1];
        assert p in a && Block(p, false) in blocks[..i];
        var k :| 0 <= k < i && blocks[k] == Block(p, false);
        BlockAt(k);
      }
    }

    /** finsh_heap_free of the block whose header is at offset header. */
    method Free(header: nat, ghost i: nat)
      requires Valid() && i < |blocks| && header == blocks[i].start && blocks[i].used
      modifies this`blocks, this`freeList, this`allocateList, length, next
      ensures Valid() && View() == F.Freed(old(View()), i)
    {
      F.FreedInv(View(), i);
      TopFree(View(), i);
      hide F.Inv, Linked;
      ghost var h := View();
      Move(header, false, i);
      assert View() == h.(blocks := Mark(h.blocks, i, false));
      hide Mark;
      MergeBlock(header, i);
    }

    /** The loop over the variables: whether one of them points to the data of the block. */
    method IsPinned(header: nat, vars: seq<Variable>) returns (pinned: bool)
      ensures pinned <==> header in Pinned(vars)
    {
      var i := 0;
      while i < |vars|
        invariant i <= |vars| && forall v <- vars[..i] :: !(v.known && v.ptr == header + F.HEADER)
      {
        if vars[i].known && vars[i].ptr == header + F.HEADER {
          assert vars[i] in vars;
          return true;
        }
        i := i + 1;
      }
      assert vars[..i] == vars;
      pinned := false;
    }

    /** finsh_heap_gc. */
    method Gc(vars: seq<Variable>)
      requires Valid()
      modifies this`blocks, this`freeList, this`allocateList, length, next
      ensures Valid() && View() == F.Gc(old(View()), Pinned(vars))
    {
      hide F.Inv, F.Starts, Chained, Tiled, Measured, F.Freed;
      ghost var h := View();
      ghost var kept: seq<nat> := [];
      ghost var rest := F.Starts(blocks, true);
      var header := allocateList;
      assert kept + rest == rest;
      while header != NULL
        invariant Valid() && header == At(rest, 0, NULL) && F.Starts(blocks, true) == kept + rest
        invariant F.Collected(View(), rest, Pinned(vars)) == F.Gc(h, Pinned(vars))
        decreases |rest|
      {
        var pinned := IsPinned(header, vars);
        ghost var i := ListedAt(View(), kept, rest);
        ChainedAt(next[..], kept + rest, |kept|, NULL);
        var temp: nat := header;
        header := next[header];
        assert kept + rest == kept + [temp] + rest[1..] && At(kept + rest, |kept| + 1, NULL) == At(rest[1..], 0, NULL);
        if !pinned {
          FreedStarts(View(), i);
          SameCut(kept, temp, rest[1..], Pre(blocks, i, true), Post(blocks, i, true));
          Free(temp, i);
          rest := rest[1..];
        } else {
          kept, rest := kept + [temp], rest[1..];
        }
      }
    }

    /** finsh_heap_init. */
    constructor (size: nat)
      requires size >= F.HEADER
      ensures Valid() && View() == F.Fresh(size) && fresh(length) && fresh(next)
    {
      max := size;
      length := new int[size](_ => 0);
      next := new int[size](_ => 0);
      freeList, allocateList, blocks := 0, NULL, [Block(0, false)];
      new;
      length[0] := size - F.HEADER;
      next[0] := NULL;
      assert Measures(length[..], blocks, 0, max) && Roomy(blocks, 0, max, F.HEADER);
      Alone(next[..], 0);
      NothingChained(next[..], NULL);
      assert F.Starts(blocks, false) == [0] && F.Starts(blocks, true) == [];
    }

    /** The walk through the free list to the first suitable block. */
    method Search(n: nat, strict: bool) returns (header: int, ghost i: nat)
      requires Linked() && F.InWord(n)
      ensures match F.FirstFit(View(), n, strict, 0)
              case Some(k) => i == k && header == blocks[k].start
              case None => header == NULL
    {
      hide Chained, Tiled, Measured, F.Starts, Strict, F.FirstFit;
      header := freeList;
      i := 0;
      assert blocks[0..] == blocks;
      while header != NULL
        invariant i <= |blocks| && header == At(F.Starts(blocks[i..], false), 0, NULL)
        invariant F.FirstFit(View(), n, strict, 0) == F.FirstFit(View(), n, strict, i)
        decreases |blocks| - i
      {
        ghost var q := HeadOf(View(), i, n, strict);
        BlockAt(q);
        LinkOf(q);
        FitStep(View(), n, strict, q);
        var room := Wrap(n + F.HEADER);
        if (if strict then length[header] > room else length[header] >= room) {
          i := q;
          return;
        }
        header := next[header];
        i := q + 1;
      }
      NoneLeft(View(), i, n, strict);
    }

    /** A free block leads to the next one of the list. */
    lemma LinkOf(q: nat)
      requires Linked() && q < |blocks| && !blocks[q].used
      ensures blocks[q].start < max && next[blocks[q].start] == At(Post(blocks, q, false), 0, NULL)
    {
      TiledStrict(blocks, max, F.HEADER);
      StartsApart(blocks, max);
      StartsAround(blocks, q, false);
      ListAround(next[..], Pre(blocks, q, false), blocks[q].start, Post(blocks, q, false));
    }

    /** finsh_heap_allocate; vars are the variables the collector looks at. */
    method Allocate(size: u32, vars: seq<Variable>) returns (header: int)
      requires Valid() && F.InWord(F.Rounded(size))
      modifies this`blocks, this`freeList, this`allocateList, length, next
      ensures Valid()
      ensures var (h', r) := F.Allocate(old(View()), size, Pinned(vars));
              View() == h' && header == if r.Some? then r.value else NULL
    {
      hide Linked, F.Inv, F.Gc, F.Taken, Pinned, F.Rounded;
      F.AllocateCorrect(View(), size, Pinned(vars));
      var n := F.Rounded(size);
      ghost var i;
      header, i := Search(n, true);
      if header == NULL {
        Gc(vars);
        header, i := Search(n, false);
        if header == NULL {
          return;
        }
      }
      TakeBlock(header, n, i);
    }

    method TakeBlock(header: nat, n: nat, ghost i: nat)
      requires Linked() && i < |blocks| && header == blocks[i].start && F.Suits(View(), i, n, false)
      modifies this`blocks, this`freeList, this`allocateList, length, next
      ensures Linked() && View() == F.Taken(old(View()), i, n)
    {
      hide Linked, Mark;
      ghost var h := View();
      SplitHeader(header, n, i);
      assert blocks == Split(h.blocks, i, header + F.HEADER + n);
      Move(header, true, i);
    }

    /** What the header of block i tells. */
    lemma BlockAt(i: nat)
      requires Linked() && i < |blocks|
      ensures var s := blocks[i].start;
              s < max && length[s] == Edge(blocks, i + 1, max) - s - F.HEADER && s
                  + F.HEADER <= Edge(blocks, i + 1, max) <= max
    {
      TiledStrict(blocks, max, F.HEADER);
      assert Measures(length[..], blocks, i, max) && Roomy(blocks, i, max, F.HEADER);
    }

    /** The lists after the split. */
    lemma SplitLists(i: nat, at: nat)
      requires Linked() && Strict(blocks, max) && i < |blocks| && !blocks[i].used
      requires blocks[i].start < at < Edge(blocks, i + 1, max) <= max
      ensures var (s, r) := (blocks[i].start, Split(blocks, i, at));
              s < max && at < max &&
              var links := next[..][at := next[s]][s := at];
              && Chained(links, F.Starts(r, true), NULL) && Chained(links, F.Starts(r, false), NULL)
              && At(F.Starts(r, true), 0, NULL) == allocateList && At(F.Starts(r, false), 0, NULL) == freeList
    {
      hide Chained, NoDup, Tiled, Measured, F.Starts;
      var (s, r) := (blocks[i].start, Split(blocks, i, at));
      var (a, b) := (Pre(blocks, i, false), Post(blocks, i, false));
      SplitStarts(blocks, i, at);
      StartsAround(blocks, i, false);
      StartsApart(blocks, max);
      SplitStrict(blocks, i, at, max);
      StartsApart(r, max);
      ListAround(next[..], a, s, b);
      NewApart(a, s, at, b);
      SplitChain(next[..], a, s, at, b);
      var links := next[..][at := next[s]][s := at];
      NotInOther(r, max, s, at, a, b);
      ChainedSame(next[..], links, F.Starts(blocks, true), NULL);
    }
  }

  lemma MarkStrict(blocks: seq<Block>, i: nat, u: bool, max: nat)
    requires Strict(blocks, max) && i < |blocks|
    ensures Strict(Mark(blocks, i, u), max)
  {
  }

  /** The nodes of the two lists are different ones. */
  lemma MoveApart(a: seq<nat>, n: nat, b: seq<nat>, c: seq<nat>, d: seq<nat>)
    requires NoDup(a + [n] + b) && NoDup(c + [n] + d)
    requires (forall x <- c + d :: x !in a + [n] + b)
    ensures forall x <- c + d :: x != n && (a == [] || x != a[|a| - 1])
    ensures forall x <- a + b :: x != n && (c == [] || x != c[|c| - 1])
  {
    assert forall x <- a + b :: x in a + [n] + b;
    assert n in a + [n] + b;
    if a != [] {
      assert a[|a| - 1] in a && a[|a| - 1] in a + [n] + b;
    }
    if c != [] {
      assert c[|c| - 1] in c && c[|c| - 1] in c + d;
    }
    assert a + [n] + b == a + ([n] + b);
    NoDupParts(a, [n] + b);
    NoDupParts([n], b);
  }

  lemma SplitStrict(blocks: seq<Block>, i: nat, at: nat, max: nat)
    requires Strict(blocks, max) && i < |blocks| && blocks[i].start < at < Edge(blocks, i + 1, max) <= max
    ensures Strict(Split(blocks, i, at), max)
  {
  }

  lemma NewApart(a: seq<nat>, s: nat, at: nat, b: seq<nat>)
    requires NoDup(a + [s] + ([at] + b))
    ensures at !in a && at != s && at !in b && NoDup(a + [s]) && s !in [at] + b
  {
    var c := a + [s] + ([at] + b);
    NoDupParts(a + [s], [at] + b);
    NoDupParts([at], b);
    assert s in a + [s] && at in [at] + b && forall x <- a :: x in a + [s];
  }

  /** Linking the new block in behind s. */
  lemma SplitChain(links: seq<int>, a: seq<nat>, s: nat, at: nat, b: seq<nat>)
    requires Chained(links, a + [s] + b, NULL) && s < |links| && at < |links| && links[s] == At(b, 0, NULL)
    requires at !in a && at != s && at !in b && NoDup(a + [s]) && s !in [at] + b
    ensures Chained(links[at := links[s]][s := at], a + [s] + ([at] + b), NULL)
  {
    hide Chained, NoDup;
    ChainedJoin(links, a + [s], b, NULL);
    ChainedPush(links, b, at, NULL);
    ChainedElsewhere(links, a + [s], at, links[s], At(b, 0, NULL));
    var l := links[at := links[s]];
    assert (a + [s])[|a + [s]| - 1] == s;
    ChainedSplice(l, a + [s], At(b, 0, NULL), [at] + b);
    assert At([at] + b, 0, NULL) == at;
  }

  /** The lists after a merge. */
  lemma MergeLists(links: seq<int>, blocks: seq<Block>, i: nat, max: nat)
    requires Strict(blocks, max) && i + 1 < |blocks| && !blocks[i].used && !blocks[i + 1].used && |links| == max
    requires Chained(links, F.Starts(blocks, true), NULL) && Chained(links, F.Starts(blocks, false), NULL)
    ensures var (s, m, r) := (blocks[i].start, blocks[i + 1].start, Merge(blocks, i));
            s < max && m < max &&
            var links' := links[s := links[m]];
            && Chained(links', F.Starts(r, true), NULL) && Chained(links', F.Starts(r, false), NULL)
            && At(F.Starts(r, true), 0, NULL) == At(F.Starts(blocks, true), 0, NULL)
            && At(F.Starts(r, false), 0, NULL) == At(F.Starts(blocks, false), 0, NULL)
  {
    var (s, m) := (blocks[i].start, blocks[i + 1].start);
    hide Chained, NoDup, F.Starts;
    MergeStarts(blocks, i);
    StartsApart(blocks, max);
    var (a, b) := (Pre(blocks, i, false), Post(blocks, i + 1, false));
    NewApart(a, s, m, b);
    DropChain(links, a, s, m, b);
    NotInOther(blocks, max, s, m, a, b);
    ChainedElsewhere(links, F.Starts(blocks, true), s, links[m], NULL);
  }

  lemma Merged(blocks: seq<Block>, i: nat)
    requires i + 1 < |blocks|
    ensures |Merge(blocks, i)| == |blocks| - 1
    ensures forall j :: 0 <= j <= i ==> Merge(blocks, i)[j] == blocks[j]
  {
  }

  /** Blocks i and i + 1 are gone after both merges. */
  lemma GoneAfter(blocks: seq<Block>, i: nat, max: nat)
    requires Strict(blocks, max) && 0 < i && i + 1 < |blocks|
    ensures var us := Merge(Merge(blocks, i), i - 1);
            && (forall j :: 0 <= j < |us| ==> us[j].start != blocks[i].start)
            && blocks[i].start !in F.Starts(us, true) && blocks[i].start !in F.Starts(us, false)
  {
    var us := Merge(Merge(blocks, i), i - 1);
    assert Strict(us, max);
    F.StartsSorted(us, true, max);
    F.StartsSorted(us, false, max);
  }

  lemma MeasuredElsewhere(length: seq<int>, blocks: seq<Block>, x: nat, v: int, max: nat)
    requires Measured(length, blocks, max) && x < |length| && forall j :: 0 <= j < |blocks| ==> blocks[j].start != x
    ensures Measured(length[x := v], blocks, max)
  {
    var l := length[x := v];
    forall j | 0 <= j < |blocks| ensures Measures(l, blocks, j, max) {
      assert Measures(length, blocks, j, max);
    }
  }

  lemma HeadStrict(blocks: seq<Block>, k: nat, max: nat)
    requires Strict(blocks, max) && k <= |blocks|
    ensures Strict(blocks[..k], max)
  {
  }

  /** Linking past the node m behind s. */
  lemma DropChain(links: seq<int>, a: seq<nat>, s: nat, m: nat, b: seq<nat>)
    requires Chained(links, a + [s] + ([m] + b), NULL) && s < |links| && m < |links|
    requires m !in a && m != s && m !in b && NoDup(a + [s]) && s !in [m] + b
    ensures Chained(links[s := links[m]], a + [s] + b, NULL)
    ensures At(a + [s] + b, 0, NULL) == At(a + [s] + ([m] + b), 0, NULL)
  {
    hide Chained, NoDup;
    ChainedJoin(links, a + [s], [m] + b, NULL);
    ChainedTail(links, [m] + b, NULL);
    assert ([m] + b)[1..] == b && (a + [s])[|a + [s]| - 1] == s && forall x <- b :: x in [m] + b;
    ChainedSplice(links, a + [s], m, b);
  }

  /** The next free block touches block i exactly if it is the one right behind it. */
  lemma NextTouches(blocks: seq<Block>, i: nat, max: nat)
    requires Strict(blocks, max) && i < |blocks|
    ensures var v := At(Post(blocks, i, false), 0, NULL);
            v == Edge(blocks, i + 1, max) <==> i + 1 < |blocks| && !blocks[i + 1].used
  {
    var rest := blocks[i + 1..];
    if rest != [] {
      assert rest == [rest[0]] + rest[1..];
      StartsCons(rest[0], rest[1..], false);
      if rest[0].used {
        TailStrict(blocks, i + 2, max);
        F.StartsSorted(rest[1..], false, max);
        var ys := F.Starts(rest[1..], false);
        if ys != [] {
          assert ys[0] in ys && Block(ys[0], false) in rest[1..];
        }
      }
    }
  }

  lemma TailStrict(blocks: seq<Block>, k: nat, max: nat)
    requires Strict(blocks, max) && k <= |blocks|
    ensures Strict(blocks[k..], max)
    ensures k > 0 ==> forall b <- blocks[k..] :: blocks[k - 1].start < b.start
  {
  }

  lemma NotInOther(r: seq<Block>, max: nat, s: nat, at: nat, a: seq<nat>, b: seq<nat>)
    requires Strict(r, max) && F.Starts(r, false) == a + [s] + ([at] + b)
    requires forall x <- F.Starts(r, true) :: x !in F.Starts(r, false)
    ensures s !in F.Starts(r, true) && at !in F.Starts(r, true)
  {
    assert s in F.Starts(r, false) && at in F.Starts(r, false);
  }

  /** Behind every block in use there is a free one. */
  lemma TopFree(h: F.Heap, i: nat)
    requires F.Inv(h) && i < |h.blocks| && h.blocks[i].used
    ensures Post(h.blocks, i, false) != []
  {
    var last := |h.blocks| - 1;
    TiledStrict(h.blocks, h.max, F.HEADER);
    TailStrict(h.blocks, i + 1, h.max);
    F.StartsSorted(h.blocks[i + 1..], false, h.max);
    assert h.blocks[i + 1..][last - i - 1] == Block(h.blocks[last].start, false);
    assert h.blocks[last].start in Post(h.blocks, i, false);
  }

  /** The next allocated block of the list. */
  lemma ListedAt(h: F.Heap, kept: seq<nat>, rest: seq<nat>) returns (i: nat)
    requires F.Inv(h) && F.Starts(h.blocks, true) == kept + rest && rest != []
    ensures i < |h.blocks| && h.blocks[i] == Block(rest[0], true) && IndexOf(h.blocks, rest[0]) == i
  {
    TiledStrict(h.blocks, h.max, F.HEADER);
    F.StartsSorted(h.blocks, true, h.max);
    assert rest[0] in kept + rest;
    i :| 0 <= i < |h.blocks| && h.blocks[i] == Block(rest[0], true);
    IndexOfStart(h.blocks, h.max, F.HEADER, i);
  }

  /** Freeing takes one block off the list of allocated ones. */
  lemma FreedStarts(h: F.Heap, i: nat)
    requires F.Inv(h) && i < |h.blocks| && h.blocks[i].used
    ensures F.Starts(F.Freed(h, i).blocks, true) == Pre(h.blocks, i, true) + Post(h.blocks, i, true)
    ensures F.Starts(h.blocks, true) == Pre(h.blocks, i, true) + [h.blocks[i].start] + Post(h.blocks, i, true)
    ensures NoDup(F.Starts(h.blocks, true))
  {
    TiledStrict(h.blocks, h.max, F.HEADER);
    StartsApart(h.blocks, h.max);
    MarkStarts(h.blocks, i, false);
    var h1 := h.(blocks := Mark(h.blocks, i, false));
    var h2 := F.MergedRight(h1, i);
    hide F.Starts;
    if i + 1 < |h1.blocks| && !h1.blocks[i + 1].used {
      MergeStarts(h1.blocks, i);
    }
    if 0 < i && !h2.blocks[i - 1].used {
      MergeStarts(h2.blocks, i - 1);
    }
  }

  /** An element stands at one place only. */
  lemma SameCut(a: seq<nat>, x: nat, b: seq<nat>, c: seq<nat>, d: seq<nat>)
    requires a + [x] + b == c + [x] + d && NoDup(a + [x] + b)
    ensures a == c && b == d
  {
    var l := a + [x] + b;
    assert l[|a|] == x && l[|c|] == (c + [x] + d)[|c|] == x;
    assert a == l[..|a|] && c == l[..|c|] && b == l[|a| + 1..] && d == l[|c| + 1..];
  }

  /** The first free block from block i on; used ones before it suit nobody. */
  lemma HeadOf(h: F.Heap, i: nat, n: nat, strict: bool) returns (q: nat)
    requires i <= |h.blocks| && F.Starts(h.blocks[i..], false) != []
    ensures i <= q < |h.blocks| && !h.blocks[q].used && h.blocks[q].start == F.Starts(h.blocks[i..], false)[0]
    ensures F.FirstFit(h, n, strict, i) == F.FirstFit(h, n, strict, q)
    decreases |h.blocks| - i
  {
    if i < |h.blocks| && h.blocks[i].used {
      assert h.blocks[i..][1..] == h.blocks[i + 1..];
      q := HeadOf(h, i + 1, n, strict);
    } else {
      q := i;
    }
  }

  lemma FitStep(h: F.Heap, n: nat, strict: bool, q: nat)
    requires q < |h.blocks|
    ensures F.FirstFit(h, n, strict, q) == if F.Suits(h, q, n, strict) then Some(q) else F.FirstFit(h, n, strict, q + 1)
  {
  }

  /** Without free blocks from block i on the search finds none. */
  lemma NoneLeft(h: F.Heap, i: nat, n: nat, strict: bool)
    requires i <= |h.blocks| && F.Starts(h.blocks[i..], false) == []
    ensures F.FirstFit(h, n, strict, i) == None
    decreases |h.blocks| - i
  {
    if i < |h.blocks| {
      assert h.blocks[i..][1..] == h.blocks[i + 1..];
      NoneLeft(h, i + 1, n, strict);
    }
  }

  lemma Alone(links: seq<int>, n: nat)
    requires n < |links| && links[n] == NULL
    ensures Chained(links, [n], NULL)
  {
  }

  lemma ListAround(links: seq<int>, a: seq<nat>, n: nat, b: seq<nat>)
    requires Chained(links, a + [n] + b, NULL) && NoDup(a + [n] + b)
    ensures Chained(links, a, n) && Chained(links, b, NULL) && n < |links| && links[n] == At(b, 0, NULL)
    ensures NoDup(a) && n !in a && n !in b && forall x <- a :: x !in b
  {
    assert a + [n] + b == a + ([n] + b);
    ChainedJoin(links, a, [n] + b, NULL);
    ChainedTail(links, [n] + b, NULL);
    NoDupParts(a, [n] + b);
    NoDupParts([n], b);
    assert n in [n] + b && forall x <- b :: x in [n] + b;
    assert ([n] + b)[1..] == b;
  }

  /** The head of the list is n exactly if nothing comes before it. */
  lemma FirstOnly(a: seq<nat>, n: nat, b: seq<nat>)
    requires n !in a
    ensures At(a + [n] + b, 0, NULL) == n <==> a == []
    ensures a == [] ==> a + b == b
    ensures a != [] ==> At(a + [n] + b, 0, NULL) == a[0] && At(a + b, 0, NULL) == a[0]
  {
  }

  /** A node before n leads to the next one before n, or to n. */
  lemma LinkIn(links: seq<int>, a: seq<nat>, n: nat, b: seq<nat>, j: nat)
    requires Chained(links, a + [n] + b, NULL) && j < |a| && n !in a
    ensures a[j] < |links| && links[a[j]] == if j + 1 < |a| then a[j + 1] else n
    ensures j + 1 < |a| ==> links[a[j]] != n && a[j + 1] < |links|
  {
    var c := a + [n] + b;
    ChainedAt(links, c, j, NULL);
    if j + 1 < |a| {
      ChainedAt(links, c, j + 1, NULL);
      assert a[j + 1] in a;
    }
  }

  lemma ListsApart(links: seq<int>, a: seq<nat>, n: nat, b: seq<nat>)
    requires Chained(links, a + b, NULL) && NoDup(a + [n] + b)
    ensures Chained(links, a, At(b, 0, NULL)) && Chained(links, b, NULL)
    ensures NoDup(a) && n !in a && n !in b && forall x <- a :: x !in b
    ensures At(a + b, 0, NULL) == NULL <==> a + b == []
  {
    ChainedJoin(links, a, b, NULL);
    assert a + [n] + b == a + ([n] + b);
    NoDupParts(a, [n] + b);
    NoDupParts([n], b);
    assert n in [n] + b && forall x <- b :: x in [n] + b;
  }

  /** In a sorted list, a first node above n means that nothing comes before n. */
  lemma FirstAbove(a: seq<nat>, n: nat, b: seq<nat>)
    requires (forall x <- a :: x < n) && At(a + b, 0, NULL) > n
    ensures a == [] && a + b == b
  {
    forall i | 0 <= i < |a| ensures a[i] < n {
      assert a[i] in a;
    }
  }

  lemma FirstBelow(a: seq<nat>, n: nat, b: seq<nat>)
    requires (forall x <- b :: n < x) && NULL != At(a + b, 0, NULL) <= n
    ensures a != [] && At(a + b, 0, NULL) == a[0]
  {
    assert b != [] ==> b[0] in b;
  }

  /** A node before n leads to the next one before n, or past it. */
  lemma LinkBetween(links: seq<int>, a: seq<nat>, n: nat, b: seq<nat>, j: nat)
    requires Chained(links, a + b, NULL) && j < |a|
    requires (forall x <- a :: x < n) && (forall x <- b :: n < x)
    ensures a[j] < |links| && links[a[j]] == if j + 1 < |a| then a[j + 1] else At(b, 0, NULL)
    ensures j + 1 < |a| <==> NULL != links[a[j]] <= n
    ensures j + 1 < |a| ==> a[j + 1] < |links|
  {
    ChainedAt(links, a + b, j, NULL);
    if j + 1 < |a| {
      ChainedAt(links, a + b, j + 1, NULL);
      assert a[j + 1] in a;
    } else {
      assert b != [] ==> b[0] in b;
    }
  }
}

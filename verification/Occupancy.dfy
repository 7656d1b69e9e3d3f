/** Which stretches of a tiled area are in use, and what splitting, merging and marking blocks does to them. */
module Occupancy {
  import opened Tiling

  /** A used block reaches from offset s to offset e. */
  ghost predicate InUse(blocks: seq<Block>, end: nat, s: nat, e: nat) {
    exists i :: 0 <= i < |blocks| && blocks[i] == Block(s, true) && Edge(blocks, i + 1, end) == e
  }

  /** Block i of the one chain is block j of the other. */
  lemma Same(blocks: seq<Block>, i: nat, blocks': seq<Block>, j: nat, end: nat, s: nat, e: nat)
    requires i < |blocks| && j < |blocks'| && blocks[i] == Block(s, true) && Edge(blocks, i + 1, end) == e
    requires blocks'[j] == blocks[i] && Edge(blocks', j + 1, end) == e
    ensures InUse(blocks', end, s, e)
  {
  }

  /** Two chains whose used blocks are the same but for block i of the one and block j of the other. */
  lemma Marked(blocks: seq<Block>, end: nat, gap: nat, i: nat, used: bool, s: nat, e: nat)
    requires Tiled(blocks, end, gap) && gap > 0 && i < |blocks|
    ensures InUse(Mark(blocks, i, used), end, s, e) <==>
              (InUse(blocks, end, s, e) && s != blocks[i].start) ||
              (used && s == blocks[i].start && e == Edge(blocks, i + 1, end))
  {
    var bs := Mark(blocks, i, used);
    if j :| 0 <= j < |blocks| && blocks[j] == Block(s, true) && Edge(blocks, j + 1, end) == e && j != i {
      Same(blocks, j, bs, j, end, s, e);
    }
    if j :| 0 <= j < |bs| && bs[j] == Block(s, true) && Edge(bs, j + 1, end) == e {
      if j != i {
        Same(bs, j, blocks, j, end, s, e);
        if s == blocks[i].start { SameStart(blocks, end, gap, j, i); }
      }
    }
    if used && s == blocks[i].start {
      assert bs[i] == Block(s, true) && Edge(bs, i + 1, end) == Edge(blocks, i + 1, end);
    }
  }

  /** Merging two free blocks changes nothing. */
  lemma Merged(blocks: seq<Block>, end: nat, i: nat, s: nat, e: nat)
    requires i + 1 < |blocks| && !blocks[i].used && !blocks[i + 1].used
    ensures InUse(Merge(blocks, i), end, s, e) <==> InUse(blocks, end, s, e)
  {
    var bs := Merge(blocks, i);
    if j :| 0 <= j < |blocks| && blocks[j] == Block(s, true) && Edge(blocks, j + 1, end) == e {
      Same(blocks, j, bs, if j < i then j else j - 1, end, s, e);
    }
    if k :| 0 <= k < |bs| && bs[k] == Block(s, true) && Edge(bs, k + 1, end) == e {
      Same(bs, k, blocks, if k < i then k else k + 1, end, s, e);
    }
  }

  /** Splitting a block moves its end; what is cut off is free. */
  lemma Cut(blocks: seq<Block>, end: nat, gap: nat, i: nat, at: nat, s: nat, e: nat)
    requires Tiled(blocks, end, gap) && gap > 0 && i < |blocks|
    ensures InUse(Split(blocks, i, at), end, s, e) <==>
              (InUse(blocks, end, s, e) && s != blocks[i].start) ||
              (blocks[i].used && s == blocks[i].start && e == at)
  {
    var bs := Split(blocks, i, at);
    if j :| 0 <= j < |blocks| && blocks[j] == Block(s, true) && Edge(blocks, j + 1, end) == e && j != i {
      Same(blocks, j, bs, if j < i then j else j + 1, end, s, e);
    }
    if k :| 0 <= k < |bs| && bs[k] == Block(s, true) && Edge(bs, k + 1, end) == e {
      if k != i {
        var j := if k < i then k else k - 1;
        Same(bs, k, blocks, j, end, s, e);
        if s == blocks[i].start { SameStart(blocks, end, gap, j, i); }
      }
    }
    if blocks[i].used && s == blocks[i].start {
      assert bs[i] == blocks[i] && Edge(bs, i + 1, end) == at;
    }
  }

  /** A stretch in use is found by where it starts. */
  lemma Found(blocks: seq<Block>, end: nat, gap: nat, s: nat, e: nat)
    requires Tiled(blocks, end, gap) && gap > 0
    ensures var i := IndexOf(blocks, s);
            InUse(blocks, end, s, e) <==> i < |blocks| && blocks[i].used && Edge(blocks, i + 1, end) == e
  {
    if i :| 0 <= i < |blocks| && blocks[i] == Block(s, true) && Edge(blocks, i + 1, end) == e {
      IndexOfStart(blocks, end, gap, i);
    }
    var i := IndexOf(blocks, s);
    if i < |blocks| && blocks[i].used {
      assert blocks[i] == Block(s, true);
    }
  }

  /** Different stretches in use do not overlap, and lie in the area. */
  lemma Apart(blocks: seq<Block>, end: nat, gap: nat, s: nat, e: nat, t: nat, f: nat)
    requires Tiled(blocks, end, gap) && InUse(blocks, end, s, e) && InUse(blocks, end, t, f)
    ensures s + gap <= e <= end && ((s == t && e == f) || e <= t || f <= s)
  {
    var i :| 0 <= i < |blocks| && blocks[i] == Block(s, true) && Edge(blocks, i + 1, end) == e;
    var j :| 0 <= j < |blocks| && blocks[j] == Block(t, true) && Edge(blocks, j + 1, end) == f;
    Ascending(blocks, end, gap, i, i + 1);
    Ascending(blocks, end, gap, i, |blocks|);
    if i < j { Ascending(blocks, end, gap, i, j); }
    if j < i { Ascending(blocks, end, gap, j, i); }
  }
}

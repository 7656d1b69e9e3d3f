/**
 * The heap of finsh_heap.c: blocks that tile the arena, the free ones and the allocated ones in a
 * list each, and a collector that frees what no variable points to.
 */
module FinshHeap {
  import opened Base
  import opened Tiling
  import O = Occupancy

  /** The bytes of a block header. */
  const HEADER: nat := 8

  /** max is FINSH_HEAP_MAX; blocks are named by the offsets of their headers. */
  datatype Heap = Heap(max: nat, blocks: seq<Block>)

  function After(h: Heap, i: nat): nat {
    Edge(h.blocks, i + 1, h.max)
  }

  /** The length field of block i. */
  function Length(h: Heap, i: nat): int
    requires i < |h.blocks|
  {
    After(h, i) - h.blocks[i].start - HEADER
  }

  /** HEAP_ALIGN_SIZE. */
  function Rounded(size: u32): nat {
    Wrap(size + 3) / 4 * 4
  }

  /** A free block is taken if it is longer than the request and a header, or after collecting as long. */
  predicate Suits(h: Heap, i: nat, n: nat, strict: bool)
    requires i < |h.blocks|
  {
    !h.blocks[i].used && if strict then Length(h, i) > n + HEADER else Length(h, i) >= n + HEADER
  }

  /** The request and a header fit in a word. */
  predicate InWord(n: nat) {
    n + HEADER < TWO32
  }

  /** The same test as it is computed, in words of 32 bits. */
  predicate Passes(h: Heap, i: nat, n: nat, strict: bool)
    requires i < |h.blocks|
  {
    !h.blocks[i].used && if strict then Length(h, i) > Wrap(n + HEADER) else Length(h, i) >= Wrap(n + HEADER)
  }

  /** The first suitable block from block k on. */
  function FirstFit(h: Heap, n: nat, strict: bool, k: nat): (r: Option<nat>)
    ensures r.Some? ==> k <= r.value < |h.blocks| && Suits(h, r.value, n, strict)
    ensures forall j :: k <= j < (if r.Some? then r.value else |h.blocks|) ==> !Suits(h, j, n, strict)
    decreases |h.blocks| - k
  {
    if k >= |h.blocks| then None else if Suits(h, k, n, strict) then Some(k) else FirstFit(h, n, strict, k + 1)
  }

  /** The block is always split: what is left, be it a bare header, stays free. */
  function Taken(h: Heap, i: nat, n: nat): Heap
    requires i < |h.blocks|
  {
    h.(blocks := Mark(Split(h.blocks, i, h.blocks[i].start + HEADER + n), i, true))
  }

  function MergedRight(h: Heap, i: nat): Heap {
    if i + 1 < |h.blocks| && !h.blocks[i + 1].used then h.(blocks := Merge(h.blocks, i)) else h
  }

  function MergedLeft(h: Heap, i: nat): Heap {
    if 0 < i < |h.blocks| && !h.blocks[i - 1].used then h.(blocks := Merge(h.blocks, i - 1)) else h
  }

  /** finsh_heap_free of block i. */
  function Freed(h: Heap, i: nat): Heap
    requires i < |h.blocks|
  {
    MergedLeft(MergedRight(h.(blocks := Mark(h.blocks, i, false)), i), i)
  }

  /** finsh_heap_free of the block at offset s. */
  function FreedAt(h: Heap, s: nat): Heap {
    var i := IndexOf(h.blocks, s);
    if i < |h.blocks| then Freed(h, i) else h
  }

  /** finsh_heap_gc over the allocated blocks xs: those no variable points to are freed. */
  function Collected(h: Heap, xs: seq<nat>, pinned: set<nat>): Heap
    decreases xs
  {
    if xs == [] then h
    else Collected(if xs[0] in pinned then h else FreedAt(h, xs[0]), xs[1..], pinned)
  }

  /** The starts of the used, or of the free, blocks in order of address. */
  function Starts(blocks: seq<Block>, used: bool): seq<nat> {
    if blocks == [] then []
    else (if blocks[0].used == used then [blocks[0].start] else []) + Starts(blocks[1..], used)
  }

  function Gc(h: Heap, pinned: set<nat>): Heap {
    Collected(h, Starts(h.blocks, true), pinned)
  }

  /** finsh_heap_allocate; pinned are the blocks some variable points to, the result is the header's offset. */
  function Allocate(h: Heap, size: u32, pinned: set<nat>): (Heap, Option<nat>) {
    var n := Rounded(size);
    match FirstFit(h, n, true, 0)
    case Some(i) => (Taken(h, i, n), Some(h.blocks[i].start))
    case None =>
      var h1 := Gc(h, pinned);
      match FirstFit(h1, n, false, 0)
      case Some(i) => (Taken(h1, i, n), Some(h1.blocks[i].start))
      case None => (h1, None)
  }

  // ---- Invariant ----

  /** The blocks tile the arena, free ones do not touch, and the topmost one is free. */
  ghost predicate Inv(h: Heap) {
    && Tiled(h.blocks, h.max, HEADER) && Coalesced(h.blocks)
    && !h.blocks[|h.blocks| - 1].used
  }

  /** A block in use from offset s to offset e. */
  ghost predicate InUse(h: Heap, s: nat, e: nat) {
    O.InUse(h.blocks, h.max, s, e)
  }

  /** finsh_heap_init. */
  ghost function Fresh(max: nat): Heap {
    Heap(max, [Block(0, false)])
  }

  lemma FreshInv(max: nat)
    requires max >= HEADER
    ensures Inv(Fresh(max))
  {
  }

  lemma TakenInv(h: Heap, i: nat, n: nat)
    requires Inv(h) && i < |h.blocks| && Suits(h, i, n, false)
    ensures Inv(Taken(h, i, n))
  {
    var at := h.blocks[i].start + HEADER + n;
    TakenCoalesced(h.blocks, i, at);
    SplitTiled(h.blocks, i, at, h.max, HEADER);
    MarkTiled(Split(h.blocks, i, at), i, true, h.max, HEADER);
  }

  /** Handing out a block changes no other block in use. */
  lemma TakenInUse(h: Heap, i: nat, n: nat, s: nat, e: nat)
    requires Inv(h) && i < |h.blocks| && Suits(h, i, n, false)
    ensures var t := h.blocks[i].start;
            InUse(Taken(h, i, n), s, e) <==> InUse(h, s, e) || (s == t && e == t + HEADER + n)
  {
    var (t, at) := (h.blocks[i].start, h.blocks[i].start + HEADER + n);
    TakenParts(h, i, n);
    hide O.InUse, Tiled, Coalesced, Split, Mark, Taken;
    O.Cut(h.blocks, h.max, HEADER, i, at, s, e);
    O.Marked(Split(h.blocks, i, at), h.max, HEADER, i, true, s, e);
    FreeNotInUse(h, i, e);
  }

  /** Handing out is splitting and marking; the cut is inside the block. */
  lemma TakenParts(h: Heap, i: nat, n: nat)
    requires Inv(h) && i < |h.blocks| && Suits(h, i, n, false)
    ensures var (at, u) := (h.blocks[i].start + HEADER + n, Taken(h, i, n));
            && i + 1 < |Split(h.blocks, i, at)| && u.blocks == Mark(Split(h.blocks, i, at), i, true) && u.max == h.max
            && Split(h.blocks, i, at)[i] == h.blocks[i] && Edge(Split(h.blocks, i, at), i + 1, h.max) == at
            && Tiled(Split(h.blocks, i, at), h.max, HEADER) && !h.blocks[i].used
  {
    SplitTiled(h.blocks, i, h.blocks[i].start + HEADER + n, h.max, HEADER);
    hide Tiled, Coalesced;
  }

  lemma FreeNotInUse(h: Heap, i: nat, e: nat)
    requires Inv(h) && i < |h.blocks| && !h.blocks[i].used
    ensures !InUse(h, h.blocks[i].start, e)
  {
    O.Found(h.blocks, h.max, HEADER, h.blocks[i].start, e);
    IndexOfStart(h.blocks, h.max, HEADER, i);
  }

  // ---- Freeing ----

  /** Block i is free; its neighbours may be free as well. */
  ghost predicate Near(h: Heap, i: nat) {
    && Tiled(h.blocks, h.max, HEADER) && i < |h.blocks| && !h.blocks[i].used
    && !h.blocks[|h.blocks| - 1].used
    && forall j :: 0 <= j < |h.blocks| - 1 && j != i && j + 1 != i ==> h.blocks[j].used || h.blocks[j + 1].used
  }

  lemma RightInv(h: Heap, i: nat)
    requires Near(h, i)
    ensures var h' := MergedRight(h, i); Near(h', i) && (i + 1 < |h'.blocks| ==> h'.blocks[i + 1].used)
  {
    if i + 1 < |h.blocks| && !h.blocks[i + 1].used {
      MergeTiled(h.blocks, i, h.max, HEADER);
    }
  }

  lemma LeftInv(h: Heap, i: nat)
    requires Near(h, i) && (i + 1 < |h.blocks| ==> h.blocks[i + 1].used)
    ensures Inv(MergedLeft(h, i))
  {
    if i > 0 && !h.blocks[i - 1].used {
      MergeTiled(h.blocks, i - 1, h.max, HEADER);
    }
  }

  lemma FreedInv(h: Heap, i: nat)
    requires Inv(h) && i < |h.blocks| && h.blocks[i].used
    ensures Inv(Freed(h, i))
  {
    MarkTiled(h.blocks, i, false, h.max, HEADER);
    var h1 := h.(blocks := Mark(h.blocks, i, false));
    RightInv(h1, i);
    LeftInv(MergedRight(h1, i), i);
  }

  lemma FreedInUse(h: Heap, i: nat, s: nat, e: nat)
    requires Inv(h) && i < |h.blocks| && h.blocks[i].used
    ensures InUse(Freed(h, i), s, e) <==> InUse(h, s, e) && s != h.blocks[i].start
  {
    var h1 := h.(blocks := Mark(h.blocks, i, false));
    var h2 := MergedRight(h1, i);
    O.Marked(h.blocks, h.max, HEADER, i, false, s, e);
    if i + 1 < |h1.blocks| && !h1.blocks[i + 1].used {
      O.Merged(h1.blocks, h.max, i, s, e);
    }
    if 0 < i && !h2.blocks[i - 1].used {
      O.Merged(h2.blocks, h.max, i - 1, s, e);
    }
    hide O.InUse;
  }

  /** A block in use is found by its offset. */
  lemma FoundInUse(h: Heap, s: nat, e: nat)
    requires Inv(h) && InUse(h, s, e)
    ensures var i := IndexOf(h.blocks, s); i < |h.blocks| && h.blocks[i] == Block(s, true) && After(h, i) == e
  {
    O.Found(h.blocks, h.max, HEADER, s, e);
  }

  /** finsh_heap_free keeps the invariant, takes this block away and no other. */
  lemma FreeCorrect(h: Heap, x: nat, xe: nat)
    requires Inv(h) && InUse(h, x, xe)
    ensures Inv(FreedAt(h, x))
    ensures forall s, e :: InUse(FreedAt(h, x), s, e) <==> InUse(h, s, e) && s != x
  {
    FoundInUse(h, x, xe);
    var i := IndexOf(h.blocks, x);
    FreedInv(h, i);
    forall s, e ensures InUse(FreedAt(h, x), s, e) <==> InUse(h, s, e) && s != x {
      FreedInUse(h, i, s, e);
    }
  }

  // ---- Collecting ----

  /** Offset s is that of a block in use. */
  ghost predicate Allocated(h: Heap, s: nat) {
    exists e :: InUse(h, s, e)
  }

  lemma {:induction false} CollectedExact(h: Heap, xs: seq<nat>, pinned: set<nat>)
    requires Inv(h) && Ascends(xs) && forall x <- xs :: Allocated(h, x)
    ensures Inv(Collected(h, xs, pinned))
    ensures forall s, e :: InUse(Collected(h, xs, pinned), s, e) <==> InUse(h, s, e) && (s in xs ==> s in pinned)
    decreases xs
  {
    if xs != [] {
      var (x, rest) := (xs[0], xs[1..]);
      assert forall s :: s in xs <==> s == x || s in rest;
      assert x !in rest;
      var h1 := if x in pinned then h else FreedAt(h, x);
      if x !in pinned {
        assert Allocated(h, x);
        var e :| InUse(h, x, e);
        FreeCorrect(h, x, e);
      }
      forall y <- rest ensures Allocated(h1, y) {
        assert Allocated(h, y);
        var e :| InUse(h, y, e);
        assert InUse(h1, y, e);
      }
      CollectedExact(h1, rest, pinned);
    }
  }

  ghost predicate Ascends(xs: seq<nat>) {
    forall i, j :: 0 <= i < j < |xs| ==> xs[i] < xs[j]
  }

  /** The list of allocated blocks is sorted and holds the blocks in use, the free list the free ones. */
  lemma {:induction false} StartsSorted(blocks: seq<Block>, used: bool, end: nat)
    requires Strict(blocks, end)
    ensures Ascends(Starts(blocks, used))
    ensures forall s :: s in Starts(blocks, used) <==> Block(s, used) in blocks
    decreases |blocks|
  {
    if blocks != [] {
      var rest := blocks[1..];
      assert blocks == [blocks[0]] + rest;
      StartsSorted(rest, used, end);
      forall y <- Starts(rest, used) ensures blocks[0].start < y {
        assert Block(y, used) in rest;
      }
      var (xs, ys) := (Starts(blocks, used), Starts(rest, used));
      assert xs == if blocks[0].used == used then [blocks[0].start] + ys else ys;
      forall i, j | 0 <= i < j < |xs| ensures xs[i] < xs[j] {
        assert xs[j] in ys;
      }
    }
  }

  /** The collector keeps exactly the blocks that some variable points to. */
  lemma GcExact(h: Heap, pinned: set<nat>)
    requires Inv(h)
    ensures Inv(Gc(h, pinned))
    ensures forall s, e :: InUse(Gc(h, pinned), s, e) <==> InUse(h, s, e) && s in pinned
  {
    TiledStrict(h.blocks, h.max, HEADER);
    StartsSorted(h.blocks, true, h.max);
    var xs := Starts(h.blocks, true);
    forall x <- xs ensures Allocated(h, x) {
      assert Block(x, true) in h.blocks;
      var i :| 0 <= i < |h.blocks| && h.blocks[i] == Block(x, true);
      assert O.InUse(h.blocks, h.max, x, After(h, i)) && InUse(h, x, After(h, i));
    }
    CollectedExact(h, xs, pinned);
  }

  // ---- Requests ----

  /** No free block is longer than the request and a header. */
  ghost predicate Collects(h: Heap, n: nat) {
    forall i :: 0 <= i < |h.blocks| ==> !Suits(h, i, n, true)
  }

  /** The test on a block is right exactly if the sum does not wrap, or the block is too short for what is left. */
  lemma TestExactly(h: Heap, i: nat, n: nat, strict: bool)
    requires Inv(h) && h.max < TWO32 && i < |h.blocks| && n < TWO32
    ensures (Passes(h, i, n, strict) <==> Suits(h, i, n, strict)) <==>
              || InWord(n) || h.blocks[i].used
              || if strict then Length(h, i) <= n + HEADER - TWO32 else Length(h, i) < n + HEADER - TWO32
  {
    TiledStrict(h.blocks, h.max, HEADER);
    hide Inv, Tiled, Strict;
    assert Length(h, i) < h.max;
    if !InWord(n) { WrapOnce(n + HEADER); }
  }

  lemma WrapOnce(x: nat)
    requires TWO32 <= x < 2 * TWO32
    ensures Wrap(x) == x - TWO32
  {
  }

  /** A request just below 2 to the 32 passes the test of a fresh heap that has no room for it. */
  lemma WrappedRequestPasses(max: nat)
    requires HEADER + 4 < max < TWO32
    ensures var (h, n) := (Fresh(max), Rounded(0xFFFF_FFFC));
            Inv(h) && Passes(h, 0, n, true) && !Suits(h, 0, n, true) && !Suits(h, 0, n, false)
  {
    assert Rounded(0xFFFF_FFFC) == 0xFFFF_FFFC;
    WrapOnce(0xFFFF_FFFC + HEADER);
  }

  /**
   * A request gets room that is free and takes nothing from others. The collector runs only if no
   * free block is longer than the request and a header; the request fails only if even then no
   * free block is as long as that.
   */
  lemma AllocateCorrect(h: Heap, size: u32, pinned: set<nat>)
    requires Inv(h) && InWord(Rounded(size))
    ensures var ((h', r), n) := (Allocate(h, size, pinned), Rounded(size));
            var base := if Collects(h, n) then Gc(h, pinned) else h;
            && Inv(h')
            && match r
               case None =>
                 && Collects(h, n) && h' == base
                 && forall i :: 0 <= i < |base.blocks| ==> !Suits(base, i, n, false)
               case Some(t) =>
                 && !Allocated(base, t)
                 && forall s: nat, e: nat :: InUse(h', s, e) <==> InUse(base, s, e) || (s == t && e == t + HEADER + n)
  {
    var n := Rounded(size);
    hide Inv, InUse, Allocated, Rounded, Gc, Taken, Length;
    match FirstFit(h, n, true, 0)
    case Some(i) => TakenCorrect(h, i, n);
    case None =>
      GcExact(h, pinned);
      var h1 := Gc(h, pinned);
      match FirstFit(h1, n, false, 0)
      case Some(i) => TakenCorrect(h1, i, n);
      case None => {}
  }

  lemma RoundedHolds(size: u32)
    ensures size <= Rounded(size) <==> size + 3 < TWO32
    ensures if size + 3 < TWO32 then Rounded(size) < size + 4 && Rounded(size) % 4 == 0 else Rounded(size) == 0
  {
  }

  /** The block that is granted holds the request exactly if rounding up does not wrap. */
  lemma GrantsRequest(h: Heap, size: u32, pinned: set<nat>, t: nat, e: nat)
    requires Inv(h) && InWord(Rounded(size)) && Allocate(h, size, pinned).1 == Some(t)
    requires InUse(Allocate(h, size, pinned).0, t, e)
    ensures e - (t + HEADER) >= size <==> size + 3 < TWO32
  {
    hide Inv, InUse, Allocated, Rounded, Gc, Collects;
    AllocateCorrect(h, size, pinned);
    RoundedHolds(size);
    NotTwice(if Collects(h, Rounded(size)) then Gc(h, pinned) else h, t, e);
  }

  /** Block j is free and its length field is at least n. */
  ghost predicate Holds(h: Heap, j: int, n: nat) {
    0 <= j < |h.blocks| && !h.blocks[j].used && Edge(h.blocks, j + 1, h.max) - h.blocks[j].start - HEADER >= n
  }

  ghost predicate FirstHolding(h: Heap, j: int, n: nat) {
    Holds(h, j, n) && forall i :: i < j ==> !Holds(h, i, n)
  }

  ghost predicate NoneHolds(h: Heap, n: nat) {
    forall j :: !Holds(h, j, n)
  }

  lemma FitExactly(h: Heap, n: nat, strict: bool)
    ensures var m := n + HEADER + if strict then 1 else 0;
            match FirstFit(h, n, strict, 0)
            case Some(i) => FirstHolding(h, i, m) && forall j :: FirstHolding(h, j, m) ==> j == i
            case None => NoneHolds(h, m)
  {
    var m := n + HEADER + if strict then 1 else 0;
    hide FirstFit, After;
    forall j | 0 <= j < |h.blocks| ensures Holds(h, j, m) <==> Suits(h, j, n, strict) { HoldsExactly(h, j, n, strict); }
    hide Suits;
    match FirstFit(h, n, strict, 0)
    case Some(i) =>
      forall j | FirstHolding(h, j, m) ensures j == i {
        assert Suits(h, j, n, strict);
      }
    case None => {}
  }

  lemma HoldsExactly(h: Heap, j: nat, n: nat, strict: bool)
    requires j < |h.blocks|
    ensures Holds(h, j, n + HEADER + if strict then 1 else 0) <==> Suits(h, j, n, strict)
  {
  }

  /**
   * The first free block that is longer than request and header is taken. If there is none, the
   * collector runs, and the first one that is as long is taken; the request fails if there is none then.
   */
  lemma AllocateExactly(h: Heap, size: u32, pinned: set<nat>)
    requires Inv(h) && InWord(Rounded(size))
    ensures var (r, n, g) := (Allocate(h, size, pinned).1, Rounded(size) + HEADER, Gc(h, pinned));
            && (forall j :: FirstHolding(h, j, n + 1) ==> r == Some(h.blocks[j].start))
            && (NoneHolds(h, n + 1) ==>
                  && (r.None? <==> NoneHolds(g, n))
                  && forall j :: FirstHolding(g, j, n) ==> r == Some(g.blocks[j].start))
  {
    var n := Rounded(size);
    FitExactly(h, n, true);
    FitExactly(Gc(h, pinned), n, false);
    hide Inv, Holds, Gc, Taken, Rounded, FirstFit;
  }

  lemma NotTwice(h: Heap, t: nat, e: nat)
    requires !Allocated(h, t)
    ensures !InUse(h, t, e)
  {
  }

  /** A request of 4294967295 bytes is granted a block without payload. */
  lemma WrappedGrant(max: nat)
    requires 2 * HEADER < max < TWO32
    ensures Inv(Fresh(max)) && Allocate(Fresh(max), 0xFFFF_FFFF, {}).1 == Some(0)
    ensures InUse(Allocate(Fresh(max), 0xFFFF_FFFF, {}).0, 0, HEADER)
  {
    var h := Fresh(max);
    assert Rounded(0xFFFF_FFFF) == 0;
    assert Suits(h, 0, 0, true) && FirstFit(h, 0, true, 0) == Some(0);
    AllocateCorrect(h, 0xFFFF_FFFF, {});
  }

  lemma TakenCorrect(h: Heap, i: nat, n: nat)
    requires Inv(h) && i < |h.blocks| && Suits(h, i, n, false)
    ensures var t := h.blocks[i].start;
            && Inv(Taken(h, i, n)) && !Allocated(h, t)
            && forall s, e :: InUse(Taken(h, i, n), s, e) <==> InUse(h, s, e) || (s == t && e == t + HEADER + n)
  {
    var t := h.blocks[i].start;
    TakenInv(h, i, n);
    forall s, e ensures InUse(Taken(h, i, n), s, e) <==> InUse(h, s, e) || (s == t && e == t + HEADER + n) {
      TakenInUse(h, i, n, s, e);
    }
    TiledStrict(h.blocks, h.max, HEADER);
  }

  /** A block that is handed out without collecting and freed again leaves the heap as it was. */
  lemma TakenThenFreed(h: Heap, i: nat, n: nat)
    requires Inv(h) && i < |h.blocks| && Suits(h, i, n, false)
    ensures Freed(Taken(h, i, n), i) == h
  {
    var h1 := Taken(h, i, n);
    var h2 := h1.(blocks := Mark(h1.blocks, i, false));
    assert Merge(h2.blocks, i) == h.blocks;
    assert i > 0 ==> h.blocks[i - 1].used;
  }

  // ---- Runs ----

  datatype Event = AllocateEv(size: u32, pinned: set<nat>) | FreeEv(s: nat) | GcEv(pinned: set<nat>)

  ghost predicate Permitted(h: Heap, e: Event) {
    match e
    case AllocateEv(size, _) => InWord(Rounded(size))
    case FreeEv(s) => Allocated(h, s)
    case GcEv(_) => true
  }

  ghost function Next(h: Heap, e: Event): Heap {
    match e
    case AllocateEv(size, pinned) => Allocate(h, size, pinned).0
    case FreeEv(s) => FreedAt(h, s)
    case GcEv(pinned) => Gc(h, pinned)
  }

  ghost predicate PermittedRun(h: Heap, es: seq<Event>)
    decreases |es|
  {
    es == [] || (Permitted(h, es[0]) && PermittedRun(Next(h, es[0]), es[1..]))
  }

  ghost function AfterRun(h: Heap, es: seq<Event>): Heap
    decreases |es|
  {
    if es == [] then h else AfterRun(Next(h, es[0]), es[1..])
  }

  lemma {:induction false} RunInv(h: Heap, es: seq<Event>)
    requires Inv(h) && PermittedRun(h, es)
    ensures Inv(AfterRun(h, es))
    decreases |es|
  {
    hide Inv, Allocate, FreedAt, Gc, InUse;
    if es != [] {
      match es[0]
      case AllocateEv(size, pinned) =>
        AllocateCorrect(h, size, pinned);
        RunInv(Next(h, es[0]), es[1..]);
      case FreeEv(s) =>
        var e :| InUse(h, s, e);
        FreeCorrect(h, s, e);
        RunInv(Next(h, es[0]), es[1..]);
      case GcEv(pinned) =>
        GcExact(h, pinned);
        RunInv(Next(h, es[0]), es[1..]);
    }
  }
}

/**
 * The slab zones of slab.c over the page allocator: a zone is a run of pages cut into chunks of
 * one size. Addresses are counted from the start of the heap.
 */
module Slab {
  import opened Base
  import opened Lists
  import Bits
  import Z = ZoneIndex
  import P = Pages

  const PAGE: nat := 4096
  const HEADER: nat := 36
  const RELEASE_THRESH: nat := 2

  /** An entry of the page table: a page of a zone with its distance from the header, or a large block. */
  datatype Usage = Clear | Small(k: nat) | Large(n: nat)

  /** The header of a zone; live holds the chunks that are handed out. */
  datatype Zone = Zone(index: nat, chunk: nat, off: nat, nmax: nat, nfree: nat, uindex: nat,
                       freeChunks: seq<nat>, live: set<nat>)

  /**
   * zones are the zones in use by the number of their first page, lists is zone_array, spare is
   * zone_free; owned and large tell which pages are handed out.
   */
  datatype Heap = Heap(total: nat, zonePages: nat, limit: nat, runs: seq<P.Run>, owned: map<nat, nat>,
                       usage: seq<Usage>, zones: map<nat, Zone>, lists: seq<seq<nat>>, spare: seq<nat>,
                       large: map<nat, nat>)

  datatype Block = Chunk(z: nat, k: nat) | Pages(p: nat)

  // ---- Chunks of one zone ----

  /** Where the chunks start: power of two sizes are aligned to themselves. */
  function Offset(size: nat): nat
    requires size > 0
  {
    if Bits.Or(size, size - 1) + 1 == 2 * size then (HEADER + size - 1) / size * size else (HEADER + 7) / 8 * 8
  }

  /** How many chunks fit behind the header. */
  function Capacity(zoneSize: nat, size: nat): nat
    requires size > 0
  {
    hide Offset;
    if Offset(size) <= zoneSize then (zoneSize - Offset(size)) / size else 0
  }

  /** A new zone, its first chunk handed out. */
  function FreshZone(index: nat, size: nat, zoneSize: nat): Zone
    requires 0 < size
  {
    hide Offset, Capacity;
    var nmax := Capacity(zoneSize, size);
    Zone(index, size, Offset(size), nmax, if nmax == 0 then 0 else nmax - 1, 0, [], {0})
  }

  /** Never used space first, then the list of freed chunks. */
  function TakeChunk(zn: Zone): (Zone, nat)
    requires zn.nfree > 0 && (zn.uindex + 1 == zn.nmax ==> zn.freeChunks != [])
  {
    if zn.uindex + 1 != zn.nmax then
      var k := zn.uindex + 1;
      (zn.(nfree := zn.nfree - 1, uindex := k, live := zn.live + {k}), k)
    else
      var k := zn.freeChunks[0];
      (zn.(nfree := zn.nfree - 1, freeChunks := zn.freeChunks[1..], live := zn.live + {k}), k)
  }

  function PutChunk(zn: Zone, k: nat): Zone {
    zn.(nfree := zn.nfree + 1, freeChunks := [k] + zn.freeChunks, live := zn.live - {k})
  }

  /** Every chunk is live, on the free list, or above uindex, and only one of these; nfree counts the last two. */
  ghost predicate Accounted(zn: Zone) {
    && zn.uindex < zn.nmax
    && NoDup(zn.freeChunks)
    && (forall k: nat :: k <= zn.uindex <==> k in zn.live || k in zn.freeChunks)
    && (forall k <- zn.live :: k !in zn.freeChunks)
    && zn.nfree == zn.nmax - 1 - zn.uindex + |zn.freeChunks|
  }

  lemma FreshAccounted(index: nat, size: nat, zoneSize: nat)
    requires 0 < size && Capacity(zoneSize, size) >= 1
    ensures Accounted(FreshZone(index, size, zoneSize))
  {
  }

  lemma TakeAccounted(zn: Zone)
    requires Accounted(zn) && zn.nfree > 0
    ensures zn.uindex + 1 == zn.nmax ==> zn.freeChunks != []
    ensures var (zn', k) := TakeChunk(zn); Accounted(zn') && k !in zn.live && k < zn.nmax
  {
    var k := zn.uindex + 1;
    if k == zn.nmax {
      var f := zn.freeChunks;
      PopNoDup(f);
      forall j: nat ensures j <= zn.uindex <==> j in zn.live + {f[0]} || j in f[1..] {
        assert j <= zn.uindex <==> j in zn.live || j in f;
      }
    } else {
      assert k !in zn.live && k !in zn.freeChunks;
      forall j: nat ensures j <= k <==> j in zn.live + {k} || j in zn.freeChunks {
        assert j <= zn.uindex <==> j in zn.live || j in zn.freeChunks;
      }
    }
  }

  lemma PutAccounted(zn: Zone, k: nat)
    requires Accounted(zn) && k in zn.live
    ensures Accounted(PutChunk(zn, k))
  {
  }

  /** The numbers below n. */
  ghost function Below(n: nat): (r: set<nat>)
    ensures |r| == n && forall k: nat :: k in r <==> k < n
  {
    if n == 0 then {} else Below(n - 1) + {n - 1}
  }

  /** nfree and the live chunks add up to the chunks of the zone. */
  lemma CountsAddUp(zn: Zone)
    requires Accounted(zn)
    ensures |zn.live| + zn.nfree == zn.nmax
  {
    Distinct(zn.freeChunks);
    assert Below(zn.uindex + 1) == zn.live + Elements(zn.freeChunks);
    assert zn.live * Elements(zn.freeChunks) == {};
  }

  // ---- Geometry ----

  /** What the constants and sizes promise. */
  ghost predicate Sized(zn: Zone, zonePages: nat) {
    && zn.index < Z.NZONES && zn.chunk == Z.ChunkOf(zn.index)
    && zn.off == Offset(zn.chunk) && HEADER <= zn.off <= zonePages * PAGE
    && zn.nmax == Capacity(zonePages * PAGE, zn.chunk)
  }

  predicate ZoneSize(pages: nat, limit: nat) {
    (pages == 8 && limit == 8192) || ((pages == 16 || pages == 32) && limit == 16384)
  }

  lemma OffsetBounds(size: nat)
    requires size >= 8 && size % 8 == 0
    ensures HEADER <= Offset(size) <= if size < 64 then 64 else size
  {
    hide Bits.Or;
    if size == 8 || size == 16 || size == 24 || size == 32 {
    } else {
      OnlyOnce(HEADER + size - 1, size);
    }
  }

  lemma OnlyOnce(a: nat, c: nat)
    requires 0 < c <= a < 2 * c
    ensures a / c == 1
  {
  }

  lemma {:induction false} Times(j: nat, k: nat, c: nat)
    requires j < k
    ensures j * c + c <= k * c
    decreases k
  {
    assert k * c == (k - 1) * c + c;
    if j < k - 1 {
      Times(j, k - 1, c);
    }
  }

  lemma Quotient(a: nat, c: nat)
    requires c > 0
    ensures a / c * c <= a < a / c * c + c
  {
  }

  /** Every zone holds at least three chunks, so a new zone has chunks left after its first one. */
  lemma AtLeastThree(i: nat, pages: nat, limit: nat)
    requires i < Z.NZONES && ZoneSize(pages, limit) && Z.ChunkOf(i) <= limit
    ensures HEADER <= Offset(Z.ChunkOf(i)) <= pages * PAGE
    ensures Capacity(pages * PAGE, Z.ChunkOf(i)) >= 3
  {
    hide Bits.Or, Offset;
    var c := Z.ChunkOf(i);
    OffsetBounds(c);
    DivAtLeast(pages * PAGE - Offset(c), c, 3);
  }

  lemma DivAtLeast(a: nat, c: nat, n: nat)
    requires c > 0 && a >= n * c
    ensures a / c >= n
  {
    Quotient(a, c);
    if a / c < n {
      Times(a / c, n, c);
    }
  }

  /** The address of chunk k of the zone at page z. */
  function AddrIn(z: nat, zn: Zone, k: nat): nat {
    z * PAGE + zn.off + k * zn.chunk
  }

  /** A chunk lies in its zone behind the header. */
  lemma InsideZone(z: nat, zn: Zone, k: nat, zonePages: nat)
    requires Sized(zn, zonePages) && k < zn.nmax
    ensures z * PAGE + HEADER <= AddrIn(z, zn, k)
    ensures AddrIn(z, zn, k) + zn.chunk <= (z + zonePages) * PAGE
  {
    Quotient(zonePages * PAGE - zn.off, zn.chunk);
    hide Sized;
    Times(k, zn.nmax, zn.chunk);
  }

  /** Different chunks of a zone do not overlap. */
  lemma ChunksApart(z: nat, zn: Zone, j: nat, k: nat)
    requires j < k
    ensures AddrIn(z, zn, j) + zn.chunk <= AddrIn(z, zn, k)
  {
    Times(j, k, zn.chunk);
  }

  // ---- The heap ----

  /** Pages p to p + n take an entry each: the distance from p. */
  function MarkZone(usage: seq<Usage>, z: nat, n: nat): (r: seq<Usage>)
    ensures |r| == |usage|
    ensures forall i :: 0 <= i < |usage| ==> r[i] == if z <= i < z + n then Small(i - z) else usage[i]
  {
    seq(|usage|, i requires 0 <= i < |usage| => if z <= i < z + n then Small(i - z) else usage[i])
  }

  function ClearZone(usage: seq<Usage>, z: nat, n: nat): (r: seq<Usage>)
    ensures |r| == |usage|
    ensures forall i :: 0 <= i < |usage| ==> r[i] == if z <= i < z + n then Clear else usage[i]
  {
    seq(|usage|, i requires 0 <= i < |usage| => if z <= i < z + n then Clear else usage[i])
  }

  /** The pages of a large request; rounding up wraps around in 32 bits. */
  function PagesFor(size: u32): nat {
    Wrap(size + PAGE - 1) / PAGE
  }

  function MallocLarge(h: Heap, size: u32): (Heap, Option<Block>) {
    var n := PagesFor(size);
    if n == 0 then (h, None)
    else
      match P.Take(h.runs, n)
      case (None, _) => (h, None)
      case (Some(p), rest) =>
        if p < |h.usage| then
          (h.(runs := rest, owned := h.owned[p := n], large := h.large[p := n], usage := h.usage[p := Large(n)]),
           Some(Pages(p)))
        else (h, None)
  }

  /** A chunk of the first zone of the list; the zone leaves the list with its last free chunk. */
  function FromList(h: Heap, i: nat): (Heap, Option<Block>)
    requires i < |h.lists| && h.lists[i] != [] && h.lists[i][0] in h.zones
    requires var zn := h.zones[h.lists[i][0]]; zn.nfree > 0 && (zn.uindex + 1 == zn.nmax ==> zn.freeChunks != [])
  {
    var z := h.lists[i][0];
    var (zn, k) := TakeChunk(h.zones[z]);
    (h.(zones := h.zones[z := zn], lists := if zn.nfree == 0 then h.lists[i := h.lists[i][1..]] else h.lists),
     Some(Chunk(z, k)))
  }

  /** Pages z on become a zone at the head of its list. */
  function NewZone(h: Heap, z: nat, i: nat, size: nat): (Heap, Option<Block>)
    requires i < |h.lists| && 0 < size
  {
    (h.(zones := h.zones[z := FreshZone(i, size, h.zonePages * PAGE)], lists := h.lists[i := [z] + h.lists[i]]),
     Some(Chunk(z, 0)))
  }

  function FromPages(h: Heap, i: nat, size: nat): (Heap, Option<Block>)
    requires i < |h.lists| && 0 < size
  {
    match P.Take(h.runs, h.zonePages)
    case (None, _) => (h, None)
    case (Some(z), rest) =>
      NewZone(h.(runs := rest, owned := h.owned[z := h.zonePages],
          usage := MarkZone(h.usage, z, h.zonePages)), z, i, size)
  }

  function FromSpare(h: Heap, i: nat, size: nat): (Heap, Option<Block>)
    requires i < |h.lists| && 0 < size && h.spare != []
  {
    NewZone(h.(spare := h.spare[1..]), h.spare[0], i, size)
  }

  /** rt_malloc. */
  ghost function Malloc(h: Heap, size: u32): (Heap, Option<Block>)
    requires Inv(h)
  {
    if size == 0 then (h, None)
    else if size >= h.limit then MallocLarge(h, size)
    else
      Z.Fits(size);
      var (i, c) := (Z.Index(size), Z.ChunkSize(size));
      if h.lists[i] != [] then
        HeadReady(h, i);
        FromList(h, i)
      else if h.spare != [] then FromSpare(h, i, c)
      else FromPages(h, i, c)
  }

  /** A zone whose chunks are all free leaves zone_array for zone_free; a third one there is given back. */
  function Retired(h: Heap, z: nat): Heap
    requires z in h.zones && h.zones[z].index < |h.lists|
  {
    var i := h.zones[z].index;
    var h1 := h.(zones := h.zones - {z}, lists := h.lists[i := Without(h.lists[i], z)], spare := [z] + h.spare);
    if |h1.spare| > RELEASE_THRESH then
      h1.(spare := h1.spare[1..], usage := ClearZone(h.usage, z, h.zonePages),
          owned := h.owned - {z}, runs := P.Put(h.runs, z, h.zonePages))
    else h1
  }

  /** The chunk goes on the free list of its zone; a zone that was exhausted comes first in its list again. */
  function PutBack(h: Heap, z: nat, k: nat): Heap
    requires z in h.zones && h.zones[z].index < |h.lists|
  {
    var zn := h.zones[z];
    h.(zones := h.zones[z := PutChunk(zn, k)],
       lists := if zn.nfree == 0 then h.lists[zn.index := [z] + h.lists[zn.index]] else h.lists)
  }

  /** A zone that is all free is retired unless it is the only one of its list. */
  predicate ToRetire(h: Heap, z: nat)
    requires z in h.zones && h.zones[z].index < |h.lists|
  {
    h.zones[z].nfree == h.zones[z].nmax && h.lists[h.zones[z].index] != [z]
  }

  function FreeChunk(h: Heap, z: nat, k: nat): Heap
    requires z in h.zones && h.zones[z].index < |h.lists|
  {
    var h1 := PutBack(h, z, k);
    if ToRetire(h1, z) then Retired(h1, z) else h1
  }

  function FreeLarge(h: Heap, p: nat): Heap
    requires p in h.large && p < |h.usage|
  {
    h.(runs := P.Put(h.runs, p, h.large[p]), owned := h.owned - {p}, large := h.large - {p},
       usage := h.usage[p := Large(0)])
  }

  ghost predicate Live(h: Heap, b: Block) {
    match b
    case Chunk(z, k) => z in h.zones && k in h.zones[z].live
    case Pages(p) => p in h.large
  }

  /** rt_free of a live block. */
  ghost function Free(h: Heap, b: Block): Heap
    requires Inv(h) && Live(h, b)
  {
    match b
    case Chunk(z, k) =>
      FreeChunkInv(h, z, k);
      FreeChunk(h, z, k)
    case Pages(p) =>
      FreeLargeInv(h, p);
      FreeLarge(h, p)
  }

  // ---- Invariant ----

  /** What is owned is not free, and no two owners share a page. */
  ghost predicate SpansOk(runs: seq<P.Run>, owned: map<nat, nat>, total: nat) {
    && P.Canonical(runs)
    && (forall q: nat :: P.Free(runs, q) ==> q < total)
    && (forall a <- owned :: owned[a] >= 1 && a + owned[a] <= total)
    && (forall a, q: nat :: a in owned && a <= q < a + owned[a] ==> !P.Free(runs, q))
    && (forall a, b :: a in owned && b in owned && a < b ==> a + owned[a] <= b)
  }

  /** zone_array[i] lists exactly the zones in use of index i with free chunks. */
  ghost predicate ListsOk(zones: map<nat, Zone>, lists: seq<seq<nat>>) {
    && |lists| == Z.NZONES
    && (forall i :: 0 <= i < |lists| ==> NoDup(lists[i]))
    && (forall i, z :: 0 <= i < |lists| && z in lists[i] ==> z in zones && zones[z].index == i && zones[z].nfree > 0)
    && (forall z <- zones :: zones[z].index < |lists| && (zones[z].nfree > 0 ==> z in lists[zones[z].index]))
  }

  ghost predicate ZonesOk(zones: map<nat, Zone>, zonePages: nat) {
    forall z <- zones :: Accounted(zones[z]) && Sized(zones[z], zonePages)
  }

  /** Zones and spare zones own their pages, and the page table leads from each page to its zone. */
  ghost predicate TableOk(usage: seq<Usage>, owned: map<nat, nat>, heads: set<nat>, zonePages: nat) {
    && (forall z <- heads :: z in owned && owned[z] == zonePages && z + zonePages <= |usage|)
    && forall z, p :: z in heads && z <= p < z + zonePages ==> usage[p] == Small(p - z)
  }

  ghost predicate LargeOk(usage: seq<Usage>, owned: map<nat, nat>, large: map<nat, nat>) {
    forall p <- large :: p in owned && owned[p] == large[p] && p < |usage| && usage[p] == Large(large[p])
  }

  ghost predicate SpareOk(spare: seq<nat>, zones: map<nat, Zone>) {
    NoDup(spare) && |spare| <= RELEASE_THRESH && forall z <- spare :: z !in zones
  }

  ghost function Heads(h: Heap): set<nat> {
    h.zones.Keys + Elements(h.spare)
  }

  ghost predicate Inv(h: Heap) {
    && ZoneSize(h.zonePages, h.limit) && |h.usage| == h.total
    && SpansOk(h.runs, h.owned, h.total)
    && ZonesOk(h.zones, h.zonePages)
    && ListsOk(h.zones, h.lists)
    && SpareOk(h.spare, h.zones)
    && TableOk(h.usage, h.owned, Heads(h), h.zonePages)
    && LargeOk(h.usage, h.owned, h.large)
  }

  lemma HeadReady(h: Heap, i: nat)
    requires Inv(h) && i < |h.lists| && h.lists[i] != []
    ensures h.lists[i][0] in h.zones
    ensures var zn := h.zones[h.lists[i][0]]; zn.nfree > 0 && (zn.uindex + 1 == zn.nmax ==> zn.freeChunks != [])
  {
    assert h.lists[i][0] in h.lists[i];
    TakeAccounted(h.zones[h.lists[i][0]]);
  }

  // ---- Pages change hands ----

  /** Nobody owns a page of [p, p + n). */
  ghost predicate Unowned(owned: map<nat, nat>, p: nat, n: nat) {
    forall a <- owned :: a + owned[a] <= p || p + n <= a
  }

  lemma SpanTaken(runs: seq<P.Run>, owned: map<nat, nat>, total: nat, n: nat)
    requires SpansOk(runs, owned, total) && n > 0
    ensures var (p, rest) := P.Take(runs, n);
            && (p.None? ==> rest == runs)
            && (p.Some? ==>
              && p.value + n <= total && Unowned(owned, p.value, n)
              && SpansOk(rest, owned[p.value := n], total))
  {
    hide P.Free, P.Canonical, P.Take;
    P.TakeLowest(runs, n);
    var (p, rest) := P.Take(runs, n);
    if p.Some? {
      var z := p.value;
      assert P.Free(runs, z) && P.Free(runs, z + n - 1);
      forall a <- owned ensures a + owned[a] <= z || z + n <= a {
        NotInside(runs, z, n, a);
      }
    }
  }

  lemma NotInside(runs: seq<P.Run>, z: nat, n: nat, a: nat)
    requires P.FreeSpan(runs, z, n) && !P.Free(runs, a)
    ensures a < z || z + n <= a
  {
  }

  lemma SpanGiven(runs: seq<P.Run>, owned: map<nat, nat>, total: nat, p: nat)
    requires SpansOk(runs, owned, total) && p in owned
    ensures SpansOk(P.Put(runs, p, owned[p]), owned - {p}, total)
  {
    hide P.Free, P.Canonical, P.Put;
    P.PutUnion(runs, p, owned[p]);
  }

  // ---- The page table ----

  lemma MarkedTable(h: Heap, z: nat)
    requires TableOk(h.usage, h.owned, Heads(h), h.zonePages) && LargeOk(h.usage, h.owned, h.large)
    requires Unowned(h.owned, z, h.zonePages) && z + h.zonePages <= |h.usage| && h.zonePages > 0
    requires forall a <- h.owned :: h.owned[a] >= 1
    ensures var (u, o) := (MarkZone(h.usage, z, h.zonePages), h.owned[z := h.zonePages]);
            TableOk(u, o, Heads(h) + {z}, h.zonePages) && LargeOk(u, o, h.large)
  {
    hide Heads;
    var (u, o) := (MarkZone(h.usage, z, h.zonePages), h.owned[z := h.zonePages]);
    forall y, p | y in Heads(h) + {z} && y <= p < y + h.zonePages ensures u[p] == Small(p - y) {
      if y != z {
        assert h.usage[p] == Small(p - y) && y in h.owned;
      }
    }
  }

  lemma ClearedTable(h: Heap, z: nat, heads: set<nat>)
    requires TableOk(h.usage, h.owned, heads, h.zonePages) && LargeOk(h.usage, h.owned, h.large)
    requires z in heads
    requires forall a, b :: a in h.owned && b in h.owned && a < b ==> a + h.owned[a] <= b
    requires forall a <- h.owned :: h.owned[a] >= 1
    ensures var (u, o) := (ClearZone(h.usage, z, h.zonePages), h.owned - {z});
            TableOk(u, o, heads - {z}, h.zonePages) && LargeOk(u, o, h.large)
  {
    var (u, o) := (ClearZone(h.usage, z, h.zonePages), h.owned - {z});
    forall y, p | y in heads - {z} && y <= p < y + h.zonePages ensures u[p] == Small(p - y) {
      assert h.usage[p] == Small(p - y);
      assert y in h.owned && z in h.owned;
    }
    forall p <- h.large ensures p in o && o[p] == h.large[p] && p < |u| && u[p] == Large(h.large[p]) {
    }
  }

  lemma LargeTable(h: Heap, p: nat, n: nat)
    requires TableOk(h.usage, h.owned, Heads(h), h.zonePages) && LargeOk(h.usage, h.owned, h.large)
    requires Unowned(h.owned, p, n) && n > 0 && p < |h.usage|
    requires forall a <- h.owned :: h.owned[a] >= 1
    ensures TableOk(h.usage[p := Large(n)], h.owned[p := n], Heads(h), h.zonePages)
    ensures LargeOk(h.usage[p := Large(n)], h.owned[p := n], h.large[p := n])
  {
    hide Heads;
    var u := h.usage[p := Large(n)];
    forall y, q | y in Heads(h) && y <= q < y + h.zonePages ensures u[q] == Small(q - y) {
      assert h.usage[q] == Small(q - y) && y in h.owned;
    }
  }

  lemma LargeGone(h: Heap, p: nat)
    requires TableOk(h.usage, h.owned, Heads(h), h.zonePages) && LargeOk(h.usage, h.owned, h.large)
    requires p in h.large && p < |h.usage| && h.zonePages > 0
    ensures TableOk(h.usage[p := Large(0)], h.owned - {p}, Heads(h), h.zonePages)
    ensures LargeOk(h.usage[p := Large(0)], h.owned - {p}, h.large - {p})
  {
    hide Heads;
    var u := h.usage[p := Large(0)];
    forall y, q | y in Heads(h) && y <= q < y + h.zonePages ensures u[q] == Small(q - y) {
      assert h.usage[q] == Small(q - y);
    }
  }

  // ---- Lists of zones ----

  /** A zone of a list loses a chunk; the head leaves with its last one. */
  lemma ListsAfterTake(zones: map<nat, Zone>, lists: seq<seq<nat>>, i: nat, zn: Zone)
    requires ListsOk(zones, lists) && i < |lists| && lists[i] != []
    requires lists[i][0] in zones ==> zn.index == zones[lists[i][0]].index
    ensures ListsOk(zones[lists[i][0] := zn], if zn.nfree == 0 then lists[i := lists[i][1..]] else lists)
  {
    var xs := lists[i];
    assert xs == [xs[0]] + xs[1..] && xs[0] in xs;
    forall j | 0 <= j < |lists| && xs[0] in lists[j] ensures j == i {
    }
  }

  /** A zone that is in no list, with free chunks, comes first. */
  lemma ListsAfterPush(zones: map<nat, Zone>, lists: seq<seq<nat>>, z: nat, zn: Zone)
    requires ListsOk(zones, lists) && zn.index < |lists| && zn.nfree > 0
    requires z in zones ==> zones[z].nfree == 0 && zones[z].index == zn.index
    ensures ListsOk(zones[z := zn], lists[zn.index := [z] + lists[zn.index]])
  {
    var xs := lists[zn.index];
    var ls := lists[zn.index := [z] + xs];
    assert z !in xs;
    assert forall x :: x in [z] + xs <==> x == z || x in xs;
  }

  /** A zone that keeps free chunks stays where it is. */
  lemma ListsSame(zones: map<nat, Zone>, lists: seq<seq<nat>>, z: nat, zn: Zone)
    requires ListsOk(zones, lists) && z in zones && zn.index == zones[z].index
    requires zn.nfree > 0 && zones[z].nfree > 0
    ensures ListsOk(zones[z := zn], lists)
  {
    hide NoDup;
  }

  lemma ListsAfterRetire(zones: map<nat, Zone>, lists: seq<seq<nat>>, z: nat)
    requires ListsOk(zones, lists) && z in zones
    ensures var i := zones[z].index; ListsOk(zones - {z}, lists[i := Without(lists[i], z)])
  {
    hide NoDup, Without;
    var (i, xs) := (zones[z].index, Without(lists[zones[z].index], z));
    WithoutMembers(lists[i], z);
    WithoutNoDup(lists[i], z);
    var ls := lists[i := xs];
    forall j | 0 <= j < |ls| ensures NoDup(ls[j]) && forall x :: x in ls[j] <==> x in lists[j] && x != z {
      if j != i && z in lists[j] { assert false; }
    }
  }

  // ---- Each operation keeps the invariant, and hands out what nobody has ----

  lemma NewZoneInv(h: Heap, z: nat, i: nat)
    requires i < Z.NZONES && Z.ChunkOf(i) <= h.limit && |h.lists| == Z.NZONES && h.lists[i] == []
    requires ZoneSize(h.zonePages, h.limit) && |h.usage| == h.total
    requires SpansOk(h.runs, h.owned, h.total) && ZonesOk(h.zones, h.zonePages) && ListsOk(h.zones, h.lists)
    requires SpareOk(h.spare, h.zones) && z !in h.zones && z !in h.spare
    requires TableOk(h.usage, h.owned, Heads(h) + {z}, h.zonePages) && LargeOk(h.usage, h.owned, h.large)
    ensures var (h', b) := NewZone(h, z, i, Z.ChunkOf(i));
            && Inv(h') && b == Some(Chunk(z, 0)) && Live(h', b.value) && Owns(h', b.value, Z.ChunkOf(i))
  {
    hide SpansOk, LargeOk, NoDup, TableOk, ListsOk, Offset, Capacity;
    AtLeastThree(i, h.zonePages, h.limit);
    var c := Z.ChunkOf(i);
    var zn := FreshZone(i, c, h.zonePages * PAGE);
    FreshAccounted(i, c, h.zonePages * PAGE);
    ListsAfterPush(h.zones, h.lists, z, zn);
    var h' := NewZone(h, z, i, c).0;
    assert Heads(h') == Heads(h) + {z};
  }

  /** The block is at least size bytes. */
  ghost predicate Owns(h: Heap, b: Block, size: nat) {
    match b
    case Chunk(z, _) => z in h.zones && size <= h.zones[z].chunk
    case Pages(p) => p in h.large && size <= h.large[p] * PAGE
  }

  /** A zone whose counters change consistently. */
  lemma ZoneChanges(h: Heap, z: nat, zn: Zone, lists: seq<seq<nat>>)
    requires Inv(h) && z in h.zones && Accounted(zn) && ListsOk(h.zones[z := zn], lists)
    requires zn == h.zones[z].(nfree := zn.nfree, uindex := zn.uindex, freeChunks := zn.freeChunks, live := zn.live)
    ensures Inv(h.(zones := h.zones[z := zn], lists := lists))
  {
    hide SpansOk, LargeOk, NoDup, TableOk, ListsOk, Offset, Capacity, Accounted;
    assert Heads(h.(zones := h.zones[z := zn], lists := lists)) == Heads(h);
  }

  /** What the invariant says of one zone. */
  lemma ZoneFacts(h: Heap, z: nat)
    requires Inv(h) && z in h.zones
    ensures Accounted(h.zones[z]) && Sized(h.zones[z], h.zonePages) && ListsOk(h.zones, h.lists)
    ensures h.zones[z].index < |h.lists| == Z.NZONES
  {
  }

  lemma FromListInv(h: Heap, i: nat)
    requires Inv(h) && i < Z.NZONES && h.lists[i] != []
    ensures h.lists[i][0] in h.zones
    ensures var zn := h.zones[h.lists[i][0]]; zn.nfree > 0 && (zn.uindex + 1 == zn.nmax ==> zn.freeChunks != [])
    ensures var (h', b) := FromList(h, i);
            && Inv(h') && b.Some? && !Live(h, b.value) && Live(h', b.value) && Owns(h', b.value, Z.ChunkOf(i))
  {
    HeadReady(h, i);
    var z := h.lists[i][0];
    ZoneFacts(h, z);
    assert h.zones[z].index == i by { assert z in h.lists[i]; }
    hide Inv;
    var (zn, k) := TakeChunk(h.zones[z]);
    TakeAccounted(h.zones[z]);
    ListsAfterTake(h.zones, h.lists, i, zn);
    hide Accounted, ListsOk;
    ZoneChanges(h, z, zn, if zn.nfree == 0 then h.lists[i := h.lists[i][1..]] else h.lists);
  }

  lemma FromSpareInv(h: Heap, i: nat)
    requires Inv(h) && i < Z.NZONES && Z.ChunkOf(i) <= h.limit && h.lists[i] == [] && h.spare != []
    ensures var (h', b) := FromSpare(h, i, Z.ChunkOf(i));
            && Inv(h') && b.Some? && !Live(h, b.value) && Live(h', b.value) && Owns(h', b.value, Z.ChunkOf(i))
  {
    var z := h.spare[0];
    var h1 := h.(spare := h.spare[1..]);
    assert h.spare == [z] + h.spare[1..];
    assert Heads(h1) + {z} == Heads(h);
    NewZoneInv(h1, z, i);
  }

  lemma FromPagesInv(h: Heap, i: nat)
    requires Inv(h) && i < Z.NZONES && Z.ChunkOf(i) <= h.limit && h.lists[i] == []
    ensures var (h', b) := FromPages(h, i, Z.ChunkOf(i));
            && Inv(h') && (b.None? ==> h' == h)
            && (b.Some? ==> !Live(h, b.value) && Live(h', b.value) && Owns(h', b.value, Z.ChunkOf(i)))
  {
    assert |h.lists| == Z.NZONES;
    hide NoDup, ListsOk, ZonesOk;
    SpanTaken(h.runs, h.owned, h.total, h.zonePages);
    match P.Take(h.runs, h.zonePages)
    case (None, _) => {}
    case (Some(z), rest) =>
      MarkedTable(h, z);
      var h1 := h.(runs := rest, owned := h.owned[z := h.zonePages], usage := MarkZone(h.usage, z, h.zonePages));
      assert z !in Heads(h);
      hide SpansOk, TableOk, LargeOk;
      assert Heads(h1) == Heads(h);
      NewZoneInv(h1, z, i);
  }

  lemma MallocLargeInv(h: Heap, size: u32)
    requires Inv(h) && 0 < size
    ensures var (h', b) := MallocLarge(h, size);
            && Inv(h') && (b.None? ==> h' == h)
            && (b.Some? ==> !Live(h, b.value) && Live(h', b.value) && Owns(h', b.value, size))
  {
    hide NoDup, ListsOk, ZonesOk;
    var n := PagesFor(size);
    if n > 0 {
      SpanTaken(h.runs, h.owned, h.total, n);
      match P.Take(h.runs, n)
      case (None, _) => {}
      case (Some(p), rest) =>
        LargeTable(h, p, n);
        assert p !in h.owned;
        hide SpansOk, TableOk;
        assert Heads(MallocLarge(h, size).0) == Heads(h);
    }
  }

  lemma RetiredInv(h: Heap, z: nat)
    requires Inv(h) && z in h.zones
    ensures h.zones[z].index < |h.lists| && Inv(Retired(h, z))
  {
    hide NoDup, P.Put, Accounted, Sized, LargeOk, SpareOk;
    var i := h.zones[z].index;
    ListsAfterRetire(h.zones, h.lists, z);
    assert z in Heads(h);
    SpanGiven(h.runs, h.owned, h.total, z);
    ClearedTable(h, z, Heads(h));
    hide ListsOk, TableOk, SpansOk, LargeOk, Accounted, Sized;
    var h' := Retired(h, z);
    SpareWith(h.spare, h.zones, z);
    if |h.spare| + 1 > RELEASE_THRESH {
      assert h'.spare == h.spare;
      assert Heads(h') == Heads(h) - {z};
    } else {
      assert Heads(h') == Heads(h);
    }
  }

  /**
   * A retired zone is in no list any more. It is kept as a spare one while there are few; else
   * exactly its pages become free, and the page table forgets them.
   */
  lemma RetiredPlace(h: Heap, z: nat)
    requires Inv(h) && z in h.zones
    ensures h.zones[z].index < |h.lists|
    ensures var h' := Retired(h, z);
            && z !in h'.zones && (forall i :: 0 <= i < |h'.lists| ==> z !in h'.lists[i])
            && if |h.spare| < RELEASE_THRESH then h'.spare == [z] + h.spare && h'.runs == h.runs && h'.owned == h.owned
               else
                 && h'.spare == h.spare && z !in h'.owned && |h'.usage| == |h.usage|
                 && (forall q: nat :: P.Free(h'.runs, q) <==> P.Free(h.runs, q) || z <= q < z + h.zonePages)
                 && forall q :: 0 <= q < |h.usage| ==>
                      h'.usage[q] == if z <= q < z + h.zonePages then Clear else h.usage[q]
  {
    hide NoDup, P.Put, P.Free, P.Canonical, Accounted, Sized, LargeOk;
    var (i, h') := (h.zones[z].index, Retired(h, z));
    assert z in Heads(h);
    WithoutMembers(h.lists[i], z);
    P.PutUnion(h.runs, z, h.zonePages);
    forall j | 0 <= j < |h'.lists| ensures z !in h'.lists[j] {
      if j != i && z in h.lists[j] { assert false; }
    }
    if |h.spare| >= RELEASE_THRESH {
      assert ([z] + h.spare)[1..] == h.spare;
    }
  }

  lemma SpareWith(spare: seq<nat>, zones: map<nat, Zone>, z: nat)
    requires SpareOk(spare, zones) && z in zones
    ensures SpareOk(spare, zones - {z}) && z !in spare
    ensures |spare| < RELEASE_THRESH ==> SpareOk([z] + spare, zones - {z})
  {
  }

  lemma PutBackInv(h: Heap, z: nat, k: nat)
    requires Inv(h) && z in h.zones && k in h.zones[z].live
    ensures h.zones[z].index < |h.lists| && Inv(PutBack(h, z, k))
  {
    ZoneFacts(h, z);
    hide Inv;
    var (zn, zn') := (h.zones[z], PutChunk(h.zones[z], k));
    PutAccounted(zn, k);
    hide Accounted, Sized;
    if zn.nfree == 0 {
      ListsAfterPush(h.zones, h.lists, z, zn');
    } else {
      ListsSame(h.zones, h.lists, z, zn');
    }
    hide ListsOk;
    ZoneChanges(h, z, zn', PutBack(h, z, k).lists);
  }

  lemma FreeChunkInv(h: Heap, z: nat, k: nat)
    requires Inv(h) && z in h.zones && k in h.zones[z].live
    ensures h.zones[z].index < |h.lists| && Inv(FreeChunk(h, z, k))
  {
    PutBackInv(h, z, k);
    hide Inv, Retired;
    if ToRetire(PutBack(h, z, k), z) {
      RetiredInv(PutBack(h, z, k), z);
    }
  }

  lemma FreeLargeInv(h: Heap, p: nat)
    requires Inv(h) && p in h.large
    ensures p < |h.usage| && Inv(FreeLarge(h, p))
  {
    hide NoDup, ListsOk, ZonesOk, P.Put;
    SpanGiven(h.runs, h.owned, h.total, p);
    LargeGone(h, p);
    hide SpansOk, TableOk;
    assert Heads(FreeLarge(h, p)) == Heads(h);
  }

  // ---- Blocks ----

  /** The bytes of a block. */
  ghost function Extent(h: Heap, b: Block): (int, nat)
    requires Live(h, b)
  {
    match b
    case Chunk(z, k) => (AddrIn(z, h.zones[z], k), h.zones[z].chunk)
    case Pages(p) => (p * PAGE, h.large[p] * PAGE)
  }

  /** All blocks but b are live in both states or in neither, at the same place. */
  ghost predicate SameBut(h: Heap, u: Heap, b: Block) {
    forall x: Block :: x != b ==> (Live(u, x) <==> Live(h, x)) && (Live(h, x) ==> Extent(u, x) == Extent(h, x))
  }

  lemma PutBackFrame(h: Heap, z: nat, k: nat)
    requires Live(h, Chunk(z, k)) && h.zones[z].index < |h.lists|
    ensures !Live(PutBack(h, z, k), Chunk(z, k)) && SameBut(h, PutBack(h, z, k), Chunk(z, k))
  {
  }

  /** A retired zone had no live chunk. */
  lemma RetiredFrame(h: Heap, z: nat, b: Block)
    requires z in h.zones && h.zones[z].index < |h.lists| && h.zones[z].live == {}
    ensures SameBut(h, Retired(h, z), b) && (Live(Retired(h, z), b) ==> Live(h, b))
  {
    hide P.Put, AddrIn;
  }

  lemma SameButTwice(h: Heap, u: Heap, v: Heap, b: Block)
    requires SameBut(h, u, b) && SameBut(u, v, b)
    ensures SameBut(h, v, b)
  {
    hide Live, Extent;
  }

  lemma FreeChunkFrame(h: Heap, z: nat, k: nat)
    requires Inv(h) && Live(h, Chunk(z, k)) && h.zones[z].index < |h.lists|
    ensures !Live(FreeChunk(h, z, k), Chunk(z, k)) && SameBut(h, FreeChunk(h, z, k), Chunk(z, k))
  {
    ZoneFacts(h, z);
    PutBackFrame(h, z, k);
    PutAccounted(h.zones[z], k);
    CountsAddUp(PutChunk(h.zones[z], k));
    var h1 := PutBack(h, z, k);
    assert h1.zones == h.zones[z := PutChunk(h.zones[z], k)] && h1.zones[z].index < |h1.lists|;
    hide Inv, Retired, Accounted, SameBut, Live, PutBack, ListsOk, Sized;
    if ToRetire(h1, z) {
      assert h1.zones[z].live == {};
      RetiredFrame(h1, z, Chunk(z, k));
      SameButTwice(h, h1, Retired(h1, z), Chunk(z, k));
    }
  }

  lemma FreeLargeFrame(h: Heap, p: nat)
    requires Inv(h) && p in h.large && p < |h.usage|
    ensures !Live(FreeLarge(h, p), Pages(p)) && SameBut(h, FreeLarge(h, p), Pages(p))
  {
    hide Inv, AddrIn, P.Put;
  }

  /** Freeing a live block keeps the invariant, takes that block away and touches no other. */
  lemma FreeCorrect(h: Heap, b: Block)
    requires Inv(h) && Live(h, b)
    ensures Inv(Free(h, b)) && !Live(Free(h, b), b) && SameBut(h, Free(h, b), b)
  {
    match b
    case Chunk(z, k) =>
      FreeChunkInv(h, z, k);
      FreeChunkFrame(h, z, k);
    case Pages(p) =>
      FreeLargeInv(h, p);
      FreeLargeFrame(h, p);
  }

  lemma FromListFrame(h: Heap, i: nat)
    requires i < |h.lists| && h.lists[i] != [] && h.lists[i][0] in h.zones
    requires var zn := h.zones[h.lists[i][0]]; zn.nfree > 0 && (zn.uindex + 1 == zn.nmax ==> zn.freeChunks != [])
    ensures var (h', b) := FromList(h, i); b.Some? && SameBut(h, h', b.value)
  {
  }

  lemma NewZoneFrame(h: Heap, z: nat, i: nat, size: nat)
    requires i < |h.lists| && 0 < size && z !in h.zones
    ensures SameBut(h, NewZone(h, z, i, size).0, Chunk(z, 0))
  {
    hide AddrIn, Offset, Capacity;
  }

  lemma FromSpareFrame(h: Heap, i: nat, size: nat)
    requires i < |h.lists| && 0 < size && h.spare != [] && SpareOk(h.spare, h.zones)
    ensures var (h', b) := FromSpare(h, i, size); b.Some? && SameBut(h, h', b.value)
  {
    assert h.spare[0] in h.spare;
    NewZoneFrame(h.(spare := h.spare[1..]), h.spare[0], i, size);
    hide AddrIn, Offset, Capacity;
  }

  lemma FromPagesFrame(h: Heap, i: nat, size: nat)
    requires Inv(h) && i < |h.lists| && 0 < size
    ensures var (h', b) := FromPages(h, i, size); b.Some? ==> SameBut(h, h', b.value)
  {
    SpanTaken(h.runs, h.owned, h.total, h.zonePages);
    match P.Take(h.runs, h.zonePages)
    case (None, _) => {}
    case (Some(z), rest) =>
      assert z !in Heads(h);
      var h1 := h.(runs := rest, owned := h.owned[z := h.zonePages], usage := MarkZone(h.usage, z, h.zonePages));
      hide Inv, AddrIn, Offset, Capacity;
      NewZoneFrame(h1, z, i, size);
  }

  lemma MallocLargeFrame(h: Heap, size: u32)
    requires Inv(h) && 0 < size
    ensures var (h', b) := MallocLarge(h, size); b.Some? ==> SameBut(h, h', b.value)
  {
    hide Inv, AddrIn;
  }

  /** A request is granted a block that nobody had and that is large enough, and no other block changes. */
  lemma MallocCorrect(h: Heap, size: u32)
    requires Inv(h)
    ensures var (h', b) := Malloc(h, size);
            && Inv(h')
            && match b
               case None => h' == h
               case Some(x) => !Live(h, x) && Live(h', x) && Owns(h', x, size) && SameBut(h, h', x)
  {
    hide Inv;
    if size == 0 {
    } else if size >= h.limit {
      MallocLargeInv(h, size);
      MallocLargeFrame(h, size);
    } else {
      MallocSmall(h, size);
    }
  }

  lemma MallocSmall(h: Heap, size: u32)
    requires Inv(h) && 0 < size < h.limit
    ensures var (h', b) := Malloc(h, size);
            && Inv(h')
            && match b
               case None => h' == h
               case Some(x) => !Live(h, x) && Live(h', x) && Owns(h', x, size) && SameBut(h, h', x)
  {
    Z.Fits(size);
    Z.OneSizePerIndex(size);
    ChunkWithinLimit(size, h.zonePages, h.limit);
    var i := Z.Index(size);
    assert |h.lists| == Z.NZONES && SpareOk(h.spare, h.zones);
    hide Inv, SameBut, Live, FromList, FromSpare, FromPages, SpareOk, Z.ChunkSize, Z.Index, Z.ChunkOf;
    if h.lists[i] != [] {
      FromListInv(h, i);
      FromListFrame(h, i);
    } else if h.spare != [] {
      FromSpareInv(h, i);
      FromSpareFrame(h, i, Z.ChunkOf(i));
    } else {
      FromPagesInv(h, i);
      FromPagesFrame(h, i, Z.ChunkOf(i));
    }
  }

  /** Rounding up a request below the limit does not pass it. */
  lemma ChunkWithinLimit(n: nat, pages: nat, limit: nat)
    requires 1 <= n < limit && ZoneSize(pages, limit)
    ensures Z.ChunkSize(n) <= limit
  {
    hide Z.Units;
  }

  // ---- Live blocks ----

  /** The page table leads from the address of a live chunk to the header of its zone. */
  lemma PageTableFindsZone(h: Heap, z: nat, k: nat)
    requires Inv(h) && Live(h, Chunk(z, k))
    ensures var p := AddrIn(z, h.zones[z], k) / PAGE;
            p < |h.usage| && h.usage[p].Small? && p - h.usage[p].k == z
  {
    LiveIsChunk(h, z, k);
    InsideZone(z, h.zones[z], k, h.zonePages);
    var p := AddrIn(z, h.zones[z], k) / PAGE;
    assert z in Heads(h);
    hide AddrIn;
    assert z <= p < z + h.zonePages;
    assert h.usage[p] == Small(p - z);
  }

  /** The address of a large block is the first byte of a page the table knows as large. */
  lemma PageTableFindsLarge(h: Heap, p: nat)
    requires Inv(h) && Live(h, Pages(p))
    ensures p < |h.usage| && h.usage[p] == Large(h.large[p]) && h.large[p] >= 1
  {
  }

  lemma LiveIsChunk(h: Heap, z: nat, k: nat)
    requires Inv(h) && Live(h, Chunk(z, k))
    ensures k < h.zones[z].nmax && Sized(h.zones[z], h.zonePages) && h.zones[z].chunk >= 1
  {
    ZoneFacts(h, z);
  }

  /** The pages a block lies in, as an owned span. */
  ghost function Home(b: Block): nat {
    match b
    case Chunk(z, _) => z
    case Pages(p) => p
  }

  lemma AtHome(h: Heap, b: Block)
    requires Inv(h) && Live(h, b)
    ensures Home(b) in h.owned
    ensures Home(b) * PAGE <= Extent(h, b).0
    ensures Extent(h, b).0 + Extent(h, b).1 <= (Home(b) + h.owned[Home(b)]) * PAGE
  {
    match b
    case Chunk(z, k) =>
      LiveIsChunk(h, z, k);
      InsideZone(z, h.zones[z], k, h.zonePages);
      assert z in Heads(h);
    case Pages(p) => {}
  }

  /** No two live blocks share a byte. */
  lemma LiveBlocksApart(h: Heap, a: Block, b: Block)
    requires Inv(h) && Live(h, a) && Live(h, b) && a != b
    ensures var ((s, n), (t, m)) := (Extent(h, a), Extent(h, b)); s + n <= t || t + m <= s
  {
    if Home(a) != Home(b) {
      AtHome(h, a);
      AtHome(h, b);
      hide Extent, Live;
    } else {
      SameHome(h, a, b);
    }
  }

  lemma SameHome(h: Heap, a: Block, b: Block)
    requires Inv(h) && Live(h, a) && Live(h, b) && a != b && Home(a) == Home(b)
    ensures var ((s, n), (t, m)) := (Extent(h, a), Extent(h, b)); s + n <= t || t + m <= s
  {
    var z := Home(a);
    if a.Chunk? && b.Chunk? {
      ChunksApart(z, h.zones[z], if a.k < b.k then a.k else b.k, if a.k < b.k then b.k else a.k);
    } else {
      NotBoth(h, z);
    }
  }

  /** A page is not both the head of a zone and of a large block. */
  lemma NotBoth(h: Heap, z: nat)
    requires Inv(h)
    ensures !(z in h.zones && z in h.large)
  {
    assert z in h.zones ==> z in Heads(h) && h.usage[z] == Small(0);
  }

  // ---- Runs ----

  /** After rt_system_heap_init: the first pages hold the page table, nothing else is handed out. */
  ghost function Booted(total: nat, zonePages: nat, limit: nat, table: nat): Heap {
    Heap(total, zonePages, limit, P.Take(P.Put([], 0, total), table).1, map[0 := table],
         seq(total, _ => Clear), map[], seq(Z.NZONES, _ => []), [], map[])
  }

  lemma BootedInv(total: nat, zonePages: nat, limit: nat, table: nat)
    requires ZoneSize(zonePages, limit) && 0 < table <= total
    ensures Inv(Booted(total, zonePages, limit, table))
  {
    var runs := P.Put([], 0, total);
    P.NothingFree();
    P.PutUnion([], 0, total);
    SpanTaken(runs, map[], total, table);
    P.TakeLowest(runs, table);
    FirstSpan(runs, table, total);
    assert P.Take(runs, table).0 == Some(0);
  }

  lemma FirstSpan(runs: seq<P.Run>, n: nat, total: nat)
    requires n <= total && forall q: nat :: P.Free(runs, q) <==> q < total
    ensures P.FreeSpan(runs, 0, n)
  {
  }

  datatype Event = MallocEv(size: u32) | FreeEv(b: Block)

  ghost predicate PermittedRun(h: Heap, es: seq<Event>)
    requires Inv(h)
    decreases |es|
  {
    es == [] || ((es[0].FreeEv? ==> Live(h, es[0].b)) && (StepInv(h, es[0]); PermittedRun(Next(h, es[0]), es[1..])))
  }

  ghost function Next(h: Heap, e: Event): Heap
    requires Inv(h) && (e.FreeEv? ==> Live(h, e.b))
  {
    match e
    case MallocEv(size) => Malloc(h, size).0
    case FreeEv(b) => Free(h, b)
  }

  lemma StepInv(h: Heap, e: Event)
    requires Inv(h) && (e.FreeEv? ==> Live(h, e.b))
    ensures Inv(Next(h, e))
  {
    match e
    case MallocEv(size) => MallocCorrect(h, size);
    case FreeEv(b) => FreeCorrect(h, b);
  }

  ghost function After(h: Heap, es: seq<Event>): (u: Heap)
    requires Inv(h) && PermittedRun(h, es)
    ensures Inv(u)
    decreases |es|
  {
    if es == [] then h
    else
      StepInv(h, es[0]);
      After(Next(h, es[0]), es[1..])
  }
}

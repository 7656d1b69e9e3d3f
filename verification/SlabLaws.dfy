/**
 * When slab.c grants a request and where the block comes from, when a zone is given up, and how a
 * zone is filled: in terms of free pages and free chunks, not of the lists that are searched.
 */
module SlabLaws {
  import opened Base
  import opened Lists
  import opened Slab
  import Bits
  import P = Pages
  import Z = ZoneIndex

  // ---- Requests ----

  /** Zone z of index i has a chunk that is not handed out. */
  ghost predicate Offers(h: Heap, z: nat, i: int) {
    z in h.zones && h.zones[z].index == i && |h.zones[z].live| < h.zones[z].nmax
  }

  /** n free pages lie next to each other from p on. */
  ghost predicate FreeFrom(h: Heap, p: nat, n: nat) {
    forall q: nat :: p <= q < p + n ==> P.Free(h.runs, q)
  }

  /** A list is not empty exactly if some zone of its index offers a chunk. */
  lemma ListedOffers(h: Heap, i: nat)
    requires Inv(h) && i < Z.NZONES
    ensures |h.lists| == Z.NZONES && (h.lists[i] != [] <==> exists z :: Offers(h, z, i))
    ensures h.lists[i] != [] ==> Offers(h, h.lists[i][0], i)
  {
    hide SpansOk, LargeOk, TableOk, NoDup, Accounted, Sized;
    forall z <- h.zones ensures |h.zones[z].live| + h.zones[z].nfree == h.zones[z].nmax {
      CountsAddUp(h.zones[z]);
    }
    if h.lists[i] != [] {
      assert h.lists[i][0] in h.lists[i];
      assert Offers(h, h.lists[i][0], i);
    }
    if z :| Offers(h, z, i) {
      assert z in h.lists[i];
    }
  }

  /** A request for pages fails exactly if there are not as many free next to each other; it takes the lowest ones. */
  lemma TakesPages(h: Heap, n: nat)
    requires Inv(h) && n > 0
    ensures var (p, rest) := P.Take(h.runs, n);
            && (p.None? <==> forall x: nat :: !FreeFrom(h, x, n))
            && (p.Some? ==>
              && p.value < |h.usage| && FreeFrom(h, p.value, n) && (forall x: nat :: FreeFrom(h, x, n) ==> p.value <= x)
              && forall q: nat :: P.Free(rest, q) <==> P.Free(h.runs, q) && !(p.value <= q < p.value + n))
  {
    hide P.Take, P.Free, P.Canonical, ZonesOk, ListsOk, TableOk, LargeOk;
    P.TakeLowest(h.runs, n);
    forall x: nat ensures P.FreeSpan(h.runs, x, n) <==> FreeFrom(h, x, n) {}
    var p := P.Take(h.runs, n).0;
    if p.Some? {
      assert P.Free(h.runs, p.value);
    }
  }

  /** The pages a large request is rounded up to. */
  ghost predicate Covers(n: nat, size: u32) {
    (n - 1) * PAGE < size <= n * PAGE
  }

  lemma PagesCover(size: u32)
    requires 0 < size
    ensures size <= TWO32 - PAGE ==> PagesFor(size) > 0 && Covers(PagesFor(size), size)
    ensures size > TWO32 - PAGE ==> PagesFor(size) == 0
    ensures forall n: nat :: Covers(n, size) && size <= TWO32 - PAGE ==> n == PagesFor(size)
  {
  }

  /**
   * A request is refused exactly if it is for nothing; or it is large and wraps around when it is
   * rounded up to pages, or there are not as many free pages next to each other; or it is small and
   * no zone of its index has a chunk left, no zone is spare, and there are no free pages for a zone.
   */
  lemma RefusedExactly(h: Heap, size: u32)
    requires Inv(h)
    ensures Malloc(h, size).1.None? <==>
              || size == 0
              || (size >= h.limit && size > TWO32 - PAGE)
              || (size >= h.limit && exists n: nat :: Covers(n, size) && forall x: nat :: !FreeFrom(h, x, n))
              || (0 < size < h.limit && h.spare == [] && (forall z :: !Offers(h, z, Z.Index(size)))
                  && forall x: nat :: !FreeFrom(h, x, h.zonePages))
  {
    assert h.limit <= 16384;
    hide Inv, FreeFrom, Offers, PagesFor, Covers;
    if size >= h.limit {
      PagesCover(size);
      if size <= TWO32 - PAGE {
        TakesPages(h, PagesFor(size));
      }
    } else if size > 0 {
      SmallRefused(h, size);
    }
  }

  lemma SmallRefused(h: Heap, size: u32)
    requires Inv(h) && 0 < size < h.limit <= 16384
    ensures Malloc(h, size).1.None? <==>
              && h.spare == [] && (forall z :: !Offers(h, z, Z.Index(size)))
              && forall x: nat :: !FreeFrom(h, x, h.zonePages)
  {
    Z.Fits(size);
    assert h.zonePages > 0;
    hide Inv, FreeFrom, Offers, Z.Index, Z.ChunkSize;
    ListedOffers(h, Z.Index(size));
    TakesPages(h, h.zonePages);
  }

  /** Where the chunk of a small request comes from: a zone with chunks left, a spare zone, the lowest free pages. */
  lemma ChunkFrom(h: Heap, size: u32)
    requires Inv(h) && 0 < size < h.limit && Malloc(h, size).1.Some?
    ensures var (h', b) := Malloc(h, size);
            && b.value.Chunk? && b.value.z in h'.zones && h'.zones[b.value.z].index == Z.Index(size)
            && (if exists z :: Offers(h, z, Z.Index(size)) then
                  Offers(h, b.value.z, Z.Index(size)) && h'.spare == h.spare && h'.runs == h.runs
                else if h.spare != [] then b.value.z == h.spare[0] && h'.spare == h.spare[1..] && h'.runs == h.runs
                else
                  && h'.spare == h.spare && FreeFrom(h, b.value.z, h.zonePages)
                  && (forall x: nat :: FreeFrom(h, x, h.zonePages) ==> b.value.z <= x)
                  && forall q: nat ::
                       P.Free(h'.runs, q) <==> P.Free(h.runs, q) && !(b.value.z <= q < b.value.z + h.zonePages))
  {
    Z.Fits(size);
    assert h.zonePages > 0;
    hide Inv, FreeFrom, Offers, Z.Index, Z.ChunkSize, TakeChunk, FreshZone, P.Free;
    ListedOffers(h, Z.Index(size));
    if h.lists[Z.Index(size)] != [] {
      ListHead(h, Z.Index(size));
    } else if h.spare == [] {
      TakesPages(h, h.zonePages);
    }
  }

  lemma ListHead(h: Heap, i: nat)
    requires Inv(h) && i < Z.NZONES && |h.lists| == Z.NZONES && h.lists[i] != []
    ensures h.lists[i][0] in h.zones && h.zones[h.lists[i][0]].index == i
    ensures var zn := h.zones[h.lists[i][0]]; zn.nfree > 0 && (zn.uindex + 1 == zn.nmax ==> zn.freeChunks != [])
    ensures var (h', b) := FromList(h, i); b.value.z == h.lists[i][0] && h'.zones[h.lists[i][0]].index == i
  {
    HeadReady(h, i);
    assert h.lists[i][0] in h.lists[i];
  }

  /** A large request gets the lowest free pages there are, and no more than it needs. */
  lemma PagesFrom(h: Heap, size: u32)
    requires Inv(h) && size >= h.limit && Malloc(h, size).1.Some?
    ensures var (h', b) := Malloc(h, size);
            && b.value.Pages? && b.value.p in h'.large && Covers(h'.large[b.value.p], size)
            && var (p, n) := (b.value.p, h'.large[b.value.p]);
               && FreeFrom(h, p, n) && (forall x: nat :: FreeFrom(h, x, n) ==> p <= x)
               && forall q: nat :: P.Free(h'.runs, q) <==> P.Free(h.runs, q) && !(p <= q < p + n)
  {
    assert h.limit > 0;
    hide Inv, FreeFrom, PagesFor, Covers, P.Free;
    PagesCover(size);
    TakesPages(h, PagesFor(size));
  }

  // ---- Frees ----

  /** The pages of a large block become free again, and no others. */
  lemma PagesBack(h: Heap, p: nat)
    requires Inv(h) && Live(h, Pages(p))
    ensures forall q: nat :: P.Free(Free(h, Pages(p)).runs, q) <==> P.Free(h.runs, q) || p <= q < p + h.large[p]
  {
    hide P.Free, P.Canonical, P.Put, ZonesOk, ListsOk, TableOk;
    FreeLargeInv(h, p);
    P.PutUnion(h.runs, p, h.large[p]);
  }

  /** A zone is given up exactly if its last chunk comes back while another zone of its index has chunks left. */
  lemma GivenUpExactly(h: Heap, z: nat, k: nat)
    requires Inv(h) && Live(h, Chunk(z, k))
    ensures z !in Free(h, Chunk(z, k)).zones <==>
              h.zones[z].live == {k} && exists y :: y != z && Offers(h, y, h.zones[z].index)
    ensures z in Free(h, Chunk(z, k)).zones ==>
              && Free(h, Chunk(z, k)).runs == h.runs && Free(h, Chunk(z, k)).spare == h.spare
              && Free(h, Chunk(z, k)).zones[z].freeChunks == [k] + h.zones[z].freeChunks
  {
    hide Inv, Offers, PutBack, Retired, Live;
    PutBackFacts(h, z, k);
    FreeIs(h, z, k);
    var (h1, i) := (PutBack(h, z, k), h.zones[z].index);
    OthersOffer(h, z, k);
    ListedOnly(h1, z);
    RetiredGone(h1, z);
    assert (forall y :: y != z ==> !Offers(h1, y, i)) <==> forall y :: y != z ==> !Offers(h, y, i);
  }

  lemma FreeIs(h: Heap, z: nat, k: nat)
    requires Inv(h) && Live(h, Chunk(z, k))
    ensures var h1 := PutBack(h, z, k);
            && z in h.zones && h.zones[z].index < |h.lists| && z in h1.zones && h1.zones[z].index < |h1.lists|
            && Free(h, Chunk(z, k)) == if ToRetire(h1, z) then Retired(h1, z) else h1
  {
    FreeChunkInv(h, z, k);
    PutBackInv(h, z, k);
    hide Inv, Retired, ToRetire;
  }

  lemma PutBackFacts(h: Heap, z: nat, k: nat)
    requires Inv(h) && Live(h, Chunk(z, k))
    ensures z in h.zones && h.zones[z].index < |h.lists|
    ensures var h1 := PutBack(h, z, k);
            && Inv(h1) && z in h1.zones && h1.runs == h.runs && h1.spare == h.spare
            && h1.zones[z].freeChunks == [k] + h.zones[z].freeChunks && h1.zones[z].index == h.zones[z].index
            && h1.zones[z].nfree > 0 && (h1.zones[z].nfree == h1.zones[z].nmax <==> h.zones[z].live == {k})
  {
    PutBackInv(h, z, k);
    ZoneFacts(h, z);
    hide Inv, Accounted, Sized, ListsOk;
    ChunkBack(h.zones[z], k);
  }

  lemma ChunkBack(zn: Zone, k: nat)
    requires Accounted(zn) && k in zn.live
    ensures PutChunk(zn, k).nfree == zn.nmax <==> zn.live == {k}
  {
    PutAccounted(zn, k);
    CountsAddUp(PutChunk(zn, k));
    hide Accounted;
    assert zn.live - {k} == {} <==> zn.live == {k};
  }

  lemma RetiredGone(h: Heap, z: nat)
    requires z in h.zones && h.zones[z].index < |h.lists|
    ensures z !in Retired(h, z).zones
  {
  }

  lemma OthersOffer(h: Heap, z: nat, k: nat)
    requires z in h.zones && h.zones[z].index < |h.lists|
    ensures forall y, i :: y != z ==> (Offers(PutBack(h, z, k), y, i) <==> Offers(h, y, i))
  {
  }

  /** A zone with free chunks is alone in its list exactly if no other zone of its index offers one. */
  lemma ListedOnly(h: Heap, z: nat)
    requires Inv(h) && z in h.zones && h.zones[z].nfree > 0
    ensures h.zones[z].index < |h.lists|
    ensures h.lists[h.zones[z].index] == [z] <==> forall y :: y != z ==> !Offers(h, y, h.zones[z].index)
  {
    hide SpansOk, LargeOk, TableOk, Accounted, Sized;
    var (i, xs) := (h.zones[z].index, h.lists[h.zones[z].index]);
    forall y <- h.zones ensures |h.zones[y].live| + h.zones[y].nfree == h.zones[y].nmax {
      CountsAddUp(h.zones[y]);
    }
    if y :| y != z && Offers(h, y, i) {
      assert y in xs;
    }
    if forall y :: y != z ==> !Offers(h, y, i) {
      forall j | 0 <= j < |xs| ensures xs[j] == z {
        assert xs[j] in xs;
        assert Offers(h, xs[j], i);
      }
      assert z in xs;
      OneOnly(xs, z);
    }
  }

  lemma OneOnly(xs: seq<nat>, z: nat)
    requires NoDup(xs) && z in xs && forall i :: 0 <= i < |xs| ==> xs[i] == z
    ensures xs == [z]
  {
    Distinct(xs);
    assert Elements(xs) == {z};
  }

  // ---- The layout of a zone ----

  /** The chunks start at the first place behind the header that is a multiple of their size, or of 8. */
  lemma StartsBehindHeader(size: nat)
    requires size > 0
    ensures var unit := if Bits.Or(size, size - 1) + 1 == 2 * size then size else 8;
            && Offset(size) % unit == 0 && HEADER <= Offset(size) < HEADER + unit
  {
    hide Bits.Or;
    if Bits.Or(size, size - 1) + 1 == 2 * size {
      var q := (HEADER + size - 1) / size;
      Quotient(HEADER + size - 1, size);
      Exact(q, size);
    }
  }

  lemma Exact(q: nat, d: nat)
    requires d > 0
    ensures (q * d) % d == 0
  {
    Bits.Unique(q * d, d, q, 0);
  }

  /** A zone holds as many chunks as fit behind the header. */
  lemma Filled(size: nat, zoneSize: nat)
    requires size > 0 && Offset(size) <= zoneSize
    ensures Offset(size) + Capacity(zoneSize, size) * size <= zoneSize
    ensures zoneSize < Offset(size) + (Capacity(zoneSize, size) + 1) * size
  {
    hide Offset;
    Quotient(zoneSize - Offset(size), size);
  }
}

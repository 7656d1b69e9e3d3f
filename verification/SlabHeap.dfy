/** The slab heap of slab.c in place: page table, zone headers, zone_array and zone_free. */
module SlabHeap {
  import opened Base
  import opened Lists
  import opened Slab
  import P = Pages
  import L = PageList
  import Z = ZoneIndex

  function PageOf(ptr: nat): nat {
    ptr / PAGE
  }

  /** Which chunk of the zone at page z an address is. */
  function ChunkAt(ptr: nat, z: nat, zn: Zone): int
    requires zn.chunk > 0
  {
    (ptr - z * PAGE - zn.off) / zn.chunk
  }

  /** The pages of the page table, four bytes a page. */
  function TablePages(npages: nat): (n: nat)
    ensures npages > 0 ==> 0 < n <= npages
  {
    (npages * 4 + PAGE - 1) / PAGE
  }

  class SlabAllocator {
    const zonePages: nat
    const limit: nat
    const pages: L.PageAllocator
    const memusage: array<Usage>
    const zoneArray: array<seq<nat>>
    var zones: map<nat, Zone>
    var zoneFree: seq<nat>
    ghost var owned: map<nat, nat>
    ghost var large: map<nat, nat>

    /** rt_system_heap_init of npages pages; the page table takes the first of them. */
    constructor (npages: nat)
      requires npages > 0
      ensures Valid() && View() == Booted(npages, zonePages, limit, TablePages(npages))
    {
      var zoneSize := ChooseZoneSize(npages * PAGE);
      zonePages := zoneSize / PAGE;
      limit := if zoneSize / 4 > 16 * 1024 then 16 * 1024 else zoneSize / 4;
      var list := new L.PageAllocator(npages);
      pages := list;
      memusage := new Usage[npages](_ => Clear);
      zoneArray := new seq<nat>[Z.NZONES](_ => []);
      zones, zoneFree, owned, large := map[], [], map[], map[];
      new;
      TakePageTable();
    }

    /** The page table takes the first pages of a heap that is all free. */
    method TakePageTable()
      requires Backed() && ZoneSize(zonePages, limit) && memusage.Length > 0
      requires pages.runs == [P.Run(0, memusage.Length)] && owned == map[] && large == map[]
      requires memusage[..] == seq(memusage.Length, _ => Clear) && zoneArray[..] == seq(Z.NZONES, _ => [])
      requires zones == map[] && zoneFree == []
      modifies this`owned, pages, pages.next, pages.page
      ensures Valid() && View() == Booted(memusage.Length, zonePages, limit, TablePages(memusage.Length))
    {
      hide Inv, P.Take, TablePages;
      var table := TablePages(memusage.Length);
      assert P.Put([], 0, memusage.Length) == pages.runs;
      BootedInv(memusage.Length, zonePages, limit, table);
      var first := pages.Alloc(table);
      owned := map[0 := table];
      assert View() == Booted(memusage.Length, zonePages, limit, table);
    }

    /** The loop that doubles the zone size while the heap has room for many zones. */
    static method ChooseZoneSize(limsize: nat) returns (zoneSize: nat)
      ensures zoneSize in {32 * 1024, 64 * 1024, 128 * 1024}
      ensures zoneSize > 32 * 1024 ==> zoneSize < limsize / 1024
      ensures zoneSize < 128 * 1024 ==> limsize / 1024 <= zoneSize * 2
    {
      zoneSize := 32 * 1024;
      while zoneSize < 128 * 1024 && zoneSize * 2 < limsize / 1024
        invariant zoneSize in {32 * 1024, 64 * 1024, 128 * 1024}
        invariant zoneSize > 32 * 1024 ==> zoneSize < limsize / 1024
        decreases 128 * 1024 - zoneSize
      {
        zoneSize := zoneSize * 2;
      }
    }

    ghost function View(): Heap
      reads this, pages, memusage, zoneArray
    {
      Heap(memusage.Length, zonePages, limit, pages.runs, owned, memusage[..], zones, zoneArray[..], zoneFree, large)
    }

    ghost predicate Valid()
      reads this, pages, pages.next, pages.page, memusage, zoneArray
    {
      Backed() && Inv(View())
    }

    /** The page list is in order and covers the page table. */
    ghost predicate Backed()
      reads pages, pages.next, pages.page
    {
      pages.Valid() && pages.next.Length == memusage.Length
    }

    /** The loops over the page table that mark, or clear, the pages of a zone. */
    method SetUsage(z: nat, small: bool)
      requires z + zonePages <= memusage.Length
      modifies memusage
      ensures memusage[..] == if small then MarkZone(old(memusage[..]), z, zonePages)
                              else ClearZone(old(memusage[..]), z, zonePages)
    {
      var off := 0;
      while off < zonePages
        invariant off <= zonePages
        invariant forall i :: 0 <= i < memusage.Length ==>
                    memusage[i] == if z <= i < z + off then if small then Small(i - z) else Clear
                                   else old(memusage[i])
      {
        memusage[z + off] := if small then Small(off) else Clear;
        off := off + 1;
      }
    }

    /** rt_malloc; the address of the block. */
    method Malloc(size: u32) returns (addr: Option<nat>, ghost b: Option<Block>)
      requires Valid()
      modifies this, memusage, zoneArray, pages, pages.next, pages.page
      ensures Valid() && (View(), b) == Slab.Malloc(old(View()), size)
      ensures addr.Some? == b.Some? && (b.Some? ==> Live(View(), b.value) && addr.value == Extent(View(), b.value).0)
    {
      MallocCorrect(View(), size);
      if size == 0 {
        return None, None;
      }
      if size >= limit {
        addr, b := AllocateLarge(size);
        return;
      }
      Z.Fits(size);
      Z.OneSizePerIndex(size);
      var (zi, c) := (Z.Index(size), Z.ChunkSize(size));
      if zoneArray[zi] != [] {
        HeadReady(View(), zi);
      }
      hide Inv, FromList, FromSpare, FromPages;
      if zoneArray[zi] != [] {
        addr, b := AllocateChunk(zi);
      } else if zoneFree != [] {
        addr, b := ReuseZone(zi, c);
      } else {
        addr, b := AllocateZone(zi, c);
      }
    }

    /** The spare zone kept last gets a new header. */
    method ReuseZone(zi: nat, size: nat) returns (addr: Option<nat>, ghost b: Option<Block>)
      requires Backed() && zi < zoneArray.Length && 0 < size && zoneFree != []
      modifies this`zones, this`zoneFree, zoneArray
      ensures Backed() && (View(), b) == FromSpare(old(View()), zi, size)
      ensures addr.Some? && b.Some? && Live(View(), b.value) && addr.value == Extent(View(), b.value).0
    {
      var z := zoneFree[0];
      zoneFree := zoneFree[1..];
      addr, b := StartZone(z, zi, size);
    }

    /** The branch for requests that need whole pages. */
    method AllocateLarge(size: u32) returns (addr: Option<nat>, ghost b: Option<Block>)
      requires Valid() && 0 < size
      modifies this`owned, this`large, memusage, pages, pages.next, pages.page
      ensures Backed() && (View(), b) == MallocLarge(old(View()), size)
      ensures addr.Some? == b.Some? && (b.Some? ==> Live(View(), b.value) && addr.value == Extent(View(), b.value).0)
    {
      hide P.Take;
      var n := PagesFor(size);
      if n == 0 {
        return None, None;
      }
      SpanTaken(pages.runs, owned, memusage.Length, n);
      ghost var (o, rest) := P.Take(pages.runs, n);
      hide Inv, SpansOk, PagesFor;
      var p := pages.Alloc(n);
      if p == L.Chains.NULL {
        return None, None;
      }
      memusage[p] := Large(n);
      owned, large := owned[p := n], large[p := n];
      addr, b := Some(p * PAGE), Some(Pages(p));
    }

    /** A chunk of the first zone of list zi. */
    method AllocateChunk(zi: nat) returns (addr: Option<nat>, ghost b: Option<Block>)
      requires Backed() && zi < zoneArray.Length && zoneArray[zi] != [] && zoneArray[zi][0] in zones
      requires var zn := zones[zoneArray[zi][0]]; zn.nfree > 0 && (zn.uindex + 1 == zn.nmax ==> zn.freeChunks != [])
      modifies this`zones, zoneArray
      ensures Backed() && (View(), b) == FromList(old(View()), zi)
      ensures addr.Some? && b.Some? && Live(View(), b.value) && addr.value == Extent(View(), b.value).0
    {
      var z := zoneArray[zi][0];
      var (zn, k) := TakeChunk(zones[z]);
      zones := zones[z := zn];
      if zn.nfree == 0 {
        zoneArray[zi] := zoneArray[zi][1..];
      }
      addr, b := Some(AddrIn(z, zn, k)), Some(Chunk(z, k));
    }

    /** The header of a new zone is written and the zone linked to its list. */
    method StartZone(z: nat, zi: nat, size: nat) returns (addr: Option<nat>, ghost b: Option<Block>)
      requires Backed() && zi < zoneArray.Length && 0 < size
      modifies this`zones, zoneArray
      ensures Backed() && (View(), b) == NewZone(old(View()), z, zi, size)
      ensures addr.Some? && b.Some? && Live(View(), b.value) && addr.value == Extent(View(), b.value).0
    {
      hide Offset, Capacity;
      var zn := FreshZone(zi, size, zonePages * PAGE);
      zones := zones[z := zn];
      zoneArray[zi] := [z] + zoneArray[zi];
      addr, b := Some(AddrIn(z, zn, 0)), Some(Chunk(z, 0));
    }

    /** Pages for a new zone. */
    method AllocateZone(zi: nat, size: nat) returns (addr: Option<nat>, ghost b: Option<Block>)
      requires Valid() && zi < zoneArray.Length && 0 < size
      modifies this`owned, this`zones, memusage, zoneArray, pages, pages.next, pages.page
      ensures Backed() && (View(), b) == FromPages(old(View()), zi, size)
      ensures addr.Some? == b.Some? && (b.Some? ==> Live(View(), b.value) && addr.value == Extent(View(), b.value).0)
    {
      hide P.Take, NewZone;
      SpanTaken(pages.runs, owned, memusage.Length, zonePages);
      ghost var (o, rest) := P.Take(pages.runs, zonePages);
      assert zonePages > 0;
      hide Inv, SpansOk, MarkZone;
      var z := pages.Alloc(zonePages);
      if z == L.Chains.NULL {
        return None, None;
      }
      SetUsage(z, true);
      owned := owned[z := zonePages];
      addr, b := StartZone(z, zi, size);
    }

    /** rt_free of a live block b at address ptr. */
    method Free(ptr: nat, ghost b: Block)
      requires Valid() && Live(View(), b) && ptr == Extent(View(), b).0
      modifies this, memusage, zoneArray, pages, pages.next, pages.page
      ensures Valid() && View() == Slab.Free(old(View()), b)
    {
      ghost var h := View();
      Located(h, b);
      assert PageOf(ptr) < memusage.Length && memusage[PageOf(ptr)] == h.usage[PageOf(ptr)];
      hide Slab.Free, Live, Extent, AddrIn, Inv, PageOf, ChunkAt, Backed;
      var page := PageOf(ptr);
      match memusage[page]
      case Large(n) =>
        assert b == Pages(page);
        FreePages(page, n);
      case Small(k) =>
        var z := page - k;
        assert b == Chunk(z, b.k);
        FreeInZone(z, ChunkAt(ptr, z, zones[z]));
      case Clear => assert false;
    }

    method FreePages(p: nat, n: nat)
      requires Valid() && Live(View(), Pages(p)) && large[p] == n && p < memusage.Length
      modifies this`owned, this`large, memusage, pages, pages.next, pages.page
      ensures Valid() && View() == Slab.Free(old(View()), Pages(p))
    {
      FreeCorrect(View(), Pages(p));
      OwnedPages(View(), p);
      hide Inv, P.Put, P.Free;
      memusage[p] := Large(0);
      pages.Release(p, n);
      owned, large := owned - {p}, large - {p};
    }

    method FreeInZone(z: nat, k: nat)
      requires Valid() && Live(View(), Chunk(z, k))
      modifies this, memusage, zoneArray, pages, pages.next, pages.page
      ensures Valid() && View() == Slab.Free(old(View()), Chunk(z, k))
    {
      ghost var h := View();
      ChunkFreed(h, z, k);
      hide Inv, Retired, ListsOk, PutBack, Live, Slab.Free;
      var i := zones[z].index;
      Return(z, k);
      if zones[z].nfree == zones[z].nmax && (|zoneArray[i]| != 1 || zoneArray[i][0] != z) {
        Retire(z, i);
      }
    }

    /** The chunk goes back to its zone, and a zone that had none comes first in its list again. */
    method Return(z: nat, k: nat)
      requires Backed() && z in zones && zones[z].index < zoneArray.Length
      modifies this`zones, zoneArray
      ensures Backed() && View() == PutBack(old(View()), z, k)
      ensures z in zones && zones[z].index == old(zones[z].index) && zones[z].nfree > 0
    {
      var zn := zones[z];
      zones := zones[z := PutChunk(zn, k)];
      if zn.nfree == 0 {
        zoneArray[zn.index] := [z] + zoneArray[zn.index];
      }
    }

    /** The zone is unlinked from its list and kept as a spare one, or its pages are given back. */
    method Retire(z: nat, i: nat)
      requires Valid() && z in zones && i == zones[z].index && zones[z].nfree > 0
      modifies this, memusage, zoneArray, pages, pages.next, pages.page
      ensures i < zoneArray.Length && Backed() && View() == Retired(old(View()), z)
    {
      ghost var h := View();
      ZoneFacts(h, z);
      assert z in Heads(h);
      OwnedPages(h, z);
      hide Inv, P.Put, P.Free;
      var n := FindZone(z, i);
      WithoutAt(zoneArray[i], n);
      zoneArray[i] := zoneArray[i][..n] + zoneArray[i][n + 1..];
      zones := zones - {z};
      zoneFree := [z] + zoneFree;
      if |zoneFree| > RELEASE_THRESH {
        zoneFree := zoneFree[1..];
        GiveBack(z);
      }
    }

    /** The pages of a zone are no zone's any more. */
    method GiveBack(z: nat)
      requires Backed() && zonePages >= 1 && z + zonePages <= memusage.Length
      requires forall q: nat :: z <= q < z + zonePages ==> !P.Free(pages.runs, q)
      modifies this`owned, memusage, pages, pages.next, pages.page
      ensures Backed() && pages.runs == P.Put(old(pages.runs), z, zonePages) && owned == old(owned) - {z}
      ensures memusage[..] == ClearZone(old(memusage[..]), z, zonePages)
    {
      SetUsage(z, false);
      pages.Release(z, zonePages);
      owned := owned - {z};
    }

    /** The search for the link to the zone. */
    method FindZone(z: nat, i: nat) returns (n: nat)
      requires i < zoneArray.Length && z in zoneArray[i]
      ensures n < |zoneArray[i]| && zoneArray[i][n] == z
    {
      n := 0;
      while zoneArray[i][n] != z
        invariant n < |zoneArray[i]| && z in zoneArray[i][n..]
        decreases |zoneArray[i]| - n
      {
        assert zoneArray[i][n..] == [zoneArray[i][n]] + zoneArray[i][n + 1..];
        n := n + 1;
      }
    }
  }

  /** Pages of an owner are handed out and inside the heap. */
  lemma OwnedPages(h: Heap, p: nat)
    requires Inv(h) && (p in h.large || p in Heads(h))
    ensures p in h.owned && h.owned[p] >= 1 && p + h.owned[p] <= h.total
    ensures h.owned[p] == if p in h.large then h.large[p] else h.zonePages
    ensures forall q: nat :: p <= q < p + h.owned[p] ==> !P.Free(h.runs, q)
  {
  }

  /** Freeing a chunk in two steps, the second one only if its zone is to be retired. */
  lemma ChunkFreed(h: Heap, z: nat, k: nat)
    requires Inv(h) && Live(h, Chunk(z, k))
    ensures z in h.zones && h.zones[z].index < |h.lists|
    ensures var h1 := PutBack(h, z, k);
            && Inv(h1) && Inv(Slab.Free(h, Chunk(z, k))) && z in h1.zones && h1.zones[z].index == h.zones[z].index
            && |h1.lists| == |h.lists|
            && Slab.Free(h, Chunk(z, k)) == if ToRetire(h1, z) then Retired(h1, z) else h1
  {
    FreeCorrect(h, Chunk(z, k));
    ZoneFacts(h, z);
    PutBackInv(h, z, k);
    hide Inv, Retired, ListsOk;
  }

  /** What rt_free finds in the page table for a live block. */
  lemma Located(h: Heap, b: Block)
    requires Inv(h) && Live(h, b)
    ensures var (ptr, page) := (Extent(h, b).0, PageOf(Extent(h, b).0));
            && page < |h.usage| && Live(h, b)
            && match b
               case Pages(p) => page == p && h.usage[page] == Large(h.large[p])
               case Chunk(z, k) =>
                 && h.usage[page].Small? && page - h.usage[page].k == z
                 && h.zones[z].chunk > 0
                 && ChunkAt(ptr, z, h.zones[z]) == k
  {
    match b
    case Pages(p) => PageTableFindsLarge(h, p);
    case Chunk(z, k) =>
      PageTableFindsZone(h, z, k);
      LiveIsChunk(h, z, k);
      hide Inv;
      ExactQuotient(k, h.zones[z].chunk);
  }

  lemma ExactQuotient(k: nat, c: nat)
    requires c > 0
    ensures k * c / c == k
  {
    var q := k * c / c;
    Quotient(k * c, c);
    if q < k {
      Times(q, k, c);
    } else if k < q {
      Times(k, q, c);
    }
  }
}

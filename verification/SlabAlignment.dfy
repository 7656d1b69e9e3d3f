/** The promise of slab.c that blocks of a power of two are aligned to their size, as far as it goes. */
module SlabAlignment {
  import opened Base
  import Bits
  import opened Slab
  import P = Pages
  import Z = ZoneIndex

  lemma {:induction false} OrBelow(e: nat)
    ensures Bits.Or(Bits.Pow2(e), Bits.Pow2(e) - 1) == 2 * Bits.Pow2(e) - 1
  {
    if e > 0 {
      OrBelow(e - 1);
      OrDoubled(Bits.Pow2(e - 1));
      hide Bits.Or;
    }
  }

  lemma OrDoubled(q: nat)
    requires q > 0 && Bits.Or(q, q - 1) == 2 * q - 1
    ensures Bits.Or(2 * q, 2 * q - 1) == 4 * q - 1
  {
    hide Bits.Pow2;
    Bits.JoinParts(false, q);
    Bits.JoinParts(true, q - 1);
    assert Bits.Or(2 * q, 2 * q - 1) == Bits.Join(true, Bits.Or(q, q - 1));
  }

  /** m times c. */
  function Times(m: int, c: nat): int {
    m * c
  }

  ghost predicate Multiple(x: int, c: nat) {
    exists m: int :: Times(m, c) == x
  }

  lemma SumMultiple(x: int, m: int, c: nat)
    ensures Multiple(x + Times(m, c), c) <==> Multiple(x, c)
  {
    if a: int :| Times(a, c) == x {
      assert Times(a + m, c) == x + Times(m, c);
    }
    if a: int :| Times(a, c) == x + Times(m, c) {
      assert Times(a - m, c) == x;
    }
  }

  lemma OffsetForm(e: nat)
    ensures Offset(Bits.Pow2(e)) == Times((HEADER + Bits.Pow2(e) - 1) / Bits.Pow2(e), Bits.Pow2(e))
  {
    OrBelow(e);
  }

  /**
   * A chunk of 2 to the e bytes is aligned to its size exactly if its zone is, and up to a page it
   * always is. The heap starts at page b: its start is aligned to a page and to nothing more.
   */
  lemma PowersAligned(b: nat, z: nat, zn: Zone, k: nat, e: nat)
    requires zn.chunk == Bits.Pow2(e) && zn.off == Offset(zn.chunk)
    ensures Multiple(b * PAGE + AddrIn(z, zn, k), zn.chunk) <==> Multiple((b + z) * PAGE, zn.chunk)
    ensures e <= 12 ==> Multiple(b * PAGE + AddrIn(z, zn, k), zn.chunk)
  {
    var c := zn.chunk;
    OffsetForm(e);
    AddrForm(z, zn, k);
    hide Multiple, Offset, Times, AddrIn;
    SumMultiple((b + z) * PAGE + zn.off, k, c);
    SumMultiple((b + z) * PAGE, (HEADER + c - 1) / c, c);
    if e <= 12 { PagesAligned(b + z, e); }
  }

  lemma AddrForm(z: nat, zn: Zone, k: nat)
    ensures AddrIn(z, zn, k) == z * PAGE + zn.off + Times(k, zn.chunk)
  {
  }

  lemma PagesAligned(z: nat, e: nat)
    requires e <= 12
    ensures Multiple(z * PAGE, Bits.Pow2(e))
  {
    Bits.Pow2Sum(12 - e, e);
    PageIsPower();
    var (a, c) := (Bits.Pow2(12 - e), Bits.Pow2(e));
    Associative(z, a, c);
    assert Times(z * a, c) == z * PAGE;
  }

  lemma Associative(x: nat, y: nat, w: nat)
    ensures (x * y) * w == x * (y * w)
  {
  }

  lemma PageIsPower()
    ensures Bits.Pow2(12) == PAGE
  {
    assert Bits.Pow2(4) == 16;
    Bits.Pow2Sum(4, 4);
    Bits.Pow2Sum(8, 4);
  }

  lemma TwoPages(x: nat)
    ensures Multiple(x * PAGE, 2 * PAGE) <==> x % 2 == 0
  {
    if m: int :| Times(m, 2 * PAGE) == x * PAGE {
      assert 2 * m == x;
    }
    if x % 2 == 0 {
      assert Times(x / 2, 2 * PAGE) == x * PAGE;
    }
  }

  /**
   * The first request of 8000 bytes gets a chunk of two pages behind the page table. The chunk is
   * aligned to its size exactly if the page it is on, counted from address zero, is even.
   */
  lemma TwoPagesMisaligned(total: nat, zonePages: nat, limit: nat, table: nat, b: nat)
    requires ZoneSize(zonePages, limit) && 0 < table && table + zonePages <= total
    ensures Inv(Booted(total, zonePages, limit, table))
    ensures var (h, r) := Malloc(Booted(total, zonePages, limit, table), 8000);
            && r == Some(Chunk(table, 0)) && table in h.zones && h.zones[table].chunk == 2 * PAGE
            && (Multiple(b * PAGE + AddrIn(table, h.zones[table], 0), 2 * PAGE) <==> (b + table) % 2 == 0)
  {
    hide Multiple, Offset, AddrIn;
    var boot := Booted(total, zonePages, limit, table);
    BootedInv(total, zonePages, limit, table);
    ZoneBehindTable(total, table, zonePages);
    assert Z.Index(8000) == 63 && Z.ChunkSize(8000) == 2 * PAGE;
    PageIsPower();
    var h := Malloc(boot, 8000).0;
    PowersAligned(b, table, h.zones[table], 0, 13);
    TwoPages(b + table);
  }

  lemma ZoneBehindTable(total: nat, table: nat, n: nat)
    requires 0 < table && 0 < n && table + n <= total
    ensures P.Take(P.Take(P.Put([], 0, total), table).1, n).0 == Some(table)
  {
    hide P.Take, P.Put, P.Free, P.Canonical;
    var runs := P.Put([], 0, total);
    P.NothingFree();
    P.PutUnion([], 0, total);
    P.TakeLowest(runs, table);
    assert P.FreeSpan(runs, 0, table);
    var rest := P.Take(runs, table).1;
    P.TakeLowest(rest, n);
    assert P.FreeSpan(rest, table, n);
    var p := P.Take(rest, n).0;
    assert P.Free(rest, p.value);
  }
}

/** scheduler.c: the priority bitmaps and the byte table that finds their lowest set bit. */
module ReadyBitmap {
  import opened Bits

  /** rt_lowest_bitmap, one row per high nibble. */
  const LOWEST_BITMAP: seq<seq<nat>> := [
    [0, 0, 1, 0, 2, 0, 1, 0, 3, 0, 1, 0, 2, 0, 1, 0],
    [4, 0, 1, 0, 2, 0, 1, 0, 3, 0, 1, 0, 2, 0, 1, 0],
    [5, 0, 1, 0, 2, 0, 1, 0, 3, 0, 1, 0, 2, 0, 1, 0],
    [4, 0, 1, 0, 2, 0, 1, 0, 3, 0, 1, 0, 2, 0, 1, 0],
    [6, 0, 1, 0, 2, 0, 1, 0, 3, 0, 1, 0, 2, 0, 1, 0],
    [4, 0, 1, 0, 2, 0, 1, 0, 3, 0, 1, 0, 2, 0, 1, 0],
    [5, 0, 1, 0, 2, 0, 1, 0, 3, 0, 1, 0, 2, 0, 1, 0],
    [4, 0, 1, 0, 2, 0, 1, 0, 3, 0, 1, 0, 2, 0, 1, 0],
    [7, 0, 1, 0, 2, 0, 1, 0, 3, 0, 1, 0, 2, 0, 1, 0],
    [4, 0, 1, 0, 2, 0, 1, 0, 3, 0, 1, 0, 2, 0, 1, 0],
    [5, 0, 1, 0, 2, 0, 1, 0, 3, 0, 1, 0, 2, 0, 1, 0],
    [4, 0, 1, 0, 2, 0, 1, 0, 3, 0, 1, 0, 2, 0, 1, 0],
    [6, 0, 1, 0, 2, 0, 1, 0, 3, 0, 1, 0, 2, 0, 1, 0],
    [4, 0, 1, 0, 2, 0, 1, 0, 3, 0, 1, 0, 2, 0, 1, 0],
    [5, 0, 1, 0, 2, 0, 1, 0, 3, 0, 1, 0, 2, 0, 1, 0],
    [4, 0, 1, 0, 2, 0, 1, 0, 3, 0, 1, 0, 2, 0, 1, 0]
  ]

  lemma TableShape(hi: nat)
    requires hi < 16
    ensures hi < |LOWEST_BITMAP| && |LOWEST_BITMAP[hi]| == 16
  {
  }

  /** Entry b of the table. */
  function Entry(b: nat): nat
    requires b < 256
  {
    TableShape(b / 16);
    LOWEST_BITMAP[b / 16][b % 16]
  }

  /** Within a row only the first entry depends on the high nibble. */
  lemma RowTail(hi: nat, lo: nat)
    requires hi < 16 && 0 < lo < 16
    ensures hi < |LOWEST_BITMAP| && |LOWEST_BITMAP[hi]| == 16
    ensures LOWEST_BITMAP[hi][lo] == LOWEST_BITMAP[0][lo]
  {
  }

  lemma LowNibble(lo: nat)
    requires 0 < lo < 16
    ensures if Odd(lo) then LOWEST_BITMAP[0][lo] == 0
            else LOWEST_BITMAP[0][lo] == 1 + LOWEST_BITMAP[0][Half(lo)]
  {
  }

  lemma HighNibble(hi: nat)
    requires 0 < hi < 16
    ensures |LOWEST_BITMAP[hi]| == |LOWEST_BITMAP[hi / 2]| == 16
    ensures LOWEST_BITMAP[hi][0] == if Odd(hi) then 4 else 1 + LOWEST_BITMAP[hi / 2][0]
  {
  }

  /** The table satisfies the recurrence of the lowest bit. */
  lemma EntryStep(b: nat)
    requires 0 < b < 256
    ensures Entry(b) == if Odd(b) then 0 else 1 + Entry(Half(b))
  {
    var (hi, lo) := (b / 16, b % 16);
    if lo != 0 {
      LowNibble(lo);
      RowTail(hi, lo);
      if !Odd(b) {
        assert Half(b) / 16 == hi / 2 && Half(b) % 16 == 8 * (hi % 2) + lo / 2;
        RowTail(hi / 2, Half(b) % 16);
        HalfRow(hi % 2, lo / 2);
      }
    } else {
      HighNibble(hi);
      assert Half(b) / 16 == hi / 2 && Half(b) % 16 == 8 * (hi % 2);
      if Odd(hi) {
        RowTail(hi / 2, 8);
      }
    }
  }

  lemma HalfRow(odd: nat, k: nat)
    requires odd < 2 && 0 < k < 8
    ensures LOWEST_BITMAP[0][8 * odd + k] == LOWEST_BITMAP[0][k]
  {
  }

  /** The table entry of a byte that is not zero is the position of its lowest set bit. */
  lemma {:induction false} EntryIsLowest(b: nat)
    requires 0 < b < 256
    ensures Entry(b) == LowestBit(b) && IsLowest(b, Entry(b)) && Entry(b) < 8
  {
    hide Entry, IsLowest;
    EntryIsLowestBit(b);
    LowestBitIsLowest(b);
    LowestBitSmall(b, 8);
    assert Pow2(2) == 4 && Pow2(4) == 16 && Pow2(6) == 64 && Pow2(8) == 256;
  }

  lemma {:induction false} EntryIsLowestBit(b: nat)
    requires 0 < b < 256
    ensures Entry(b) == LowestBit(b)
  {
    EntryStep(b);
    hide Entry;
    if !Odd(b) {
      EntryIsLowestBit(Half(b));
    }
  }

  lemma {:induction false} LowestBitSmall(b: nat, k: nat)
    requires 0 < b < Pow2(k)
    ensures LowestBit(b) < k
  {
    if !Odd(b) {
      LowestBitSmall(Half(b), k - 1);
    }
  }

  /** The byte of the group that starts at bit k. */
  function Byte(g: nat, k: nat): (b: nat)
    ensures b < 256
  {
    LowBound(Shr(g, k), 8);
    assert Pow2(2) == 4 && Pow2(4) == 16 && Pow2(6) == 64 && Pow2(8) == 256;
    Low(Shr(g, k), 8)
  }

  lemma ByteBit(g: nat, k: nat, q: nat)
    ensures Bit(Byte(g, k), q) <==> q < 8 && Bit(g, q + k)
  {
    LowBit(Shr(g, k), 8, q);
    ShrBit(g, k, q);
  }

  /** The chain of byte tests of rt_schedule. */
  function FindFirst(g: nat): nat {
    if Byte(g, 0) != 0 then Entry(Byte(g, 0))
    else if Byte(g, 8) != 0 then Entry(Byte(g, 8)) + 8
    else if Byte(g, 16) != 0 then Entry(Byte(g, 16)) + 16
    else Entry(Byte(g, 24)) + 24
  }

  ghost predicate ZeroBelow(g: nat, k: nat) {
    forall q: nat :: q < k ==> !Bit(g, q)
  }

  lemma NextZero(g: nat, k: nat)
    requires ZeroBelow(g, k) && Byte(g, k) == 0
    ensures ZeroBelow(g, k + 8)
  {
    hide Bit, Byte;
    forall q: nat | q < k + 8
      ensures !Bit(g, q)
    {
      if q >= k {
        ByteBit(g, k, q - k);
        ZeroBit(q - k);
      }
    }
  }

  /** The lowest set bit of a byte of the group, when the bits below that byte are clear. */
  lemma FirstInByte(g: nat, k: nat)
    requires ZeroBelow(g, k) && Byte(g, k) != 0
    ensures IsLowest(g, Entry(Byte(g, k)) + k) && Entry(Byte(g, k)) < 8
  {
    hide Bit, Byte, Entry;
    var b := Byte(g, k);
    EntryIsLowest(b);
    ByteBit(g, k, Entry(b));
    forall q: nat | q < Entry(b) + k
      ensures !Bit(g, q)
    {
      if q >= k {
        ByteBit(g, k, q - k);
        assert !Bit(b, q - k);
      }
    }
  }

  /** With a bit set among the 32, the search of rt_schedule returns the lowest one. */
  lemma FindFirstIsLowest(g: nat, some: nat)
    requires some < 32 && Bit(g, some)
    ensures IsLowest(g, FindFirst(g)) && FindFirst(g) < 32
  {
    hide Bit, Byte, Entry;
    assert ZeroBelow(g, 0);
    if Byte(g, 0) != 0 {
      FirstInByte(g, 0);
    } else {
      NextZero(g, 0);
      if Byte(g, 8) != 0 {
        FirstInByte(g, 8);
      } else {
        NextZero(g, 8);
        if Byte(g, 16) != 0 {
          FirstInByte(g, 16);
        } else {
          NextZero(g, 16);
          if Byte(g, 24) == 0 {
            NextZero(g, 24);
          }
          FirstInByte(g, 24);
        }
      }
    }
  }

  // ---- More than 32 priorities ----

  /** The priority with high part n and low part q. */
  function Prio(n: nat, q: nat): nat {
    8 * n + q
  }

  /** rt_thread_ready_priority_group and rt_thread_ready_table for up to 256 priorities. */
  class TwoLevel {
    var group: nat
    const table: array<nat>
    /** The priorities whose ready list is not empty. */
    ghost var ready: set<nat>

    ghost predicate Valid()
      reads this, table
    {
      && table.Length == 32
      && (forall p: nat <- ready :: p < 256)
      && (forall n: nat :: n < 32 ==> table[n] < Pow2(8))
      && (forall n: nat, q: nat :: n < 32 && q < 8 ==> (Bit(table[n], q) <==> Prio(n, q) in ready))
      && (forall n: nat :: n < 32 ==> (Bit(group, n) <==> table[n] != 0))
    }

    constructor ()
      ensures Valid() && ready == {} && fresh(table)
    {
      group := 0;
      table := new nat[32](_ => 0);
      ready := {};
      new;
      forall n: nat ensures !Bit(0, n) { ZeroBit(n); }
    }

    /** The table part of rt_schedule_insert_thread. */
    method Insert(prio: nat)
      requires Valid() && prio < 256
      modifies this, table
      ensures Valid() && ready == old(ready) + {prio}
    {
      hide Bit, Or, Pow2;
      var (number, bit) := (prio / 8, prio % 8);
      var (byte, g) := (table[number], group);
      table[number] := Or(byte, Pow2(bit));
      group := Or(g, Pow2(number));
      ready := ready + {prio};
      Pow2Less(bit, 8);
      OrBound(byte, Pow2(bit), 8);
      assert prio == Prio(number, bit);
      forall n: nat, q: nat | n < 32 && q < 8
        ensures Bit(table[n], q) <==> Prio(n, q) in ready
      {
        SetBit(byte, bit, q);
        assert Prio(n, q) == prio <==> n == number && q == bit;
      }
      SetBit(byte, bit, bit);
      BitNonZero(table[number], bit);
      forall n: nat | n < 32
        ensures Bit(group, n) <==> table[n] != 0
      {
        SetBit(g, number, n);
      }
    }

    /** The table part of rt_schedule_remove_thread, when the list has become empty. */
    method Remove(prio: nat)
      requires Valid() && prio < 256
      modifies this, table
      ensures Valid() && ready == old(ready) - {prio}
    {
      hide Bit, AndNot, Pow2;
      var (number, bit) := (prio / 8, prio % 8);
      var (byte, g) := (table[number], group);
      table[number] := AndNot(byte, Pow2(bit));
      if table[number] == 0 {
        group := AndNot(g, Pow2(number));
      }
      ready := ready - {prio};
      AndNotBound(byte, Pow2(bit));
      assert prio == Prio(number, bit);
      forall n: nat, q: nat | n < 32 && q < 8
        ensures Bit(table[n], q) <==> Prio(n, q) in ready
      {
        ClearBit(byte, bit, q);
        assert Prio(n, q) == prio <==> n == number && q == bit;
      }
      forall n: nat | n < 32
        ensures Bit(group, n) <==> table[n] != 0
      {
        ClearBit(g, number, n);
      }
    }

    /** The search of rt_schedule over both levels. */
    method Highest() returns (prio: nat)
      requires Valid() && ready != {}
      ensures prio in ready && forall p <- ready :: prio <= p
    {
      hide Bit, Entry, FindFirst;
      ghost var some: nat :| some in ready;
      assert some == Prio(some / 8, some % 8);
      BitNonZero(table[some / 8], some % 8);
      FindFirstIsLowest(group, some / 8);
      var number := FindFirst(group);
      var b := table[number];
      assert Pow2(2) == 4 && Pow2(4) == 16 && Pow2(6) == 64 && Pow2(8) == 256;
      EntryIsLowest(b);
      prio := Prio(number, Entry(b));
      forall p: nat | p in ready
        ensures prio <= p
      {
        assert p == Prio(p / 8, p % 8);
        BitNonZero(table[p / 8], p % 8);
        assert Bit(group, p / 8);
      }
    }
  }
}

/** 32-bit masks as sets of bits. */
module Masks {

  function Meet(a: bv32, b: bv32): bv32 {
    a & b
  }

  function Union(a: bv32, b: bv32): bv32 {
    a | b
  }

  /** a with the bits of b cleared. */
  function Minus(a: bv32, b: bv32): bv32 {
    a & !b
  }

  /** Every bit of a is a bit of b. */
  predicate Within(a: bv32, b: bv32) {
    a & b == a
  }

  lemma WithinItself(a: bv32)
    ensures Within(a, a)
  {
  }

  lemma WithinTransitive(a: bv32, b: bv32, c: bv32)
    requires Within(a, b) && Within(b, c)
    ensures Within(a, c)
  {
  }

  lemma MeetMonotone(w: bv32, a: bv32, b: bv32)
    requires Within(a, b) && Meet(w, a) != 0
    ensures Meet(w, b) != 0
  {
  }

  lemma MeetWithin(a: bv32, b: bv32)
    ensures Within(Meet(a, b), a) && Within(Meet(a, b), b)
  {
  }

  lemma MinusWithin(a: bv32, b: bv32)
    ensures Within(Minus(a, b), a)
  {
  }

  lemma MinusNothing(a: bv32)
    ensures Minus(a, 0) == a && Union(0, a) == a
  {
  }

  lemma MinusTwice(e: bv32, a: bv32, b: bv32)
    ensures Minus(Minus(e, a), b) == Minus(e, Union(a, b))
  {
  }

  lemma MinusDisjoint(e: bv32, a: bv32, b: bv32)
    requires Within(b, Minus(e, a))
    ensures Meet(a, b) == 0
  {
  }

  // ---- Bit by bit ----

  /** A mask of one bit. */
  predicate Single(b: bv32) {
    b != 0 && b & (b - 1) == 0
  }

  /** The bit b is one of e. */
  predicate Has(e: bv32, b: bv32) {
    Meet(e, b) != 0
  }

  function LowestOf(x: bv32): bv32 {
    x & (0 - x)
  }

  lemma LowestIsSingle(x: bv32)
    requires x != 0
    ensures Single(LowestOf(x)) && Has(x, LowestOf(x))
  {
  }

  /** A mask of one bit is all there or not at all. */
  lemma AllOrNothing(e: bv32, b: bv32)
    requires Single(b)
    ensures Meet(e, b) == 0 || Meet(e, b) == b
  {
  }

  lemma MeetHas(a: bv32, b: bv32, bit: bv32)
    requires Single(bit)
    ensures Has(Meet(a, b), bit) <==> Has(a, bit) && Has(b, bit)
  {
    AllOrNothing(a, bit);
    AllOrNothing(b, bit);
    hide Single;
  }

  lemma UnionCut(a: bv32, b: bv32, c: bv32)
    ensures Meet(Union(a, b), c) == Union(Meet(a, c), Meet(b, c))
  {
  }

  lemma UnionNothing(a: bv32, b: bv32)
    ensures Union(a, b) == 0 <==> a == 0 && b == 0
  {
  }

  lemma UnionHas(a: bv32, b: bv32, bit: bv32)
    ensures Has(Union(a, b), bit) <==> Has(a, bit) || Has(b, bit)
  {
    hide Union, Meet;
    UnionCut(a, b, bit);
    UnionNothing(Meet(a, bit), Meet(b, bit));
  }

  lemma MinusCut(a: bv32, b: bv32, c: bv32)
    ensures Meet(Minus(a, b), c) == Minus(Meet(a, c), Meet(b, c))
  {
  }

  lemma MinusFrom(a: bv32, c: bv32)
    ensures Minus(a, 0) == a && Minus(Meet(a, c), c) == 0
  {
  }

  lemma MinusHas(a: bv32, b: bv32, bit: bv32)
    requires Single(bit)
    ensures Has(Minus(a, b), bit) <==> Has(a, bit) && !Has(b, bit)
  {
    AllOrNothing(b, bit);
    hide Single, Minus, Meet;
    MinusCut(a, b, bit);
    MinusFrom(a, bit);
    MinusFrom(Meet(a, bit), bit);
  }

  lemma NotWithin(a: bv32, b: bv32)
    ensures Within(a, b) <==> Minus(a, b) == 0
  {
  }

  /** Some bit of a is one of b. */
  ghost predicate Shares(a: bv32, b: bv32) {
    exists bit: bv32 :: Single(bit) && Has(a, bit) && Has(b, bit)
  }

  /** Some bit of a is none of b. */
  ghost predicate Lacks(b: bv32, a: bv32) {
    exists bit: bv32 :: Single(bit) && Has(a, bit) && !Has(b, bit)
  }

  lemma MeetBits(a: bv32, b: bv32)
    ensures Meet(a, b) != 0 <==> Shares(a, b)
  {
    hide Meet, Has, Single, LowestOf;
    if Meet(a, b) != 0 {
      var bit := LowestOf(Meet(a, b));
      LowestIsSingle(Meet(a, b));
      MeetHas(a, b, bit);
    }
    if Shares(a, b) {
      var bit :| Single(bit) && Has(a, bit) && Has(b, bit);
      MeetHas(a, b, bit);
      NothingHas(Meet(a, b), bit);
    }
  }

  lemma NothingHas(e: bv32, bit: bv32)
    requires Has(e, bit)
    ensures e != 0
  {
  }

  lemma WithinBits(a: bv32, b: bv32)
    ensures Within(a, b) <==> !Lacks(b, a)
  {
    hide Within, Minus, Has, Single, LowestOf;
    NotWithin(a, b);
    if Minus(a, b) != 0 {
      var bit := LowestOf(Minus(a, b));
      LowestIsSingle(Minus(a, b));
      MinusHas(a, b, bit);
    }
    if Lacks(b, a) {
      var bit :| Single(bit) && Has(a, bit) && !Has(b, bit);
      MinusHas(a, b, bit);
      NothingHas(Minus(a, b), bit);
    }
  }
}

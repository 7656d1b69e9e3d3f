/**
 * What the operators of finsh compute, in the terms of C: the arithmetic of two's complement longs
 * modulo 2 to the 32, truncating division, and each bit of the bitwise results.
 */
module FinshOperators {
  import opened Base
  import opened FinshLanguage
  import B = Bits

  predicate Bit(x: u32, q: nat) {
    B.Bit(x, q)
  }

  /** A word is determined by its 32 bits. */
  lemma SameWord(x: u32, y: u32)
    requires forall q: nat :: q < 32 ==> (Bit(x, q) <==> Bit(y, q))
    ensures x == y
  {
    B.WordPowers();
    forall q: nat | q < 32 ensures B.Bit(x, q) <==> B.Bit(y, q) {
      assert Bit(x, q) <==> Bit(y, q);
    }
    B.SameBits(x, y, 32);
  }

  lemma WrapSmall(x: int)
    requires 0 <= x < TWO32
    ensures Wrap(x) == x
  {
  }

  // ---- Bitwise operators ----

  /** &, | and ^ are defined for all operands and work on each bit by itself. */
  lemma Bitwise(x: u32, y: u32, q: nat)
    ensures Alu(And, x, y).Some? && (Bit(Alu(And, x, y).value, q) <==> Bit(x, q) && Bit(y, q))
    ensures Alu(Or, x, y).Some? && (Bit(Alu(Or, x, y).value, q) <==> Bit(x, q) || Bit(y, q))
    ensures Alu(Xor, x, y).Some? && (Bit(Alu(Xor, x, y).value, q) <==> Bit(x, q) != Bit(y, q))
  {
    hide B.And, B.Or, B.Xor, B.Bit, B.Pow2, Wrap;
    B.WordPowers();
    B.AndBit(x, y, q);
    B.OrBit(x, y, q);
    B.XorBit(x, y, q);
    B.AndBound(x, y);
    B.OrBound(x, y, 32);
    B.XorBound(x, y, 32);
    WrapSmall(B.And(x, y));
    WrapSmall(B.Or(x, y));
    WrapSmall(B.Xor(x, y));
  }

  /** ~ inverts each bit. */
  lemma Inverted(x: u32, q: nat)
    requires q < 32
    ensures Bit(Flip(x), q) <==> !Bit(x, q)
    ensures Signed(Flip(x)) == -1 - Signed(x)
  {
    hide B.Bit, B.Pow2;
    B.WordPowers();
    B.FlipBit(x, 32, q);
  }

  /** << moves each bit up and drops those above bit 31; the count has to be below 32. */
  lemma ShiftedLeft(x: u32, y: u32, q: nat)
    requires q < 32
    ensures Alu(Shl, x, y).Some? <==> y < 32
    ensures y < 32 ==> (Bit(Alu(Shl, x, y).value, q) <==> y <= q && Bit(x, q - y))
  {
    hide B.Bit, B.Pow2, B.Low;
    if y < 32 {
      B.WordPowers();
      B.ShlBit(x, y, q);
      B.LowIsMod(x * B.Pow2(y), 32);
      B.LowBit(x * B.Pow2(y), 32, q);
    }
  }

  /** >> moves each bit down and fills up with the sign. */
  lemma ShiftedRight(x: u32, y: u32, q: nat)
    requires q < 32
    ensures Alu(Shr, x, y).Some? <==> y < 32
    ensures y < 32 ==> (Bit(Alu(Shr, x, y).value, q) <==> Bit(x, if q + y < 32 then q + y else 31))
  {
    hide B.Bit, B.Pow2, B.Shr, Wrap, Flip;
    if y < 32 {
      B.WordPowers();
      B.TopBit(x, 31);
      ShrForm(x, y);
      if x < 0x8000_0000 {
        B.ShrBit(x, y, q);
        if q + y >= 32 { B.HighBit(x, 32, q + y); }
      } else {
        var f := Flip(x);
        B.ShrBit(f, y, q);
        ShrBound(f, y);
        Inverted(B.Shr(f, y), q);
        if q + y >= 32 { B.HighBit(f, 32, q + y); } else { Inverted(x, q + y); }
      }
    }
  }

  lemma ShrBound(g: nat, k: nat)
    ensures B.Shr(g, k) <= g
  {
    B.ShrIsDiv(g, k);
    Shrinks(g, B.Pow2(k));
  }

  lemma Shrinks(g: nat, d: nat)
    requires d > 0
    ensures g / d <= g
  {
    var (a, t) := (g / d, g % d);
    assert g == d * a + t;
    AtLeast(a, d);
  }

  lemma AtLeast(d: int, n: int)
    requires d >= 0 && n >= 1
    ensures d * n >= d
  {
    NotNegative(d, n - 1);
    assert d * n == d + d * (n - 1);
  }

  lemma NotNegative(a: int, b: int)
    requires a >= 0 && b >= 0
    ensures a * b >= 0
  {
  }

  /** Dividing a negative number is dividing its complement. */
  lemma ShrForm(x: u32, y: u32)
    requires y < 32
    ensures B.Shr(Flip(x), y) < TWO32
    ensures Alu(Shr, x, y) == Some(if x < 0x8000_0000 then B.Shr(x, y) else Flip(B.Shr(Flip(x), y)))
  {
    hide B.Pow2, B.Shr, Wrap;
    var p := B.Pow2(y);
    B.ShrIsDiv(x, y);
    B.ShrIsDiv(Flip(x), y);
    ShrBound(x, y);
    ShrBound(Flip(x), y);
    if x >= 0x8000_0000 {
      Negative(Flip(x), p);
      WrapComplement(B.Shr(Flip(x), y));
    } else {
      WrapSmall(B.Shr(x, y));
    }
  }

  lemma WrapComplement(x: u32)
    ensures Wrap(-1 - x) == Flip(x)
  {
  }

  lemma Negative(g: int, p: int)
    requires p > 0 && g >= 0
    ensures (-1 - g) / p == -1 - g / p
  {
    var (a, t) := (g / p, g % p);
    assert g == p * a + t && 0 <= t < p;
    assert p * (-1 - a) == -p - p * a;
    Floor(-1 - g, p, -1 - a, p - 1 - t);
  }

  lemma Floor(x: int, d: int, a: int, r: int)
    requires 0 <= r < d && x == d * a + r
    ensures x / d == a
  {
    var (b, t) := (x / d, x % d);
    assert x == d * b + t;
    assert d * (b - a) == r - t && d * (a - b) == t - r;
    if b > a {
      AtLeast(d, b - a);
    } else if b < a {
      AtLeast(d, a - b);
    }
  }

  // ---- Arithmetic ----

  /** Two numbers that are the same modulo 2 to the 32. */
  ghost predicate Congruent(x: int, y: int) {
    exists k: int :: x == y + k * TWO32
  }

  /** A long that fits. */
  predicate IsLong(x: int) {
    -0x8000_0000 <= x < 0x8000_0000
  }

  lemma SignedWrap(x: int)
    ensures IsLong(Signed(Wrap(x))) && Congruent(Signed(Wrap(x)), x)
    ensures IsLong(x) ==> Signed(Wrap(x)) == x
  {
    var k := x / TWO32;
    assert Wrap(x) == x - k * TWO32;
    assert x + (-k) * TWO32 == x - k * TWO32 && x + (-k - 1) * TWO32 == x - k * TWO32 - TWO32;
  }

  /** Congruent longs are equal. */
  lemma OneLong(x: int, y: int)
    requires IsLong(x) && IsLong(y) && Congruent(x, y)
    ensures x == y
  {
  }

  lemma CongruentProduct(a: int, b: int, x: int, y: int)
    requires Congruent(a, x) && Congruent(b, y)
    ensures Congruent(a * b, x * y)
  {
    var j :| a == x + j * TWO32;
    var k :| b == y + k * TWO32;
    assert a * b == x * y + (x * k + j * y + j * k * TWO32) * TWO32;
  }

  lemma CongruentThrough(a: int, b: int, c: int)
    requires Congruent(a, b) && Congruent(b, c)
    ensures Congruent(a, c)
  {
    var j :| a == b + j * TWO32;
    var k :| b == c + k * TWO32;
    assert a == c + (j + k) * TWO32;
  }

  lemma CongruentSum(a: int, b: int, x: int, y: int)
    requires Congruent(a, x) && Congruent(b, y)
    ensures Congruent(a + b, x + y) && Congruent(a - b, x - y)
  {
    var j :| a == x + j * TWO32;
    var k :| b == y + k * TWO32;
    assert a + b == x + y + (j + k) * TWO32 && a - b == x - y + (j - k) * TWO32;
  }

  lemma SignedIs(x: u32)
    ensures Congruent(x, Signed(x))
  {
    assert x == Signed(x) + (if x < 0x8000_0000 then 0 else 1) * TWO32;
  }

  /** The word z is the long that x is modulo 2 to the 32: x itself, if that fits. */
  ghost predicate IsWrapped(z: u32, x: int) {
    Congruent(Signed(z), x) && (IsLong(x) ==> Signed(z) == x)
  }

  lemma Wrapped(x: int, y: int)
    requires Congruent(x, y)
    ensures IsWrapped(Wrap(x), y)
  {
    SignedWrap(x);
    CongruentThrough(Signed(Wrap(x)), x, y);
    if IsLong(y) {
      OneLong(Signed(Wrap(x)), y);
    }
  }

  /** +, - and * are those of the longs, wrapped around. */
  lemma Arithmetic(x: u32, y: u32)
    ensures Alu(Add, x, y).Some? && IsWrapped(Alu(Add, x, y).value, Signed(x) + Signed(y))
    ensures Alu(Sub, x, y).Some? && IsWrapped(Alu(Sub, x, y).value, Signed(x) - Signed(y))
    ensures Alu(Mul, x, y).Some? && IsWrapped(Alu(Mul, x, y).value, Signed(x) * Signed(y))
  {
    hide Congruent, IsWrapped, Wrap, Signed;
    SignedIs(x);
    SignedIs(y);
    CongruentSum(x, y, Signed(x), Signed(y));
    CongruentProduct(x, y, Signed(x), Signed(y));
    Wrapped(x + y, Signed(x) + Signed(y));
    Wrapped(x - y, Signed(x) - Signed(y));
    Wrapped(x * y, Signed(x) * Signed(y));
  }

  /** The quotient q and the remainder r of C: the quotient is cut off toward zero. */
  ghost predicate Divides(x: int, y: int, q: int, r: int) {
    && x == y * q + r
    && Size(r) < Size(y)
    && (r == 0 || (r < 0 <==> x < 0))
  }

  function Size(x: int): int {
    if x < 0 then -x else x
  }

  /** / and % go together: both are defined unless y is zero or the quotient does not fit. */
  lemma Division(x: u32, y: u32)
    ensures Alu(Div, x, y).Some? <==> Signed(y) != 0 && !(Signed(x) == -0x8000_0000 && Signed(y) == -1)
    ensures Alu(Mod, x, y).Some? <==> Alu(Div, x, y).Some?
    ensures Alu(Div, x, y).Some? ==>
              Divides(Signed(x), Signed(y), Signed(Alu(Div, x, y).value), Signed(Alu(Mod, x, y).value))
  {
    hide Wrap, TruncDiv, Congruent, Divides;
    if Alu(Div, x, y).Some? {
      var (a, b) := (Signed(x), Signed(y));
      var q := TruncDiv(a, b);
      Truncates(a, b);
      Fits(a, b, q, a - b * q);
      SignedWrap(q);
      SignedWrap(a - b * q);
    }
  }

  lemma Truncates(a: int, b: int)
    requires b != 0
    ensures Divides(a, b, TruncDiv(a, b), a - b * TruncDiv(a, b))
  {
    var (m, n) := (Size(a), Size(b));
    var (c, t) := (m / n, m % n);
    assert m == n * c + t && 0 <= t < n;
    Signs(b, c);
  }

  lemma Signs(b: int, c: int)
    ensures (-b) * c == -(b * c) && b * (-c) == -(b * c)
  {
  }

  lemma Fits(a: int, b: int, q: int, r: int)
    requires IsLong(a) && IsLong(b) && b != 0 && Divides(a, b, q, r) && !(a == -0x8000_0000 && b == -1)
    ensures IsLong(q) && IsLong(r)
  {
    SizeProduct(b, q);
    SameSign(a, b * q, r);
    if Size(b) > 1 {
      Half(Size(b), Size(q));
    }
  }

  /** The remainder does not take the product past zero. */
  lemma SameSign(a: int, p: int, r: int)
    requires a == p + r && (r == 0 || (r < 0 <==> a < 0))
    requires p == 0 || Size(p) > Size(r)
    ensures Size(p) <= Size(a)
  {
  }

  lemma Half(b: int, q: int)
    requires b >= 2 && q >= 0
    ensures b * q >= 2 * q
  {
    NotNegative(b - 2, q);
    assert b * q == 2 * q + (b - 2) * q;
  }

  lemma SizeProduct(b: int, q: int)
    ensures Size(b * q) == Size(b) * Size(q)
    ensures q != 0 ==> Size(b * q) >= Size(b)
  {
    Signs(b, q);
    Signs(-b, q);
    if b >= 0 && q >= 0 { NotNegative(b, q); }
    if b >= 0 && q < 0 { NotNegative(b, -q); }
    if b < 0 && q >= 0 { NotNegative(-b, q); }
    if b < 0 && q < 0 { NotNegative(-b, -q); }
    if q != 0 { AtLeast(Size(b), Size(q)); }
  }

  /** There is only one such quotient and remainder. */
  lemma DividesOnce(x: int, y: int, q: int, r: int, q': int, r': int)
    requires y != 0 && Divides(x, y, q, r) && Divides(x, y, q', r')
    ensures q == q' && r == r'
  {
    assert y * (q - q') == r' - r;
    SizeProduct(y, q - q');
  }

  // ---- The memory ----

  /** What is stored is fetched from there, and from elsewhere what was there. */
  lemma StoreThenFetch(m: Memory, a: u32, v: u32, b: u32)
    ensures Store(m, a, v).Some? <==> Fetch(m, a).Some?
    ensures Store(m, a, v).Some? ==>
              var m' := Store(m, a, v).value;
              Fetch(m', a) == Some(v) && (b != a ==> Fetch(m', b) == Fetch(m, b)) && m'.Keys == m.Keys
    ensures Fetch(m, a).Some? <==> a in m.Keys
    ensures Fetch(m, a).Some? ==> Fetch(m, a).value == m[a]
  {
  }
}

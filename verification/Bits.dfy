/** Words as numbers: bits and bitwise operations defined from the lowest bit up. */
module Bits {

  predicate Odd(g: nat) {
    g % 2 == 1
  }

  function Half(g: nat): nat {
    g / 2
  }

  /** The number with this lowest bit above which h stands. */
  function Join(low: bool, h: nat): nat {
    (if low then 1 else 0) + 2 * h
  }

  lemma JoinParts(low: bool, h: nat)
    ensures Odd(Join(low, h)) == low && Half(Join(low, h)) == h
  {
  }

  /** 1 << n. */
  function Pow2(n: nat): (r: nat)
    ensures r >= 1
  {
    if n == 0 then 1 else Join(false, Pow2(n - 1))
  }

  /** Bit p of g: (g >> p) & 1. */
  predicate Bit(g: nat, p: nat)
    decreases p
  {
    if p == 0 then Odd(g) else Bit(Half(g), p - 1)
  }

  /** g | m. */
  function Or(g: nat, m: nat): nat
    decreases g + m
  {
    if g == 0 && m == 0 then 0 else Join(Odd(g) || Odd(m), Or(Half(g), Half(m)))
  }

  /** g & m. */
  function And(g: nat, m: nat): nat {
    if g == 0 then 0 else Join(Odd(g) && Odd(m), And(Half(g), Half(m)))
  }

  /** g ^ m. */
  function Xor(g: nat, m: nat): nat
    decreases g + m
  {
    if g == 0 && m == 0 then 0 else Join(Odd(g) != Odd(m), Xor(Half(g), Half(m)))
  }

  /** g & ~m. */
  function AndNot(g: nat, m: nat): nat {
    if g == 0 then 0 else Join(Odd(g) && !Odd(m), AndNot(Half(g), Half(m)))
  }

  /** g >> k. */
  function Shr(g: nat, k: nat): nat
    decreases k
  {
    if k == 0 then g else Shr(Half(g), k - 1)
  }

  /** g & ((1 << k) - 1). */
  function Low(g: nat, k: nat): nat
    decreases k
  {
    if k == 0 then 0 else Join(Odd(g), Low(Half(g), k - 1))
  }

  lemma {:induction false} ZeroBit(p: nat)
    ensures !Bit(0, p)
  {
    if p > 0 {
      ZeroBit(p - 1);
    }
  }

  lemma {:induction false} OrBit(g: nat, m: nat, q: nat)
    ensures Bit(Or(g, m), q) <==> Bit(g, q) || Bit(m, q)
    decreases q
  {
    hide Odd, Half, Join;
    ZeroBit(q);
    if g != 0 || m != 0 {
      JoinParts(Odd(g) || Odd(m), Or(Half(g), Half(m)));
      if q > 0 {
        OrBit(Half(g), Half(m), q - 1);
      }
    }
  }

  lemma {:induction false} AndNotBit(g: nat, m: nat, q: nat)
    ensures Bit(AndNot(g, m), q) <==> Bit(g, q) && !Bit(m, q)
    decreases q
  {
    hide Odd, Half, Join;
    ZeroBit(q);
    if g != 0 {
      JoinParts(Odd(g) && !Odd(m), AndNot(Half(g), Half(m)));
      if q > 0 {
        AndNotBit(Half(g), Half(m), q - 1);
      }
    }
  }

  /** 1 << p has bit p and no other. */
  lemma {:induction false} Pow2Bit(p: nat, q: nat)
    ensures Bit(Pow2(p), q) <==> p == q
    decreases p
  {
    if p == 0 {
      if q > 0 {
        ZeroBit(q - 1);
      }
    } else {
      JoinParts(false, Pow2(p - 1));
      if q > 0 {
        Pow2Bit(p - 1, q - 1);
      }
    }
  }

  /** Setting bit p sets that bit and no other. */
  lemma SetBit(g: nat, p: nat, q: nat)
    ensures Bit(Or(g, Pow2(p)), q) <==> Bit(g, q) || p == q
  {
    OrBit(g, Pow2(p), q);
    Pow2Bit(p, q);
  }

  /** Clearing bit p clears that bit and no other. */
  lemma ClearBit(g: nat, p: nat, q: nat)
    ensures Bit(AndNot(g, Pow2(p)), q) <==> Bit(g, q) && p != q
  {
    AndNotBit(g, Pow2(p), q);
    Pow2Bit(p, q);
  }

  /** The operations stay within k bits. */
  lemma {:induction false} OrBound(g: nat, m: nat, k: nat)
    requires g < Pow2(k) && m < Pow2(k)
    ensures Or(g, m) < Pow2(k)
    decreases k
  {
    if k > 0 {
      OrBound(Half(g), Half(m), k - 1);
    }
  }

  lemma {:induction false} AndNotBound(g: nat, m: nat)
    ensures AndNot(g, m) <= g
  {
    if g > 0 {
      AndNotBound(Half(g), Half(m));
    }
  }

  lemma {:induction false} Pow2Less(p: nat, k: nat)
    requires p < k
    ensures Pow2(p) < Pow2(k)
    decreases k
  {
    if p > 0 {
      Pow2Less(p - 1, k - 1);
    }
  }

  /** A word that is not zero has a bit. */
  lemma {:induction false} SomeBit(g: nat, k: nat)
    requires 0 < g < Pow2(k)
    ensures exists p: nat :: p < k && Bit(g, p)
    decreases k
  {
    if Odd(g) {
      assert Bit(g, 0);
    } else {
      SomeBit(Half(g), k - 1);
      var p: nat :| p < k - 1 && Bit(Half(g), p);
      assert Bit(g, p + 1);
    }
  }

  lemma BitNonZero(g: nat, p: nat)
    requires Bit(g, p)
    ensures g != 0
  {
    ZeroBit(p);
  }

  lemma {:induction false} ShrBit(g: nat, k: nat, q: nat)
    ensures Bit(Shr(g, k), q) <==> Bit(g, q + k)
    decreases k
  {
    hide Odd, Half;
    if k > 0 {
      ShrBit(Half(g), k - 1, q);
    }
  }

  lemma {:induction false} LowBit(g: nat, k: nat, q: nat)
    ensures Bit(Low(g, k), q) <==> q < k && Bit(g, q)
    decreases k
  {
    hide Odd, Half, Join;
    if k == 0 {
      ZeroBit(q);
    } else {
      JoinParts(Odd(g), Low(Half(g), k - 1));
      if q > 0 {
        LowBit(Half(g), k - 1, q - 1);
      }
    }
  }

  lemma {:induction false} LowBound(g: nat, k: nat)
    ensures Low(g, k) < Pow2(k)
    decreases k
  {
    if k > 0 {
      LowBound(Half(g), k - 1);
    }
  }

  /** r is the position of the lowest set bit. */
  ghost predicate IsLowest(g: nat, r: nat) {
    Bit(g, r) && forall q: nat :: q < r ==> !Bit(g, q)
  }

  function LowestBit(g: nat): nat
    requires g > 0
  {
    if Odd(g) then 0 else 1 + LowestBit(Half(g))
  }

  lemma {:induction false} LowestBitIsLowest(g: nat)
    requires g > 0
    ensures IsLowest(g, LowestBit(g))
  {
    if !Odd(g) {
      LowestBitIsLowest(Half(g));
      forall q: nat | q < LowestBit(g) ensures !Bit(g, q) {
        if q > 0 {
          assert !Bit(Half(g), q - 1);
        }
      }
    }
  }

  lemma {:induction false} AndBit(g: nat, m: nat, q: nat)
    ensures Bit(And(g, m), q) <==> Bit(g, q) && Bit(m, q)
    decreases q
  {
    hide Odd, Half, Join;
    ZeroBit(q);
    if g != 0 {
      JoinParts(Odd(g) && Odd(m), And(Half(g), Half(m)));
      if q > 0 {
        AndBit(Half(g), Half(m), q - 1);
      }
    }
  }

  lemma {:induction false} XorBit(g: nat, m: nat, q: nat)
    ensures Bit(Xor(g, m), q) <==> Bit(g, q) != Bit(m, q)
    decreases q
  {
    hide Odd, Half, Join;
    ZeroBit(q);
    if g != 0 || m != 0 {
      JoinParts(Odd(g) != Odd(m), Xor(Half(g), Half(m)));
      if q > 0 {
        XorBit(Half(g), Half(m), q - 1);
      }
    }
  }

  lemma {:induction false} AndBound(g: nat, m: nat)
    ensures And(g, m) <= g
  {
    if g > 0 {
      AndBound(Half(g), Half(m));
    }
  }

  lemma {:induction false} XorBound(g: nat, m: nat, k: nat)
    requires g < Pow2(k) && m < Pow2(k)
    ensures Xor(g, m) < Pow2(k)
    decreases k
  {
    if k > 0 {
      XorBound(Half(g), Half(m), k - 1);
    }
  }

  lemma {:induction false} Pow2Sum(a: nat, b: nat)
    ensures Pow2(a + b) == Pow2(a) * Pow2(b)
  {
    if a > 0 {
      Pow2Sum(a - 1, b);
    }
  }

  lemma WordPowers()
    ensures Pow2(31) == 0x8000_0000 && Pow2(32) == 0x1_0000_0000
  {
    assert Pow2(4) == 16;
    Pow2Sum(4, 4);
    Pow2Sum(8, 8);
    Pow2Sum(16, 16);
  }

  /** A number below 1 << k has no bit from k on. */
  lemma {:induction false} HighBit(g: nat, k: nat, q: nat)
    requires g < Pow2(k) && k <= q
    ensures !Bit(g, q)
    decreases k
  {
    if k == 0 {
      ZeroBit(q);
    } else {
      HighBit(Half(g), k - 1, q - 1);
    }
  }

  /** Its highest bit tells whether it is at least half of that. */
  lemma {:induction false} TopBit(g: nat, k: nat)
    requires g < Pow2(k + 1)
    ensures Bit(g, k) <==> g >= Pow2(k)
    decreases k
  {
    if k > 0 {
      TopBit(Half(g), k - 1);
    }
  }

  /** Two numbers below 1 << k with the same bits are the same. */
  lemma {:induction false} SameBits(g: nat, m: nat, k: nat)
    requires g < Pow2(k) && m < Pow2(k) && forall q: nat :: q < k ==> (Bit(g, q) <==> Bit(m, q))
    ensures g == m
    decreases k
  {
    if k > 0 {
      assert Bit(g, 0) <==> Bit(m, 0);
      forall q: nat | q < k - 1 ensures Bit(Half(g), q) <==> Bit(Half(m), q) {
        assert Bit(g, q + 1) <==> Bit(m, q + 1);
      }
      SameBits(Half(g), Half(m), k - 1);
    }
  }

  /** Taking a number from all ones inverts each bit. */
  lemma {:induction false} FlipBit(g: nat, k: nat, q: nat)
    requires g < Pow2(k) && q < k
    ensures Bit(Pow2(k) - 1 - g, q) <==> !Bit(g, q)
    decreases k
  {
    var f := Pow2(k) - 1 - g;
    assert Half(f) == Pow2(k - 1) - 1 - Half(g) && Odd(f) == !Odd(g);
    if q > 0 {
      FlipBit(Half(g), k - 1, q - 1);
    }
  }

  /** Multiplying by 1 << k moves each bit up. */
  lemma {:induction false} ShlBit(g: nat, k: nat, q: nat)
    ensures Bit(g * Pow2(k), q) <==> k <= q && Bit(g, q - k)
    decreases k
  {
    if k > 0 {
      Doubled(g, k);
      hide Odd, Half, Join;
      JoinParts(false, g * Pow2(k - 1));
      if q > 0 {
        ShlBit(g, k - 1, q - 1);
      }
    }
  }

  lemma Doubled(g: nat, k: nat)
    requires k > 0
    ensures g * Pow2(k) == Join(false, g * Pow2(k - 1))
  {
    var p := Pow2(k - 1);
    assert g * (2 * p) == 2 * (g * p);
  }

  /** Shifting right is dividing, and masking is the remainder. */
  lemma {:induction false} ShrIsDiv(g: nat, k: nat)
    ensures Shr(g, k) == g / Pow2(k)
    decreases k
  {
    if k > 0 {
      ShrIsDiv(Half(g), k - 1);
      HalfDiv(g, Pow2(k - 1));
    }
  }

  lemma HalfDiv(g: nat, p: nat)
    requires p > 0
    ensures g / 2 / p == g / (2 * p)
    ensures g % (2 * p) == g % 2 + 2 * (g / 2 % p)
  {
    var (h, r) := (g / 2, g % 2);
    var (a, b) := (h / p, h % p);
    assert g == (2 * p) * a + (2 * b + r) by { assert h == p * a + b; assert 2 * (p * a) == (2 * p) * a; }
    Unique(g, 2 * p, a, 2 * b + r);
  }

  lemma Apart(d: nat, a: nat, b: nat)
    requires a < b
    ensures d * b >= d * a + d
  {
    assert d * b == d * (a + 1) + d * (b - a - 1);
  }

  lemma Unique(g: nat, d: nat, a: nat, r: nat)
    requires 0 < d && r < d && g == d * a + r
    ensures g / d == a && g % d == r
  {
    var (b, t) := (g / d, g % d);
    assert g == d * b + t;
    if a < b {
      Apart(d, a, b);
    } else if b < a {
      Apart(d, b, a);
    }
  }

  lemma {:induction false} LowIsMod(g: nat, k: nat)
    ensures Low(g, k) == g % Pow2(k)
    decreases k
  {
    if k > 0 {
      LowIsMod(Half(g), k - 1);
      HalfDiv(g, Pow2(k - 1));
    }
  }
}

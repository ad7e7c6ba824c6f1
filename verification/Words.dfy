// 32-bit unsigned words, as `unsigned int` and the bin maps use them.  A word
// is a natural number below 2^32; arithmetic wraps, and the bitwise operators
// are defined one binary digit at a time.
module Words {

  const WORD_BITS: nat := 32
  const MODULUS: nat := 0x1_0000_0000

  type Word = x: nat | x < MODULUS

  // ----- operators -----------------------------------------------------------

  // 2^k.
  function Pow2(k: nat): (r: nat)
    ensures r > 0
  {
    if k == 0 then 1 else 2 * Pow2(k - 1)
  }

  // Wrapping subtraction and negation.
  function Minus(x: Word, y: Word): Word {
    (x - y) % MODULUS
  }

  function Neg(x: Word): Word {
    Minus(0, x)
  }

  // Binary digit `i` of `x`.
  predicate HasBit(x: nat, i: nat) {
    if i == 0 then x % 2 == 1 else HasBit(x / 2, i - 1)
  }

  function And(x: nat, y: nat): (r: nat)
    ensures r <= x && r <= y
  {
    if x == 0 || y == 0 then 0
    else 2 * And(x / 2, y / 2) + (if x % 2 == 1 && y % 2 == 1 then 1 else 0)
  }

  function Or(x: nat, y: nat): (r: nat)
    decreases x + y
  {
    if x == 0 && y == 0 then 0
    else 2 * Or(x / 2, y / 2) + (if x % 2 == 1 || y % 2 == 1 then 1 else 0)
  }

  // `~x`.
  function Not(x: Word): Word {
    MODULUS - 1 - x
  }

  // `x >> k`.
  function Shr(x: nat, k: nat): (r: nat)
    ensures r <= x
  {
    if k == 0 then x else Shr(x / 2, k - 1)
  }

  // `x << k`, dropping what leaves the word.
  function Shl(x: Word, k: nat): Word {
    if k == 0 then x else 2 * Shl(x, k - 1) % MODULUS
  }

  // The positions of the bits set in `x`.
  ghost function Bits(x: nat): set<nat> {
    set i: nat | i < WORD_BITS && HasBit(x, i)
  }

  // ----- bit-map macros of the allocator ---------------------------------------

  // `idx2bit(i)`.
  function Bit(i: nat): (b: Word)
    requires i < WORD_BITS
  {
    PowBound(i, WORD_BITS);
    Pow2(i)
  }

  // `least_bit(x)`: isolate the least set bit.
  function LeastBit(x: Word): Word {
    And(x, Neg(x))
  }

  // `left_bits(x)`: all bits to the left of the least bit of `x`.
  function LeftBits(x: Word): nat {
    Or(Shl(x, 1), Neg(Shl(x, 1)))
  }

  // Index of the least set bit, as the bit-scan instruction finds it.
  function BitScan(x: nat): (i: nat)
    requires x > 0
    ensures HasBit(x, i)
    ensures forall j: nat | j < i :: !HasBit(x, j)
  {
    if x % 2 == 1 then 0
    else
      var i := BitScan(x / 2);
      assert forall j: nat | 0 < j < i + 1 :: HasBit(x, j) == HasBit(x / 2, j - 1);
      i + 1
  }

  // Index of the greatest set bit: 31 minus the leading-zero count.
  function FloorLog2(x: nat): (k: nat)
    requires x > 0
    ensures Pow2(k) <= x < Pow2(k + 1)
  {
    if x == 1 then 0 else FloorLog2(x / 2) + 1
  }

  // ----- powers ------------------------------------------------------------------

  lemma {:induction false} PowBound(i: nat, w: nat)
    requires i < w <= WORD_BITS
    ensures Pow2(i) < Pow2(w)
    ensures Pow2(WORD_BITS) == MODULUS
    decreases w
  {
    assert Pow2(8) == 0x100;
    assert Pow2(16) == 0x1_0000;
    assert Pow2(24) == 0x100_0000;
    if i < w - 1 { PowBound(i, w - 1); }
  }

  lemma {:induction false} PowMonotone(i: nat, j: nat)
    requires i <= j
    ensures Pow2(i) <= Pow2(j)
    decreases j
  {
    if i < j { PowMonotone(i, j - 1); }
  }

  // ----- digits of the results -----------------------------------------------------

  lemma {:induction false} ZeroBits(i: nat)
    ensures !HasBit(0, i)
  {
    if i > 0 { ZeroBits(i - 1); }
  }

  lemma {:induction false} AndBit(x: nat, y: nat, i: nat)
    ensures HasBit(And(x, y), i) <==> HasBit(x, i) && HasBit(y, i)
    decreases i
  {
    if x == 0 || y == 0 {
      ZeroBits(i);
    } else if i > 0 {
      AndBit(x / 2, y / 2, i - 1);
    }
  }

  lemma {:induction false} OrBit(x: nat, y: nat, i: nat)
    ensures HasBit(Or(x, y), i) <==> HasBit(x, i) || HasBit(y, i)
    decreases i
  {
    if x == 0 && y == 0 {
      ZeroBits(i);
    } else if i > 0 {
      OrBit(x / 2, y / 2, i - 1);
    }
  }

  lemma {:induction false} OrBound(x: nat, y: nat, w: nat)
    requires x < Pow2(w) && y < Pow2(w)
    ensures Or(x, y) < Pow2(w)
    decreases w
  {
    if w > 0 && (x != 0 || y != 0) { OrBound(x / 2, y / 2, w - 1); }
  }

  lemma HalfComplement(p: nat, x: nat)
    requires x < 2 * p
    ensures (2 * p - 1 - x) / 2 == p - 1 - x / 2 && (2 * p - 1 - x) % 2 == 1 - x % 2
  {
  }

  lemma {:induction false} ComplementBit(x: nat, w: nat, i: nat)
    requires x < Pow2(w) && i < w
    ensures HasBit(Pow2(w) - 1 - x, i) <==> !HasBit(x, i)
    decreases i
  {
    HalfComplement(Pow2(w - 1), x);
    if i > 0 { ComplementBit(x / 2, w - 1, i - 1); }
  }

  lemma {:induction false} PowBit(k: nat, i: nat)
    ensures HasBit(Pow2(k), i) <==> i == k
    decreases i
  {
    if i > 0 {
      if k > 0 { PowBit(k - 1, i - 1); } else { ZeroBits(i - 1); }
    }
  }

  lemma {:induction false} ShrBit(x: nat, k: nat, i: nat)
    ensures HasBit(Shr(x, k), i) <==> HasBit(x, i + k)
    decreases k
  {
    if k > 0 { ShrBit(x / 2, k - 1, i); }
  }

  lemma {:induction false} DropTopBit(x: nat, w: nat, i: nat)
    requires Pow2(w) <= x < 2 * Pow2(w) && i < w
    ensures HasBit(x - Pow2(w), i) <==> HasBit(x, i)
    decreases i
  {
    assert (x - Pow2(w)) / 2 == x / 2 - Pow2(w - 1);
    if i > 0 { DropTopBit(x / 2, w - 1, i - 1); }
  }

  lemma {:induction false} ShlBit(x: Word, k: nat, i: nat)
    requires i < WORD_BITS
    ensures HasBit(Shl(x, k), i) <==> i >= k && HasBit(x, i - k)
    decreases k
  {
    hide HasBit;
    if k > 0 {
      ShlOne(Shl(x, k - 1), i);
      if i > 0 { ShlBit(x, k - 1, i - 1); }
    }
  }

  // Shifting by one position.
  lemma {:induction false} ShlOne(z: Word, i: nat)
    requires i < WORD_BITS
    ensures HasBit(2 * z % MODULUS, i) <==> i > 0 && HasBit(z, i - 1)
  {
    hide Pow2;
    PowBound(0, WORD_BITS);
    DoubledBit(z, i);
    if 2 * z >= MODULUS {
      DropTopBit(2 * z, WORD_BITS, i);
      assert 2 * z % MODULUS == 2 * z - MODULUS;
    } else {
      assert 2 * z % MODULUS == 2 * z;
    }
  }

  lemma DoubledBit(z: nat, i: nat)
    ensures HasBit(2 * z, i) <==> i > 0 && HasBit(z, i - 1)
  {
  }

  // ----- what the bit-map operations mean as set operations --------------------------

  // `map & idx2bit(i)` tests membership.
  lemma BitTest(x: nat, i: nat)
    requires i < WORD_BITS
    ensures And(x, Bit(i)) != 0 <==> i in Bits(x)
  {
    AndBit(x, Bit(i), i);
    PowBit(i, i);
    if And(x, Bit(i)) != 0 {
      var j := BitScan(And(x, Bit(i)));
      AndBit(x, Bit(i), j);
      PowBit(i, j);
    } else {
      ZeroBits(i);
    }
  }

  // `map |= idx2bit(i)` adds `i`.
  lemma MarkBit(x: Word, i: nat)
    requires i < WORD_BITS
    ensures Or(x, Bit(i)) < MODULUS
    ensures Bits(Or(x, Bit(i))) == Bits(x) + {i}
  {
    PowBound(i, WORD_BITS);
    OrBound(x, Bit(i), WORD_BITS);
    forall j: nat | j < WORD_BITS
      ensures HasBit(Or(x, Bit(i)), j) <==> HasBit(x, j) || j == i
    {
      OrBit(x, Bit(i), j);
      PowBit(i, j);
    }
  }

  // `map &= ~idx2bit(i)` removes `i`.
  lemma ClearBit(x: Word, i: nat)
    requires i < WORD_BITS
    ensures Bits(And(x, Not(Bit(i)))) == Bits(x) - {i}
  {
    PowBound(i, WORD_BITS);
    forall j: nat | j < WORD_BITS
      ensures HasBit(And(x, Not(Bit(i))), j) <==> HasBit(x, j) && j != i
    {
      AndBit(x, Not(Bit(i)), j);
      ComplementBit(Bit(i), WORD_BITS, j);
      PowBit(i, j);
    }
  }

  lemma AndBits(x: nat, y: nat)
    ensures Bits(And(x, y)) == Bits(x) * Bits(y)
  {
    forall j: nat | j < WORD_BITS
      ensures HasBit(And(x, y), j) <==> HasBit(x, j) && HasBit(y, j)
    {
      AndBit(x, y, j);
    }
  }

  // A word is zero exactly when its set is empty.
  lemma EmptyWord(x: Word)
    ensures x == 0 <==> Bits(x) == {}
  {
    if x != 0 {
      var i := BitScan(x);
      PowBound(0, WORD_BITS);
      BitInWord(x, WORD_BITS, i);
      assert i in Bits(x);
    } else {
      forall i: nat | i < WORD_BITS ensures !HasBit(0, i) { ZeroBits(i); }
    }
  }

  lemma {:induction false} BitInWord(x: nat, w: nat, i: nat)
    requires x < Pow2(w) && HasBit(x, i)
    ensures i < w
    decreases i
  {
    if w == 0 {
      ZeroBits(i);
    } else if i > 0 {
      BitInWord(x / 2, w - 1, i - 1);
    }
  }

  // Scanning a non-zero word finds the least member of its set.
  lemma {:induction false} ScanIsMinimum(x: Word)
    requires x > 0
    ensures BitScan(x) in Bits(x)
    ensures forall j | j in Bits(x) :: BitScan(x) <= j
  {
    PowBound(0, WORD_BITS);
    BitInWord(x, WORD_BITS, BitScan(x));
  }

  // Scanning `least_bit(x)` finds the same position as scanning `x`.
  lemma {:induction false} ScanLeastBit(x: Word)
    requires x > 0
    ensures LeastBit(x) > 0 && BitScan(LeastBit(x)) == BitScan(x)
  {
    PowBound(0, WORD_BITS);
    assert Neg(x) == Pow2(WORD_BITS) - x;
    LeastBitValue(x, WORD_BITS);
    ScanPow(BitScan(x));
  }

  lemma {:induction false} ScanPow(k: nat)
    ensures BitScan(Pow2(k)) == k
  {
    PowBit(k, BitScan(Pow2(k)));
  }

  lemma {:induction false} LeastBitValue(x: nat, w: nat)
    requires 0 < x < Pow2(w)
    ensures And(x, Pow2(w) - x) == Pow2(BitScan(x))
    decreases x
  {
    hide And, BitScan;
    HalfNegation(Pow2(w - 1), x);
    AndSplit(x, Pow2(w) - x);
    if x % 2 == 1 {
      ComplementDisjoint(x / 2, w - 1);
    } else {
      LeastBitValue(x / 2, w - 1);
    }
    ScanSplit(x);
  }

  lemma HalfNegation(p: nat, x: nat)
    requires 0 < x < 2 * p
    ensures (2 * p - x) / 2 == p - x / 2 - x % 2 && (2 * p - x) % 2 == x % 2
  {
  }

  lemma AndSplit(x: nat, y: nat)
    requires x > 0 && y > 0
    ensures And(x, y) == 2 * And(x / 2, y / 2) + (if x % 2 == 1 && y % 2 == 1 then 1 else 0)
  {
  }

  lemma ScanSplit(x: nat)
    requires x > 0
    ensures BitScan(x) == if x % 2 == 1 then 0 else BitScan(x / 2) + 1
  {
  }

  lemma {:induction false} ComplementDisjoint(x: nat, w: nat)
    requires x < Pow2(w)
    ensures And(x, Pow2(w) - 1 - x) == 0
    decreases x
  {
    if x > 0 {
      assert (Pow2(w) - 1 - x) / 2 == Pow2(w - 1) - 1 - x / 2;
      ComplementDisjoint(x / 2, w - 1);
    }
  }

  lemma {:induction false} ShlBitValue(i: nat)
    requires i < WORD_BITS
    ensures Shl(Bit(i), 1) == (if i == 31 then 0 else Pow2(i + 1))
  {
    PowBound(i, WORD_BITS);
    assert Shl(Bit(i), 0) == Bit(i);
    if i < 31 {
      PowBound(i + 1, WORD_BITS);
    }
  }

  // `left_bits(idx2bit(i))` has exactly the positions above `i`.
  lemma {:induction false} LeftBitsAbove(i: nat, j: nat)
    requires i < WORD_BITS && j < WORD_BITS
    ensures j in Bits(LeftBits(Bit(i))) <==> i < j
  {
    ShlBitValue(i);
    var y := Shl(Bit(i), 1);
    OrBit(y, Neg(y), j);
    if i == 31 {
      ZeroBits(j);
    } else {
      NegPow(i + 1, j);
      PowBit(i + 1, j);
    }
  }

  lemma {:induction false} NegPow(k: nat, j: nat)
    requires k < WORD_BITS && j < WORD_BITS
    ensures Pow2(k) < MODULUS
    ensures HasBit(Neg(Pow2(k)), j) <==> j >= k
  {
    PowBound(k, WORD_BITS);
    NegPowBit(WORD_BITS, k, j);
    assert Neg(Pow2(k)) == Pow2(WORD_BITS) - Pow2(k);
  }

  lemma {:induction false} NegPowBit(w: nat, k: nat, j: nat)
    requires k < w && j < w && Pow2(k) <= Pow2(w)
    ensures HasBit(Pow2(w) - Pow2(k), j) <==> j >= k
    decreases j
  {
    if k == 0 {
      ComplementBit(0, w, j);
      ZeroBits(j);
    } else if j > 0 {
      assert (Pow2(w) - Pow2(k)) / 2 == Pow2(w - 1) - Pow2(k - 1);
      NegPowBit(w - 1, k - 1, j - 1);
    }
  }

  // The two lowest digits, as `bits & 3` and `~bits & 1` read them.
  lemma LowBits(x: Word)
    ensures And(x, 3) != 0 <==> HasBit(x, 0) || HasBit(x, 1)
    ensures And(Not(x), 1) == (if HasBit(x, 0) then 0 else 1)
  {
    assert And(x / 2, 1) == x / 2 % 2 by { assert And(x / 2 / 2, 0) == 0; }
    assert And(Not(x) / 2, 0) == 0;
  }
}

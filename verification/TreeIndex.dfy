// Bin numbers of the user heap: which tree bin holds a chunk size, which sizes
// a tree bin holds, and which digit of a size each tree level inspects.
module TreeIndex {
  import opened Words

  const NTREEBINS: nat := 32
  const TREEBIN_SHIFT: nat := 8
  const MIN_LARGE_SIZE: nat := 256

  // `compute_tree_index`.
  function ComputeTreeIndex(s: Word): nat {
    var x := Shr(s, TREEBIN_SHIFT);
    if x == 0 then 0
    else if x > 0xFFFF then NTREEBINS - 1
    else
      var k := FloorLog2(x);
      2 * k + And(Shr(s, k + (TREEBIN_SHIFT - 1)), 1)
  }

  // `minsize_for_tree_index`; the two alternatives of the source's `|` have no
  // digit in common, so it is a sum.
  function MinSize(i: nat): nat {
    Pow2(i / 2 + TREEBIN_SHIFT) + (if i % 2 == 1 then Pow2(i / 2 + TREEBIN_SHIFT - 1) else 0)
  }

  // `leftshift_for_tree_index`.
  function LeftShift(i: nat): nat
    requires i < NTREEBINS
  {
    if i == NTREEBINS - 1 then 0 else (WORD_BITS - 1) - (i / 2 + TREEBIN_SHIFT - 2)
  }

  // The digit that decides between `child[0]` and `child[1]`.
  function TopBit(k: Word): (b: nat)
    ensures b <= 1
  {
    And(Shr(k, WORD_BITS - 1), 1)
  }

  // The sizes of tree bin `i` start at `Base(i)` and there are 2^Width(i).
  function Base(i: nat): nat {
    if i == NTREEBINS - 1 then 0 else MinSize(i)
  }

  function Width(i: nat): nat {
    if i == NTREEBINS - 1 then WORD_BITS else i / 2 + TREEBIN_SHIFT - 1
  }

  // `lo` is a multiple of 2^w.
  predicate Aligned(lo: nat, w: nat) {
    w == 0 || (lo % 2 == 0 && Aligned(lo / 2, w - 1))
  }

  // ----- the index of a size --------------------------------------------------------

  lemma {:induction false} AndOne(x: nat)
    ensures And(x, 1) == x % 2
  {
    assert And(x / 2, 0) == 0;
  }

  lemma {:induction false} ShrDigit(x: nat, k: nat)
    ensures And(Shr(x, k), 1) == if HasBit(x, k) then 1 else 0
  {
    AndOne(Shr(x, k));
    ShrBit(x, k, 0);
  }

  lemma {:induction false} ShrRange(x: nat, k: nat, n: nat)
    ensures Shr(x, k) >= Pow2(n) <==> x >= Pow2(n + k)
    decreases k
  {
    if k > 0 {
      ShrRange(x / 2, k - 1, n);
    }
  }

  lemma {:induction false} UpperHalf(s: nat, k: nat)
    requires Pow2(k + 1) <= s < Pow2(k + 2)
    ensures HasBit(s, k) <==> s >= Pow2(k + 1) + Pow2(k)
    decreases k
  {
    if k > 0 {
      UpperHalf(s / 2, k - 1);
    }
  }

  lemma {:induction false} MinSizeStep(i: nat)
    ensures MinSize(i + 1) == MinSize(i) + Pow2(i / 2 + TREEBIN_SHIFT - 1)
  {
    if i % 2 == 0 {
      assert (i + 1) / 2 == i / 2;
    } else {
      assert (i + 1) / 2 == i / 2 + 1;
    }
  }

  lemma {:induction false} MinSizeMonotone(i: nat, j: nat)
    requires i <= j
    ensures MinSize(i) <= MinSize(j)
    decreases j
  {
    if i < j {
      MinSizeStep(j - 1);
      MinSizeMonotone(i, j - 1);
    }
  }

  lemma {:induction false} MiddleIndex(s: nat, k: nat)
    requires Pow2(k + TREEBIN_SHIFT) <= s < Pow2(k + 1 + TREEBIN_SHIFT)
    ensures var i := 2 * k + And(Shr(s, k + (TREEBIN_SHIFT - 1)), 1);
            i / 2 == k && MinSize(i) <= s < MinSize(i + 1)
  {
    var b := And(Shr(s, k + (TREEBIN_SHIFT - 1)), 1);
    ShrDigit(s, k + TREEBIN_SHIFT - 1);
    UpperHalf(s, k + TREEBIN_SHIFT - 1);
    MinSizeStep(2 * k + b);
    assert (2 * k + b) / 2 == k && (2 * k + b) % 2 == b;
  }

  lemma ShiftBounds(s: Word)
    ensures Shr(s, TREEBIN_SHIFT) > 0 <==> s >= MIN_LARGE_SIZE
    ensures Shr(s, TREEBIN_SHIFT) > 0xFFFF ==> s >= MinSize(NTREEBINS - 1)
  {
    ShrRange(s, TREEBIN_SHIFT, 0);
    ShrRange(s, TREEBIN_SHIFT, 16);
    assert Pow2(8) == 256;
    assert Pow2(16) == 0x1_0000;
    assert Pow2(22) == 0x40_0000;
    assert Pow2(24) == 0x100_0000;
  }

  lemma {:induction false} SmallLog(x: nat)
    requires 0 < x <= 0xFFFF
    ensures FloorLog2(x) < 16
  {
    assert Pow2(8) == 0x100;
    assert Pow2(16) == 0x1_0000;
    if FloorLog2(x) >= 16 { PowMonotone(16, FloorLog2(x)); }
  }

  // A large size lies between the least size of its bin and that of the next.
  lemma {:induction false} IndexBounds(s: Word)
    requires s >= MIN_LARGE_SIZE
    ensures ComputeTreeIndex(s) < NTREEBINS
    ensures MinSize(ComputeTreeIndex(s)) <= s
    ensures ComputeTreeIndex(s) < NTREEBINS - 1 ==> s < MinSize(ComputeTreeIndex(s) + 1)
  {
    hide MinSize, Pow2, Shr, And, FloorLog2;
    var x := Shr(s, TREEBIN_SHIFT);
    ShiftBounds(s);
    if x <= 0xFFFF {
      LogBounds(s, FloorLog2(x));
      MiddleIndex(s, FloorLog2(x));
    }
  }

  lemma {:induction false} LogBounds(s: nat, k: nat)
    requires 0 < Shr(s, TREEBIN_SHIFT) <= 0xFFFF && k == FloorLog2(Shr(s, TREEBIN_SHIFT))
    ensures k < 16 && Pow2(k + TREEBIN_SHIFT) <= s < Pow2(k + 1 + TREEBIN_SHIFT)
  {
    SmallLog(Shr(s, TREEBIN_SHIFT));
    ShrRange(s, TREEBIN_SHIFT, k);
    ShrRange(s, TREEBIN_SHIFT, k + 1);
  }

  // The bounds determine the index.
  lemma {:induction false} IndexUnique(s: Word, i: nat)
    requires s >= MIN_LARGE_SIZE && i < NTREEBINS
    requires MinSize(i) <= s && (i < NTREEBINS - 1 ==> s < MinSize(i + 1))
    ensures ComputeTreeIndex(s) == i
  {
    var c := ComputeTreeIndex(s);
    IndexBounds(s);
    if c < i {
      MinSizeMonotone(c + 1, i);
    } else if i < c {
      MinSizeMonotone(i + 1, c);
    }
  }

  // Bins are ordered like the sizes they hold.
  lemma {:induction false} IndexMonotone(s: Word, t: Word)
    requires MIN_LARGE_SIZE <= s <= t
    ensures ComputeTreeIndex(s) <= ComputeTreeIndex(t)
  {
    IndexBounds(s);
    IndexBounds(t);
    if ComputeTreeIndex(t) < ComputeTreeIndex(s) {
      MinSizeMonotone(ComputeTreeIndex(t) + 1, ComputeTreeIndex(s));
    }
  }

  // ----- the range of a tree bin -------------------------------------------------------

  lemma {:induction false} AlignedPow(k: nat, w: nat)
    requires w <= k
    ensures Aligned(Pow2(k), w)
    decreases w
  {
    if w > 0 { AlignedPow(k - 1, w - 1); }
  }

  lemma {:induction false} AlignedSum(a: nat, b: nat, w: nat)
    requires Aligned(a, w) && Aligned(b, w)
    ensures Aligned(a + b, w)
    decreases w
  {
    if w > 0 {
      assert (a + b) / 2 == a / 2 + b / 2;
      AlignedSum(a / 2, b / 2, w - 1);
    }
  }

  lemma {:induction false} AlignedLess(a: nat, w: nat)
    requires w > 0 && Aligned(a, w)
    ensures Aligned(a, w - 1)
    decreases w
  {
    if w > 1 { AlignedLess(a / 2, w - 1); }
  }

  lemma {:induction false} AlignedZero(w: nat)
    ensures Aligned(0, w)
  {
    if w > 0 { AlignedZero(w - 1); }
  }

  // Every size of a bin is in the bin's aligned power-of-two range.
  lemma {:induction false} BinRange(s: Word)
    requires s >= MIN_LARGE_SIZE
    ensures var i := ComputeTreeIndex(s);
            i < NTREEBINS && Base(i) <= s < Base(i) + Pow2(Width(i)) && Aligned(Base(i), Width(i))
  {
    var i := ComputeTreeIndex(s);
    IndexBounds(s);
    if i == NTREEBINS - 1 {
      PowBound(0, WORD_BITS);
      AlignedZero(WORD_BITS);
    } else {
      MinSizeStep(i);
      BaseAligned(i);
    }
  }

  lemma {:induction false} BaseAligned(i: nat)
    requires i < NTREEBINS
    ensures Aligned(Base(i), Width(i))
  {
    if i == NTREEBINS - 1 {
      AlignedZero(WORD_BITS);
    } else {
      AlignedPow(i / 2 + TREEBIN_SHIFT, Width(i));
      AlignedPow(i / 2 + TREEBIN_SHIFT - 1, Width(i));
      if i % 2 == 1 {
        AlignedSum(Pow2(i / 2 + TREEBIN_SHIFT), Pow2(i / 2 + TREEBIN_SHIFT - 1), Width(i));
      }
    }
  }

  // In an aligned range of 2^w sizes, digit w-1 tells the upper half from the
  // lower, and both halves are aligned.
  lemma {:induction false} DigitSplits(s: nat, lo: nat, w: nat)
    requires w > 0 && Aligned(lo, w) && lo <= s < lo + Pow2(w)
    ensures HasBit(s, w - 1) <==> s >= lo + Pow2(w - 1)
    decreases w
  {
    if w > 1 {
      DigitSplits(s / 2, lo / 2, w - 1);
    }
  }

  lemma {:induction false} HalvesAligned(lo: nat, w: nat)
    requires w > 0 && Aligned(lo, w)
    ensures Aligned(lo, w - 1) && Aligned(lo + Pow2(w - 1), w - 1) && Pow2(w) == 2 * Pow2(w - 1)
  {
    AlignedLess(lo, w);
    AlignedPow(w - 1, w - 1);
    AlignedSum(lo, Pow2(w - 1), w - 1);
  }

  // The digit inspected at the level where 2^w sizes remain.
  lemma {:induction false} LevelDigit(s: Word, i: nat, w: nat)
    requires i < NTREEBINS && 0 < w <= Width(i)
    ensures var shift := LeftShift(i) + (Width(i) - w);
            shift < WORD_BITS && TopBit(Shl(s, shift)) == (if HasBit(s, w - 1) then 1 else 0)
  {
    var shift := LeftShift(i) + (Width(i) - w);
    assert shift == WORD_BITS - w;
    ShrDigit(Shl(s, shift), WORD_BITS - 1);
    ShlBit(s, shift, WORD_BITS - 1);
  }

  lemma {:induction false} ShlStep(s: Word, n: nat)
    ensures Shl(Shl(s, n), 1) == Shl(s, n + 1)
  {
    assert Shl(Shl(s, n), 0) == Shl(s, n);
  }
}

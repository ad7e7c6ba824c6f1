// Request sizes of the user heap and the bit tests that choose a small bin.
module Requests {
  import opened Words

  const CHUNK_OVERHEAD: nat := 4
  const CHUNK_ALIGN_MASK: nat := 7
  const MIN_REQUEST: nat := 11
  const MAX_SMALL_REQUEST: nat := 244
  // (-MIN_CHUNK_SIZE) << 2
  const MAX_REQUEST: nat := 0xFFFF_FFC0
  const MAX_SIZE_T: nat := 0xFFFF_FFFF

  // `pad_request`
  function PadRequest(bytes: Word): Word {
    And((bytes + CHUNK_OVERHEAD + CHUNK_ALIGN_MASK) % MODULUS, Not(CHUNK_ALIGN_MASK))
  }

  lemma {:induction false} AndOnes(x: nat, w: nat)
    requires x < Pow2(w)
    ensures And(x, Pow2(w) - 1) == x
    decreases w
  {
    if x > 0 {
      assert (Pow2(w) - 1) / 2 == Pow2(w - 1) - 1;
      AndOnes(x / 2, w - 1);
    }
  }

  lemma MaskDigit(x: nat, c: nat)
    ensures And(x, 2 * c) == 2 * And(x / 2, c)
  {
    if x == 0 || c == 0 {
      assert And(x / 2, c) == 0;
    }
  }

  lemma Ones29(x: nat)
    requires x < 0x2000_0000
    ensures And(x, 0x1FFF_FFFF) == x
  {
    assert Pow2(8) == 0x100;
    assert Pow2(16) == 0x1_0000;
    assert Pow2(29) == 0x2000_0000;
    AndOnes(x, 29);
  }

  lemma {:induction false} MaskLow(x: Word)
    ensures And(x, Not(CHUNK_ALIGN_MASK)) == x / 8 * 8
  {
    hide And;
    MaskDigit(x, 0x7FFF_FFFC);
    MaskDigit(x / 2, 0x3FFF_FFFE);
    MaskDigit(x / 2 / 2, 0x1FFF_FFFF);
    Ones29(x / 2 / 2 / 2);
  }

  // The padded size is the least multiple of 8 with room for the request and one
  // header word, whenever the request is not refused.
  lemma {:induction false} PadRequestValue(bytes: Word)
    requires bytes < MAX_REQUEST
    ensures var nb := PadRequest(bytes);
            nb % 8 == 0 && bytes + CHUNK_OVERHEAD <= nb < bytes + CHUNK_OVERHEAD + 8
  {
    hide And, Not;
    var x := bytes + CHUNK_OVERHEAD + CHUNK_ALIGN_MASK;
    assert x % MODULUS == x;
    MaskLow(x);
  }

  // The chunk size a request asks for.
  function ChunkFor(bytes: Word): Word {
    if bytes <= MAX_SMALL_REQUEST then (if bytes < MIN_REQUEST then 16 else PadRequest(bytes))
    else if bytes >= MAX_REQUEST then MAX_SIZE_T
    else PadRequest(bytes)
  }

  // `(smallmap >> idx) & 3` and `~(smallmap >> idx) & 1` look for a bin that fits exactly
  // or with one unit to spare.
  lemma {:induction false} NearBins(map32: Word, idx: nat)
    requires idx < WORD_BITS
    ensures var sb := Shr(map32, idx);
            && (And(sb, 3) != 0 <==> idx in Bits(map32) || idx + 1 in Bits(map32))
            && And(Not(sb), 1) == (if idx in Bits(map32) then 0 else 1)
  {
    ShrBit(map32, idx, 0);
    ShrBit(map32, idx, 1);
    LowBits(Shr(map32, idx));
    if idx == 31 {
      OutOfWord(map32, 32);
    }
  }

  lemma {:induction false} OutOfWord(x: Word, i: nat)
    requires i >= WORD_BITS
    ensures !HasBit(x, i)
  {
    PowBound(0, WORD_BITS);
    if HasBit(x, i) { BitInWord(x, WORD_BITS, i); }
  }

  // `(smallbits << idx) & left_bits(idx2bit(idx))` leaves the bins above `idx`.
  lemma {:induction false} FarBins(map32: Word, idx: nat)
    requires idx < WORD_BITS && Shr(map32, idx) > 0 && idx !in Bits(map32)
    ensures var left := And(Shl(Shr(map32, idx), idx), LeftBits(Bit(idx)));
            && left > 0 && LeastBit(left) > 0
            && (var n := BitScan(LeastBit(left));
                idx < n < WORD_BITS && n in Bits(map32) && forall j | j in Bits(map32) && idx < j :: n <= j)
  {
    var sb := Shr(map32, idx);
    var m := BitScan(sb);
    ShrBit(map32, idx, m);
    if m + idx >= WORD_BITS { OutOfWord(map32, m + idx); }
    FarBit(map32, idx, m + idx);
    var left := And(Shl(sb, idx), LeftBits(Bit(idx)));
    EmptyWord(left);
    ScanIsMinimum(left);
    ScanLeastBit(left);
    forall j | j in Bits(map32) && idx < j ensures j in Bits(left) {
      FarBit(map32, idx, j);
    }
    FarBit(map32, idx, BitScan(left));
  }

  lemma {:induction false} FarBit(map32: Word, idx: nat, j: nat)
    requires idx < WORD_BITS && j < WORD_BITS
    ensures j in Bits(And(Shl(Shr(map32, idx), idx), LeftBits(Bit(idx)))) <==> idx < j && j in Bits(map32)
  {
    hide And, Shl, Shr, LeftBits, Bit;
    AndBits(Shl(Shr(map32, idx), idx), LeftBits(Bit(idx)));
    LeftBitsAbove(idx, j);
    ShlBit(Shr(map32, idx), idx, j);
    if j >= idx { ShrBit(map32, idx, j - idx); }
  }
}

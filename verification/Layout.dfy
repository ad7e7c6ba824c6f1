// Boundary tags: how the chunks of the segment lie in memory, and what splitting
// and merging do to them.
module Layout {
  import opened Words
  import opened Links

  const MIN_CHUNK_SIZE: nat := 16

  // Chunk headers, as memory: the size and the two in-use bits of the head word,
  // and the `prev_foot` word.
  datatype Heads = Heads(size: map<int, int>, cinuse: map<int, bool>, pinuse: map<int, bool>, foot: map<int, int>)

  predicate RdB(m: map<int, bool>, a: int) {
    a in m && m[a]
  }

  function Size(h: Heads, p: int): int { Rd(h.size, p) }

  predicate Cin(h: Heads, p: int) { RdB(h.cinuse, p) }

  predicate Pin(h: Heads, p: int) { RdB(h.pinuse, p) }

  function Foot(h: Heads, p: int): int { Rd(h.foot, p) }

  function Next(h: Heads, p: int): int { p + Size(h, p) }

  // Store a head word.
  function SetHead(h: Heads, p: int, s: int, c: bool, pi: bool): Heads {
    h.(size := h.size[p := s], cinuse := h.cinuse[p := c], pinuse := h.pinuse[p := pi])
  }

  function SetPin(h: Heads, p: int, pi: bool): Heads {
    h.(pinuse := h.pinuse[p := pi])
  }

  function SetFoot(h: Heads, p: int, s: int): Heads {
    h.(foot := h.foot[p + s := s])
  }

  // `set_inuse_and_pinuse`
  function SetInuse(h: Heads, p: int, s: int): Heads {
    SetPin(SetHead(h, p, s, true, true), p + s, true)
  }

  // `set_size_and_pinuse_of_inuse_chunk`
  function SetInuseHead(h: Heads, p: int, s: int): Heads {
    SetHead(h, p, s, true, true)
  }

  // `set_size_and_pinuse_of_free_chunk`
  function SetFree(h: Heads, p: int, s: int): Heads {
    SetFoot(SetHead(h, p, s, false, true), p, s)
  }

  // `set_free_with_pinuse`
  function SetFreeWithPinuse(h: Heads, p: int, s: int, n: int): Heads {
    SetFree(SetPin(h, n, false), p, s)
  }

  // ----- the invariant --------------------------------------------------------------------

  // The chunks from `base` to `limit`, the last of them being `top`.
  datatype Extent = Extent(chunks: set<int>, base: int, top: int, limit: int)

  // One chunk and its successor.
  ghost predicate ChunkOK(h: Heads, e: Extent, p: int) {
    && 0 < e.base <= p <= e.top && p % 8 == 0 && Size(h, p) % 8 == 0
    && (p != e.top ==>
          && Size(h, p) >= MIN_CHUNK_SIZE
          && Next(h, p) in e.chunks
          && Pin(h, Next(h, p)) == Cin(h, p)
          && (!Cin(h, p) ==> Foot(h, Next(h, p)) == Size(h, p) && Cin(h, Next(h, p))))
    && (p == e.top ==> !Cin(h, p) && Size(h, p) > 0 && Next(h, p) == e.limit)
    && (!Cin(h, p) ==> Pin(h, p))
    && (!Pin(h, p) ==>
          && p - Foot(h, p) in e.chunks && Size(h, p - Foot(h, p)) == Foot(h, p)
          && !Cin(h, p - Foot(h, p)) && Foot(h, p) >= MIN_CHUNK_SIZE)
  }

  ghost predicate Apart(h: Heads, e: Extent, p: int, q: int) {
    p < q ==> Next(h, p) <= q
  }

  // The segment is tiled by chunks whose tags agree, and no two neighbours are free.
  ghost predicate Tiled(h: Heads, e: Extent) {
    && e.base in e.chunks && e.top in e.chunks && e.limit < MODULUS
    && (forall p | p in e.chunks :: ChunkOK(h, e, p))
    && (forall p, q | p in e.chunks && q in e.chunks :: Apart(h, e, p, q))
    && Pin(h, e.base) && !Pin(h, e.limit)
  }

  ghost function Live(h: Heads, e: Extent): set<int> {
    set p | p in e.chunks && Cin(h, p)
  }

  ghost function Free(h: Heads, e: Extent): set<int> {
    set p | p in e.chunks && !Cin(h, p) && p != e.top
  }

  // ----- consequences ------------------------------------------------------------------------

  lemma {:induction false} Inside(h: Heads, e: Extent, p: int)
    requires Tiled(h, e) && p in e.chunks
    ensures ChunkOK(h, e, p) && 0 < p && Next(h, p) <= e.limit && 0 < Size(h, p) < MODULUS
    ensures p != e.top ==> p < e.top && Next(h, p) <= e.top
  {
    assert ChunkOK(h, e, p);
    assert ChunkOK(h, e, e.top);
    if p != e.top {
      assert Apart(h, e, p, e.top);
    }
  }

  // Two different chunks do not overlap; in particular live payloads are disjoint.
  lemma {:induction false} Disjoint(h: Heads, e: Extent, p: int, q: int, x: int)
    requires Tiled(h, e) && p in e.chunks && q in e.chunks
    requires p <= x < Next(h, p) && q <= x < Next(h, q)
    ensures p == q
  {
    assert Apart(h, e, p, q) && Apart(h, e, q, p);
  }

  // Every address of the segment belongs to some chunk: the walk of `traverse_and_check`.
  lemma {:induction false} Covers(h: Heads, e: Extent, p: int, x: int) returns (q: int)
    requires Tiled(h, e) && p in e.chunks && p <= x < e.limit
    ensures q in e.chunks && q <= x < Next(h, q)
    decreases x - p
  {
    Inside(h, e, p);
    if x < Next(h, p) {
      q := p;
    } else {
      q := Covers(h, e, Next(h, p), x);
    }
  }

  lemma {:induction false} SomeLive(h: Heads, e: Extent)
    requires Tiled(h, e)
    ensures e.base != e.top ==> e.base in Live(h, e) || Next(h, e.base) in Live(h, e)
  {
    Inside(h, e, e.base);
  }

  // With nothing in use the segment is one chunk, the top.
  lemma {:induction false} AllFree(h: Heads, e: Extent)
    requires Tiled(h, e) && Live(h, e) == {}
    ensures e.top == e.base && e.chunks == {e.base}
  {
    SomeLive(h, e);
    forall p | p in e.chunks ensures p == e.base {
      Inside(h, e, p);
    }
  }

  // ----- taking a free chunk -----------------------------------------------------------------

  // What is known about two chunks.
  lemma {:induction false} Pair(h: Heads, e: Extent, p: int, q: int)
    requires Tiled(h, e) && p in e.chunks && q in e.chunks
    ensures ChunkOK(h, e, p) && ChunkOK(h, e, q) && Apart(h, e, p, q) && Apart(h, e, q, p)
    ensures 0 < Size(h, p) && 0 < Size(h, q) && Next(h, p) <= e.limit && Next(h, q) <= e.limit < MODULUS
    ensures Next(h, p) == Next(h, q) ==> p == q
    ensures p != e.top ==> Next(h, p) <= e.top
  {
    Inside(h, e, p);
    Inside(h, e, q);
    assert Apart(h, e, p, q) && Apart(h, e, q, p);
  }

  lemma {:induction false} BaseFacts(h: Heads, e: Extent)
    requires Tiled(h, e)
    ensures e.base in e.chunks && e.top in e.chunks && e.limit < MODULUS && Pin(h, e.base) && !Pin(h, e.limit)
    ensures ChunkOK(h, e, e.top) && ChunkOK(h, e, e.base)
  {
  }

  lemma InuseReads(h: Heads, v: int, s: int)
    requires s > 0
    ensures var h' := SetInuse(h, v, s);
            && (forall x :: Size(h', x) == if x == v then s else Size(h, x))
            && (forall x :: Cin(h', x) == (x == v || Cin(h, x)))
            && (forall x :: Pin(h', x) == (x == v || x == v + s || Pin(h, x)))
            && (forall x :: Foot(h', x) == Foot(h, x))
  {
  }

  lemma {:induction false} TakeWholeAt(h: Heads, e: Extent, v: int, p: int)
    requires Tiled(h, e) && v in Free(h, e) && p in e.chunks
    ensures ChunkOK(SetInuse(h, v, Size(h, v)), e, p)
  {
    hide Tiled, SetInuse, Size, Cin, Pin, Foot;
    Pair(h, e, p, v);
    InuseReads(h, v, Size(h, v));
    if p != v && !Pin(h, p) {
      Pair(h, e, p - Foot(h, p), v);
    }
    BaseFacts(h, e);
  }

  // A free chunk handed out whole.
  lemma {:induction false} TakeWhole(h: Heads, e: Extent, v: int)
    requires Tiled(h, e) && v in Free(h, e)
    ensures var h' := SetInuse(h, v, Size(h, v));
            && Tiled(h', e) && Live(h', e) == Live(h, e) + {v} && Free(h', e) == Free(h, e) - {v}
            && (forall p :: Size(h', p) == Size(h, p)) && (forall x :: Foot(h', x) == Foot(h, x))
  {
    hide SetInuse, Size, Cin, Pin, Foot, ChunkOK;
    var h' := SetInuse(h, v, Size(h, v));
    BaseFacts(h, e);
    TakeEnds(h, e, v);
    InuseReads(h, v, Size(h, v));
    forall p | p in e.chunks ensures ChunkOK(h', e, p) {
      TakeWholeAt(h, e, v, p);
    }
    forall p, q | p in e.chunks && q in e.chunks ensures Apart(h', e, p, q) {
      assert Apart(h, e, p, q);
    }
  }

  lemma {:induction false} TakeEnds(h: Heads, e: Extent, v: int)
    requires Tiled(h, e) && v in Free(h, e)
    ensures Size(h, v) > 0 && v + Size(h, v) != e.limit && v != e.limit
  {
    Pair(h, e, v, e.top);
  }

  function SplitHeads(h: Heads, p: int, nb: int, rs: int): Heads {
    SetFree(SetInuseHead(h, p, nb), p + nb, rs)
  }

  ghost predicate CanSplit(h: Heads, e: Extent, v: int, nb: int) {
    v in Free(h, e) && nb % 8 == 0 && MIN_CHUNK_SIZE <= nb && nb + MIN_CHUNK_SIZE <= Size(h, v)
  }

  // `h'` is `h` with chunk `v` cut after `nb` bytes: the front in use, the rest free.
  ghost predicate IsSplit(h: Heads, h': Heads, v: int, nb: int, rs: int) {
    && (forall x :: Size(h', x) == if x == v then nb else if x == v + nb then rs else Size(h, x))
    && (forall x :: Cin(h', x) == (x == v || (x != v + nb && Cin(h, x))))
    && (forall x :: Pin(h', x) == (x == v || x == v + nb || Pin(h, x)))
    && (forall x :: Foot(h', x) == if x == v + nb + rs then rs else Foot(h, x))
  }

  // What the fields hold after one header write.
  lemma SetFreeReads(h: Heads, p: int, s: int)
    ensures forall x :: Size(SetFree(h, p, s), x) == if x == p then s else Size(h, x)
    ensures forall x :: Cin(SetFree(h, p, s), x) == (x != p && Cin(h, x))
    ensures forall x :: Pin(SetFree(h, p, s), x) == (x == p || Pin(h, x))
    ensures forall x :: Foot(SetFree(h, p, s), x) == if x == p + s then s else Foot(h, x)
  {
  }

  lemma SetInuseHeadReads(h: Heads, p: int, s: int)
    ensures forall x :: Size(SetInuseHead(h, p, s), x) == if x == p then s else Size(h, x)
    ensures forall x :: Cin(SetInuseHead(h, p, s), x) == (x == p || Cin(h, x))
    ensures forall x :: Pin(SetInuseHead(h, p, s), x) == (x == p || Pin(h, x))
    ensures forall x :: Foot(SetInuseHead(h, p, s), x) == Foot(h, x)
  {
  }

  // The header writes give a split in either order.
  lemma SplitReads(h: Heads, v: int, nb: int, rs: int)
    requires nb > 0 && rs > 0
    ensures IsSplit(h, SplitHeads(h, v, nb, rs), v, nb, rs)
  {
    hide SetFree, SetInuseHead, Size, Cin, Pin, Foot;
    SetInuseHeadReads(h, v, nb);
    SetFreeReads(SetInuseHead(h, v, nb), v + nb, rs);
  }

  lemma SplitReadsLate(h: Heads, v: int, nb: int, rs: int)
    requires nb > 0 && rs > 0
    ensures IsSplit(h, SetInuseHead(SetFree(h, v + nb, rs), v, nb), v, nb, rs)
  {
    hide SetFree, SetInuseHead, Size, Cin, Pin, Foot;
    SetFreeReads(h, v + nb, rs);
    SetInuseHeadReads(SetFree(h, v + nb, rs), v, nb);
  }

  lemma SplitAligned(h: Heads, e: Extent, v: int, nb: int)
    requires Tiled(h, e) && CanSplit(h, e, v, nb)
    ensures (v + nb) % 8 == 0 && (Size(h, v) - nb) % 8 == 0
  {
    hide Tiled;
    Pair(h, e, v, v);
  }

  lemma {:induction false} SplitFront(h: Heads, h': Heads, e: Extent, v: int, nb: int)
    requires Tiled(h, e) && CanSplit(h, e, v, nb) && IsSplit(h, h', v, nb, Size(h, v) - nb)
    ensures ChunkOK(h', e.(chunks := e.chunks + {v + nb}), v)
  {
    hide Tiled, Size, Cin, Pin, Foot;
    BaseFacts(h, e);
    Pair(h, e, v, v);
  }

  lemma {:induction false} SplitRest(h: Heads, h': Heads, e: Extent, v: int, nb: int)
    requires Tiled(h, e) && CanSplit(h, e, v, nb) && IsSplit(h, h', v, nb, Size(h, v) - nb)
    ensures ChunkOK(h', e.(chunks := e.chunks + {v + nb}), v + nb)
  {
    hide Tiled, Size, Cin, Pin, Foot;
    BaseFacts(h, e);
    Pair(h, e, v, v);
    Pair(h, e, Next(h, v), v);
    SplitAligned(h, e, v, nb);
  }

  lemma {:induction false} SplitOther(h: Heads, h': Heads, e: Extent, v: int, nb: int, p: int)
    requires Tiled(h, e) && CanSplit(h, e, v, nb) && IsSplit(h, h', v, nb, Size(h, v) - nb)
    requires p in e.chunks && p != v
    ensures ChunkOK(h', e.(chunks := e.chunks + {v + nb}), p)
  {
    hide Tiled, Size, Cin, Pin, Foot;
    Pair(h, e, p, v);
    InsideNot(h, e, v, nb, p);
    if p != e.top {
      Pair(h, e, Next(h, p), v);
      InsideNot(h, e, v, nb, Next(h, p));
    }
    if !Pin(h, p) {
      Pair(h, e, p - Foot(h, p), v);
      InsideNot(h, e, v, nb, p - Foot(h, p));
    }
  }

  lemma {:induction false} InsideNot(h: Heads, e: Extent, v: int, nb: int, p: int)
    requires Tiled(h, e) && CanSplit(h, e, v, nb) && p in e.chunks
    ensures p != v + nb
  {
    hide Tiled, ChunkOK;
    Pair(h, e, p, v);
  }

  lemma {:induction false} SplitApart(h: Heads, h': Heads, e: Extent, v: int, nb: int, p: int, q: int)
    requires Tiled(h, e) && CanSplit(h, e, v, nb) && IsSplit(h, h', v, nb, Size(h, v) - nb)
    requires p in e.chunks + {v + nb} && q in e.chunks + {v + nb}
    ensures Apart(h', e.(chunks := e.chunks + {v + nb}), p, q)
  {
    hide Tiled, Size, Cin, Pin, Foot;
    Pair(h, e, v, v);
    if p in e.chunks { Pair(h, e, p, v); }
    if q in e.chunks { Pair(h, e, q, v); }
    if p in e.chunks && q in e.chunks { Pair(h, e, p, q); }
  }

  // A free chunk split: the front in use, the rest free.
  lemma {:induction false} Split(h: Heads, h': Heads, e: Extent, v: int, nb: int)
    requires Tiled(h, e) && CanSplit(h, e, v, nb) && IsSplit(h, h', v, nb, Size(h, v) - nb)
    ensures var r := v + nb; var e' := e.(chunks := e.chunks + {r});
            && Tiled(h', e') && r !in e.chunks && r > 0
            && Live(h', e') == Live(h, e) + {v} && Free(h', e') == Free(h, e) - {v} + {r}
            && Size(h', v) == nb && Size(h', r) == Size(h, v) - nb
            && (forall p | p != v && p != r :: Size(h', p) == Size(h, p))
            && (forall x | x != Next(h, v) :: Foot(h', x) == Foot(h, x))
  {
    hide Size, Cin, Pin, Foot, ChunkOK, Apart;
    var e' := e.(chunks := e.chunks + {v + nb});
    BaseFacts(h, e);
    SplitNew(h, e, v, nb);
    forall p | p in e'.chunks ensures ChunkOK(h', e', p) {
      if p == v {
        SplitFront(h, h', e, v, nb);
      } else if p == v + nb {
        SplitRest(h, h', e, v, nb);
      } else {
        SplitOther(h, h', e, v, nb, p);
      }
    }
    forall p, q | p in e'.chunks && q in e'.chunks ensures Apart(h', e', p, q) {
      SplitApart(h, h', e, v, nb, p, q);
    }
  }

  lemma {:induction false} SplitNew(h: Heads, e: Extent, v: int, nb: int)
    requires Tiled(h, e) && CanSplit(h, e, v, nb)
    ensures v + nb !in e.chunks && v + nb > 0 && v + nb < e.limit && v < e.limit && v + nb != e.top
  {
    hide Tiled, ChunkOK;
    BaseFacts(h, e);
    Pair(h, e, v, e.top);
    assert v != e.top;
    InsideSplit(h, e, v, v + nb);
  }

  lemma {:induction false} InsideSplit(h: Heads, e: Extent, v: int, r: int)
    requires Tiled(h, e) && v in e.chunks && v < r < Next(h, v)
    ensures r !in e.chunks && 0 < r
  {
    assert r in e.chunks ==> Apart(h, e, v, r);
    assert ChunkOK(h, e, v);
  }

  // ----- splitting the top --------------------------------------------------------------------

  function SplitTopHeads(h: Heads, p: int, nb: int, rs: int): Heads {
    SetInuseHead(SetHead(h, p + nb, rs, false, true), p, nb)
  }

  lemma SplitTopReads(h: Heads, v: int, nb: int, rs: int)
    requires nb > 0 && rs > 0
    ensures var h' := SplitTopHeads(h, v, nb, rs);
            && (forall x :: Size(h', x) == if x == v then nb else if x == v + nb then rs else Size(h, x))
            && (forall x :: Cin(h', x) == (x == v || (x != v + nb && Cin(h, x))))
            && (forall x :: Pin(h', x) == (x == v || x == v + nb || Pin(h, x)))
            && (forall x :: Foot(h', x) == Foot(h, x))
  {
  }

  ghost predicate CanSplitTop(h: Heads, e: Extent, nb: int) {
    nb % 8 == 0 && MIN_CHUNK_SIZE <= nb < Size(h, e.top)
  }

  function TopSplit(e: Extent, nb: int): Extent {
    e.(chunks := e.chunks + {e.top + nb}, top := e.top + nb)
  }

  lemma {:induction false} TopSplitNew(h: Heads, e: Extent, nb: int)
    requires Tiled(h, e) && CanSplitTop(h, e, nb)
    ensures ChunkOK(SplitTopHeads(h, e.top, nb, Size(h, e.top) - nb), TopSplit(e, nb), e.top + nb)
  {
    hide Tiled, SplitTopHeads, Size, Cin, Pin, Foot;
    BaseFacts(h, e);
    SplitTopReads(h, e.top, nb, Size(h, e.top) - nb);
  }

  lemma {:induction false} TopSplitOld(h: Heads, e: Extent, nb: int)
    requires Tiled(h, e) && CanSplitTop(h, e, nb)
    ensures ChunkOK(SplitTopHeads(h, e.top, nb, Size(h, e.top) - nb), TopSplit(e, nb), e.top)
  {
    hide Tiled, SplitTopHeads, Size, Cin, Pin, Foot;
    BaseFacts(h, e);
    SplitTopReads(h, e.top, nb, Size(h, e.top) - nb);
  }

  lemma {:induction false} TopSplitOther(h: Heads, e: Extent, nb: int, p: int)
    requires Tiled(h, e) && CanSplitTop(h, e, nb) && p in e.chunks && p != e.top
    ensures ChunkOK(SplitTopHeads(h, e.top, nb, Size(h, e.top) - nb), TopSplit(e, nb), p)
  {
    hide Tiled, SplitTopHeads, Size, Cin, Pin, Foot;
    BaseFacts(h, e);
    Pair(h, e, p, e.top);
    SplitTopReads(h, e.top, nb, Size(h, e.top) - nb);
    if !Pin(h, p) { Pair(h, e, p - Foot(h, p), e.top); }
  }

  lemma {:induction false} TopSplitApart(h: Heads, e: Extent, nb: int, p: int, q: int)
    requires Tiled(h, e) && CanSplitTop(h, e, nb)
    requires p in TopSplit(e, nb).chunks && q in TopSplit(e, nb).chunks
    ensures Apart(SplitTopHeads(h, e.top, nb, Size(h, e.top) - nb), TopSplit(e, nb), p, q)
  {
    hide Tiled, SplitTopHeads, Size, Cin, Pin, Foot;
    BaseFacts(h, e);
    SplitTopReads(h, e.top, nb, Size(h, e.top) - nb);
    if p in e.chunks { Pair(h, e, p, e.top); }
    if q in e.chunks { Pair(h, e, q, e.top); }
    if p in e.chunks && q in e.chunks { Pair(h, e, p, q); }
  }

  // The front of the top chunk handed out.
  lemma {:induction false} SplitTop(h: Heads, e: Extent, nb: int)
    requires Tiled(h, e) && CanSplitTop(h, e, nb)
    ensures var h' := SplitTopHeads(h, e.top, nb, Size(h, e.top) - nb); var e' := TopSplit(e, nb);
            && Tiled(h', e') && e'.top !in e.chunks
            && Live(h', e') == Live(h, e) + {e.top} && Free(h', e') == Free(h, e)
            && Size(h', e.top) == nb && Size(h', e'.top) == Size(h, e.top) - nb
            && (forall p | p != e.top && p != e'.top :: Size(h', p) == Size(h, p))
            && (forall x :: Foot(h', x) == Foot(h, x))
  {
    hide SplitTopHeads, Size, Cin, Pin, Foot, ChunkOK, Apart;
    var h' := SplitTopHeads(h, e.top, nb, Size(h, e.top) - nb);
    var e' := TopSplit(e, nb);
    BaseFacts(h, e);
    TopFacts(h, e);
    TopSplitNew(h, e, nb);
    TopSplitOld(h, e, nb);
    SplitTopReads(h, e.top, nb, Size(h, e.top) - nb);
    forall p | p in e'.chunks ensures ChunkOK(h', e', p) {
      if p in e.chunks && p != e.top { TopSplitOther(h, e, nb, p); }
    }
    forall p, q | p in e'.chunks && q in e'.chunks ensures Apart(h', e', p, q) {
      TopSplitApart(h, e, nb, p, q);
    }
  }

  lemma {:induction false} TopFacts(h: Heads, e: Extent)
    requires Tiled(h, e)
    ensures !Cin(h, e.top) && e.top + Size(h, e.top) == e.limit && Size(h, e.top) > 0 && e.top > 0
    ensures forall p | p in e.chunks :: p <= e.top
  {
    assert ChunkOK(h, e, e.top);
    forall p | p in e.chunks ensures p <= e.top { assert ChunkOK(h, e, p); }
  }

  // ----- freeing a chunk -----------------------------------------------------------------------

  // Start and end of the free area that freeing `p` makes, merging free neighbours.
  function BackOf(h: Heads, p: int): int {
    if Pin(h, p) then p else p - Foot(h, p)
  }

  function EndOf(h: Heads, e: Extent, p: int): int {
    var n := Next(h, p);
    if n == e.top then e.limit else if Cin(h, n) then n else Next(h, n)
  }

  // The extent after freeing `p`: merged chunks are gone, the top may have grown.
  ghost function FreedExtent(h: Heads, e: Extent, p: int): Extent {
    var n := Next(h, p);
    var merged := n == e.top || !Cin(h, n);
    Extent(e.chunks - (if BackOf(h, p) == p then {} else {p}) - (if merged then {n} else {}),
           e.base, if n == e.top then BackOf(h, p) else e.top, e.limit)
  }

  // `h'` is `h` with the area from `a` to `z` made one free chunk.
  ghost predicate IsFreed(h: Heads, h': Heads, e: Extent, a: int, z: int) {
    && (forall x :: Size(h', x) == if x == a then z - a else Size(h, x))
    && (forall x :: Cin(h', x) == (x != a && Cin(h, x)))
    && (forall x :: Pin(h', x) == (x == a || (x != z && Pin(h, x))))
    && (forall x :: Foot(h', x) == if x == z && z != e.limit then z - a else Foot(h, x))
  }

  lemma FreedInUse(h: Heads, e: Extent, a: int, n: int)
    requires a < n != e.limit
    ensures IsFreed(h, SetFreeWithPinuse(h, a, n - a, n), e, a, n)
  {
    hide SetFree;
    SetFreeReads(SetPin(h, n, false), a, n - a);
  }

  lemma FreedMerged(h: Heads, e: Extent, a: int, z: int)
    requires a < z != e.limit && !Pin(h, z)
    ensures IsFreed(h, SetFree(h, a, z - a), e, a, z)
  {
    hide SetFree, Size, Cin, Pin, Foot;
    SetFreeReads(h, a, z - a);
  }

  lemma FreedTop(h: Heads, e: Extent, a: int)
    requires a < e.limit && !Pin(h, e.limit)
    ensures IsFreed(h, SetHead(h, a, e.limit - a, false, true), e, a, e.limit)
  {
  }

  lemma {:induction false} AroundBack(h: Heads, e: Extent, p: int)
    requires Tiled(h, e) && p in Live(h, e)
    ensures var a := BackOf(h, p);
            && a in e.chunks && a <= p && Pin(h, a) && 0 < a && a % 8 == 0
            && (a != p ==> a in Free(h, e) && Next(h, a) == p && p - a == Size(h, a) == Foot(h, p))
  {
    hide Tiled;
    BaseFacts(h, e);
    Pair(h, e, p, p);
    if !Pin(h, p) { Pair(h, e, p - Foot(h, p), p); }
  }

  lemma {:induction false} AroundNext(h: Heads, e: Extent, p: int)
    requires Tiled(h, e) && p in Live(h, e)
    ensures var n, z := Next(h, p), EndOf(h, e, p);
            && p in e.chunks && Cin(h, p) && p != e.top && n in e.chunks && p + MIN_CHUNK_SIZE <= n && Pin(h, n)
            && n <= z <= e.limit
            && (z == e.limit <==> n == e.top)
            && (n != e.top ==> z in e.chunks && Cin(h, z) && z <= e.top)
            && (n != e.top && !Cin(h, n) ==> n in Free(h, e) && z == Next(h, n) && !Pin(h, z))
  {
    hide Tiled;
    var n := Next(h, p);
    BaseFacts(h, e);
    TopFacts(h, e);
    Pair(h, e, p, p);
    Pair(h, e, n, p);
    if n != e.top && !Cin(h, n) { Pair(h, e, Next(h, n), n); }
  }

  lemma {:induction false} EndAligned(h: Heads, e: Extent, p: int)
    requires Tiled(h, e) && p in Live(h, e)
    ensures EndOf(h, e, p) % 8 == 0 && e.limit < MODULUS
  {
    hide Tiled, Size, Cin, Pin, Foot, Apart, Live, Free;
    BaseFacts(h, e);
    AroundNext(h, e, p);
    Pair(h, e, Next(h, p), p);
    ChunkAligned(h, e, EndOf(h, e, p));
  }

  // Every chunk and the end of the segment are multiples of 8.
  lemma {:induction false} ChunkAligned(h: Heads, e: Extent, z: int)
    requires Tiled(h, e) && (z in e.chunks || z == e.limit)
    ensures z % 8 == 0
  {
    hide Tiled, Size, Cin, Pin, Foot, Apart;
    BaseFacts(h, e);
    SumAligned(e.top, Size(h, e.top));
    if z in e.chunks { Pair(h, e, z, e.top); }
  }

  lemma SumAligned(a: int, b: int)
    requires a % 8 == 0 && b % 8 == 0
    ensures (a + b) % 8 == 0
  {
  }

  // What surrounds a chunk in use.
  lemma {:induction false} Around(h: Heads, e: Extent, p: int)
    requires Tiled(h, e) && p in Live(h, e)
    ensures var a, n, z := BackOf(h, p), Next(h, p), EndOf(h, e, p);
            && p in e.chunks && Cin(h, p) && p != e.top && n in e.chunks && p < n && Pin(h, n)
            && a in e.chunks && a <= p && Pin(h, a) && 0 < a && a % 8 == 0
            && (a != p ==> a in Free(h, e) && Next(h, a) == p && p - a == Size(h, a) == Foot(h, p))
            && n <= z <= e.limit && z - a >= MIN_CHUNK_SIZE && (z - a) % 8 == 0 && z - a < MODULUS
            && (z == e.limit <==> n == e.top)
            && (n != e.top ==> z in e.chunks && Cin(h, z) && z <= e.top)
            && (n != e.top && !Cin(h, n) ==> n in Free(h, e) && z == Next(h, n) && !Pin(h, z))
  {
    hide Tiled, BackOf, EndOf, Live, Free, Size, Cin, Pin, Foot, Next;
    AroundBack(h, e, p);
    AroundNext(h, e, p);
    EndAligned(h, e, p);
  }

  lemma {:induction false} FreedFirst(h: Heads, h': Heads, e: Extent, p: int)
    requires Tiled(h, e) && p in Live(h, e) && IsFreed(h, h', e, BackOf(h, p), EndOf(h, e, p))
    ensures ChunkOK(h', FreedExtent(h, e, p), BackOf(h, p))
  {
    hide Tiled, Size, Cin, Pin, Foot;
    BaseFacts(h, e);
    Around(h, e, p);
    Pair(h, e, BackOf(h, p), p);
    Pair(h, e, Next(h, p), p);
    if EndOf(h, e, p) in e.chunks { Pair(h, e, EndOf(h, e, p), p); Pair(h, e, EndOf(h, e, p), Next(h, p)); }
  }

  // A chunk that stays is apart from the merged area.
  lemma {:induction false} Survivor(h: Heads, e: Extent, p: int, q: int)
    requires Tiled(h, e) && p in Live(h, e) && q in FreedExtent(h, e, p).chunks && q != BackOf(h, p)
    ensures q in e.chunks && q != p && ChunkOK(h, e, q)
    ensures FreedExtent(h, e, p).chunks <= e.chunks && BackOf(h, p) in FreedExtent(h, e, p).chunks
    ensures FreedExtent(h, e, p).top == (if Next(h, p) == e.top then BackOf(h, p) else e.top)
    ensures q != e.top ==> Next(h, q) in FreedExtent(h, e, p).chunks && Next(h, q) != EndOf(h, e, p)
    ensures Next(h, p) == e.top ==> q <= BackOf(h, p) && q != e.top
  {
    hide Tiled, Size, Cin, Pin, Foot;
    Around(h, e, p);
    BaseFacts(h, e);
    TopFacts(h, e);
    Pair(h, e, q, p);
    Pair(h, e, q, BackOf(h, p));
    Pair(h, e, q, Next(h, p));
    Pair(h, e, BackOf(h, p), p);
  }

  // So is the free chunk in front of it.
  lemma {:induction false} SurvivorPrev(h: Heads, e: Extent, p: int, q: int)
    requires Tiled(h, e) && p in Live(h, e) && q in FreedExtent(h, e, p).chunks && q != BackOf(h, p)
    requires q != EndOf(h, e, p) && !Pin(h, q)
    ensures q - Foot(h, q) in FreedExtent(h, e, p).chunks && q - Foot(h, q) != BackOf(h, p)
  {
    hide Tiled, Size, Cin, Pin, Foot;
    Around(h, e, p);
    Pair(h, e, q, p);
    Pair(h, e, q - Foot(h, q), Next(h, p));
    Pair(h, e, BackOf(h, p), p);
  }

  lemma {:induction false} FreedOther(h: Heads, h': Heads, e: Extent, p: int, q: int)
    requires Tiled(h, e) && p in Live(h, e) && IsFreed(h, h', e, BackOf(h, p), EndOf(h, e, p))
    requires q in FreedExtent(h, e, p).chunks && q != BackOf(h, p)
    ensures ChunkOK(h', FreedExtent(h, e, p), q)
  {
    hide Tiled, Size, Cin, Pin, Foot, BackOf, EndOf, FreedExtent, Live, Free;
    BaseFacts(h, e);
    Around(h, e, p);
    Survivor(h, e, p, q);
    FreedBase(h, e, p);
    Pair(h, e, q, BackOf(h, p));
    ExtentOf(h, e, p);
    if q != EndOf(h, e, p) && !Pin(h, q) { SurvivorPrev(h, e, p, q); }
  }

  lemma ExtentOf(h: Heads, e: Extent, p: int)
    ensures FreedExtent(h, e, p).base == e.base && FreedExtent(h, e, p).limit == e.limit
  {
  }

  lemma {:induction false} FreedApart(h: Heads, h': Heads, e: Extent, p: int, q: int, r: int)
    requires Tiled(h, e) && p in Live(h, e) && IsFreed(h, h', e, BackOf(h, p), EndOf(h, e, p))
    requires q in FreedExtent(h, e, p).chunks && r in FreedExtent(h, e, p).chunks
    ensures Apart(h', FreedExtent(h, e, p), q, r)
  {
    hide Tiled, Size, Cin, Pin, Foot, ChunkOK;
    Around(h, e, p);
    var n := Next(h, p);
    Pair(h, e, q, r);
    Pair(h, e, r, p);
    Pair(h, e, r, n);
    Pair(h, e, BackOf(h, p), p);
    BaseFacts(h, e);
    TopFacts(h, e);
  }

  // Freeing keeps the tiling; the free area absorbs its free neighbours.
  lemma {:induction false} Freed(h: Heads, h': Heads, e: Extent, p: int)
    requires Tiled(h, e) && p in Live(h, e) && IsFreed(h, h', e, BackOf(h, p), EndOf(h, e, p))
    ensures var a, n, z := BackOf(h, p), Next(h, p), EndOf(h, e, p); var e' := FreedExtent(h, e, p);
            && Tiled(h', e') && Live(h', e') == Live(h, e) - {p}
            && Free(h', e') == Free(h, e) - {a, n} + (if n == e.top then {} else {a})
            && Size(h', a) == z - a
            && (forall x | x != a :: Size(h', x) == Size(h, x))
  {
    hide Size, Cin, Pin, Foot, ChunkOK, Apart;
    var e' := FreedExtent(h, e, p);
    Around(h, e, p);
    BaseFacts(h, e);
    FreedBase(h, e, p);
    forall q | q in e'.chunks ensures ChunkOK(h', e', q) {
      if q == BackOf(h, p) { FreedFirst(h, h', e, p); } else { FreedOther(h, h', e, p, q); }
    }
    forall q, r | q in e'.chunks && r in e'.chunks ensures Apart(h', e', q, r) {
      FreedApart(h, h', e, p, q, r);
    }
  }

  lemma {:induction false} FreedBase(h: Heads, e: Extent, p: int)
    requires Tiled(h, e) && p in Live(h, e)
    ensures e.base in FreedExtent(h, e, p).chunks && FreedExtent(h, e, p).top in FreedExtent(h, e, p).chunks
    ensures e.base != EndOf(h, e, p) && BackOf(h, p) != e.limit
  {
    hide Tiled;
    BaseFacts(h, e);
    TopFacts(h, e);
    Around(h, e, p);
    Pair(h, e, e.base, p);
    Pair(h, e, Next(h, p), p);
    Pair(h, e, e.base, BackOf(h, p));
  }

  // ----- what an allocation does for its caller ---------------------------------------------------

  // The header word of chunk `q` gives the same size, and the last word of the space
  // that belongs to `q` while it is in use holds the same value.
  ghost predicate Kept(h: Heads, h': Heads, q: int) {
    Size(h', q) == Size(h, q) && Foot(h', Next(h, q)) == Foot(h, Next(h, q))
  }

  // Chunk `p` was handed out for a request of `nb` bytes: it was not in use, it is
  // large enough but never a whole minimal chunk too large, and no chunk in use
  // moved, shrank, went away or had a word written.
  ghost predicate Allocated(h: Heads, e: Extent, h': Heads, e': Extent, p: int, nb: int) {
    && p !in Live(h, e) && Live(h', e') == Live(h, e) + {p}
    && nb <= Size(h', p) < nb + MIN_CHUNK_SIZE
    && (forall q | q in Live(h, e) :: Kept(h, h', q))
    && e'.base == e.base && e'.limit == e.limit
  }

  // Chunk `p` was given back.
  ghost predicate Released(h: Heads, e: Extent, h': Heads, e': Extent, p: int) {
    && Live(h', e') == Live(h, e) - {p}
    && (forall q | q in Live(h', e') :: Kept(h, h', q))
    && e'.base == e.base && e'.limit == e.limit
  }

  lemma {:induction false} FreeFacts(h: Heads, e: Extent, v: int)
    requires Tiled(h, e) && v in Free(h, e)
    ensures v in e.chunks && v !in Live(h, e) && v != e.top && v > 0 && v % 8 == 0 && !Cin(h, v)
    ensures MIN_CHUNK_SIZE <= Size(h, v) < MODULUS && Size(h, v) % 8 == 0
    ensures Next(h, v) in Live(h, e)
  {
    hide Tiled;
    Pair(h, e, v, v);
    BaseFacts(h, e);
  }

  lemma SetFacts(h: Heads, e: Extent)
    ensures Live(h, e) <= e.chunks && Free(h, e) <= e.chunks && Live(h, e) !! Free(h, e)
    ensures e.top !in Free(h, e)
    ensures forall p | p in e.chunks :: p in Live(h, e) || p in Free(h, e) || p == e.top
  {
  }

  lemma SameSizes(h: Heads, h': Heads, s: set<int>)
    requires forall a | a in s :: Size(h', a) == Size(h, a)
    ensures forall a | a in s :: Rd(h'.size, a) == Rd(h.size, a)
  {
    forall a | a in s ensures Rd(h'.size, a) == Rd(h.size, a) {
      assert Size(h', a) == Size(h, a);
    }
  }

  // Free chunk `v` is in use now; the free rest `r` of it (if not 0) is a new chunk.
  ghost predicate Taken(h: Heads, e: Extent, h': Heads, e': Extent, v: int, r: int) {
    && Tiled(h', e') && e'.base == e.base && e'.top == e.top && e'.limit == e.limit
    && Live(h', e') == Live(h, e) + {v}
    && Free(h', e') == Free(h, e) - {v} + (if r == 0 then {} else {r})
    && (r != 0 ==> r !in e.chunks && r > 0 && r == v + Size(h', v) && Size(h', v) + Size(h', r) == Size(h, v))
    && (r == 0 ==> Size(h', v) == Size(h, v))
    && (forall p | p != v && (r == 0 || p != r) :: Size(h', p) == Size(h, p))
    && (forall x | x != Next(h, v) :: Foot(h', x) == Foot(h, x))
  }

  lemma {:induction false} TakenAllocated(h: Heads, e: Extent, h': Heads, e': Extent, v: int, r: int, nb: int)
    requires Tiled(h, e) && v in Free(h, e) && Taken(h, e, h', e', v, r) && nb <= Size(h', v) < nb + MIN_CHUNK_SIZE
    ensures Allocated(h, e, h', e', v, nb)
    ensures Size(h', e'.top) == Size(h, e.top)
  {
    hide Tiled, Size, Foot;
    FreeFacts(h, e, v);
    BaseFacts(h, e);
    SetFacts(h, e);
    forall q | q in Live(h, e) ensures Kept(h, h', q) {
      assert q != v && q in e.chunks;
      Pair(h, e, q, v);
    }
  }

  // All that a finished `free` needs to know about the new headers.
  ghost predicate FreedState(h: Heads, e: Extent, p: int, h': Heads, e': Extent) {
    var a, n, z := BackOf(h, p), Next(h, p), EndOf(h, e, p);
    && Tiled(h', e') && Released(h, e, h', e', p)
    && e'.top == (if n == e.top then a else e.top)
    && Free(h', e') == Free(h, e) - {a, n} + (if n == e.top then {} else {a})
    && Size(h', a) == z - a && (forall x | x != a :: Size(h', x) == Size(h, x))
    && (n != e.top ==> Size(h', e'.top) == Size(h, e.top))
  }

  lemma {:induction false} FreedDone(h: Heads, h': Heads, e: Extent, p: int)
    requires Tiled(h, e) && p in Live(h, e) && IsFreed(h, h', e, BackOf(h, p), EndOf(h, e, p))
    ensures FreedState(h, e, p, h', FreedExtent(h, e, p))
  {
    hide Tiled, IsFreed, Size, Cin, Pin, EndOf, Kept, BackOf;
    Freed(h, h', e, p);
    Around(h, e, p);
    SetFacts(h, e);
    BaseFacts(h, e);
    TopFacts(h, e);
    ExtentOf(h, e, p);
    assert FreedExtent(h, e, p).top == if Next(h, p) == e.top then BackOf(h, p) else e.top;
    BackNotLive(h, e, p);
    forall q | q in Live(h', FreedExtent(h, e, p)) ensures Kept(h, h', q) {
      FreedKeeps(h, h', e, p, q);
    }
  }

  // Freeing `p` writes one foot word, at the end of the merged area: no other chunk ends there.
  lemma {:induction false} FreedKeeps(h: Heads, h': Heads, e: Extent, p: int, q: int)
    requires Tiled(h, e) && p in Live(h, e) && q in Live(h, e) && q != p
    requires IsFreed(h, h', e, BackOf(h, p), EndOf(h, e, p))
    ensures Kept(h, h', q)
  {
    hide Tiled, Size, Cin, Pin, Foot, BackOf, Free;
    SetFacts(h, e);
    AroundNext(h, e, p);
    BackNotLive(h, e, p);
    Pair(h, e, q, p);
    Pair(h, e, q, Next(h, p));
  }

  lemma {:induction false} BackNotLive(h: Heads, e: Extent, p: int)
    requires Tiled(h, e) && p in Live(h, e)
    ensures BackOf(h, p) !in Live(h, e) - {p} && BackOf(h, p) != e.top
  {
    hide Tiled;
    Around(h, e, p);
    SetFacts(h, e);
  }
}

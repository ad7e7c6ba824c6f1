// The user heap: dlmalloc over one segment, with 4-byte sizes and pointers.
module UserHeap {
  import opened Words
  import opened TreeIndex
  import opened Tries
  import opened Links
  import opened Paths
  import opened Bins
  import opened Removal
  import opened SmallBins
  import opened BestFit
  import opened Layout
  import opened HeapFacts
  import opened SizeQueues
  import opened Requests

  // Space kept at the end of a segment for its record and fenceposts.
  const TOP_FOOT_SIZE: nat := 40

  // align_offset
  function AlignOffset(a: int): int {
    if a % 8 == 0 then 0 else 8 - a % 8
  }

  lemma AlignIs(a: int)
    ensures 0 <= AlignOffset(a + 8) < 8 && (a + AlignOffset(a + 8)) % 8 == 0
  {
  }

  class MallocState {
    // free chunks: link fields, bin maps, tree roots
    var links: Links
    var smallmap: Word
    var treemap: Word
    var treebins: seq<int>
    // all chunks: header words
    var heads: Heads
    // designated victim and top
    var dv: int
    var dvsize: Word
    var top: int
    var topsize: Word
    const base: int
    const limit: int
    // what the memory stores
    ghost var small: seq<seq<int>>
    ghost var trees: seq<Trie>
    ghost var chunks: set<int>

    ghost predicate BinsOK()
      reads this
    {
      && TreesOK(links, heads.size, treemap, treebins, trees)
      && SmallsOK(links, heads.size, smallmap, small)
    }

    ghost function Binned(): set<int>
      reads this
    {
      InSmalls(small) + InTrees(trees)
    }

    // The large free chunks of size s, the oldest in front.
    ghost function Waiting(s: Word): seq<int>
      reads this
    {
      WaitingIn(trees, s)
    }

    function ChunkSize(p: int): int
      reads this
    {
      Rd(heads.size, p)
    }

    ghost function Ext(): Extent
      reads this
    {
      Extent(chunks, base, top, limit)
    }

    // The free chunks outside the bins are the designated victim and the top.
    ghost predicate Placed()
      reads this
    {
      && topsize == Size(heads, top)
      && (if dvsize == 0 then dv == 0 else dv in Free(heads, Ext()) && Size(heads, dv) == dvsize)
      && Binned() == Free(heads, Ext()) - {dv}
    }

    ghost predicate Valid()
      reads this
    {
      BinsOK() && Tiled(heads, Ext()) && Placed()
    }

    // A fresh heap over one segment: `init_bins` and `init_top`. The segment may start
    // anywhere, but ends at a multiple of 8: the size word keeps flags in its low bits.
    constructor (tbase: int, size: Word)
      requires tbase > 0 && (tbase + size) % 8 == 0 && tbase + size < MODULUS
      requires size > TOP_FOOT_SIZE + AlignOffset(tbase + 8)
      ensures Valid() && Live(heads, Ext()) == {} && chunks == {base}
      ensures tbase <= base < tbase + 8 && base % 8 == 0 && limit == tbase + size - TOP_FOOT_SIZE
    {
      var offset := AlignOffset(tbase + 8);
      var base := tbase + offset;
      var psize := size - TOP_FOOT_SIZE - offset;
      AlignIs(tbase);
      this.base := base;
      this.limit := base + psize;
      top := base;
      topsize := psize;
      var h := Heads(map[], map[], map[], map[]);
      heads := SetHead(SetHead(h, base, psize, false, true), base + psize, TOP_FOOT_SIZE, false, false);
      dv := 0;
      dvsize := 0;
      smallmap := 0;
      treemap := 0;
      treebins := seq(NTREEBINS, i => 0);
      links := Links(map[], map[], map[], map[], map[], map[]);
      small := seq(NSMALLBINS, i => []);
      trees := seq(NTREEBINS, i => Empty);
      chunks := {base};
      new;
      hide TreesOK, SmallsOK, InSmalls, InTrees, Tiled, Live, Free, SetHead;
      InitBins();
      EmptyBins(links, heads.size);
      FreshTop(base, psize, Ext());
    }

    // `init_bins`: every small bin header points to itself.
    method InitBins()
      modifies this`links
      ensures forall i: nat | i < NSMALLBINS :: Linked(links, SmallBinAt(i), SmallBinAt(i))
    {
      var i := 0;
      while i < NSMALLBINS
        invariant i <= NSMALLBINS
        invariant forall j: nat | j < i :: Linked(links, SmallBinAt(j), SmallBinAt(j))
      {
        var bin := SmallBinAt(i);
        links := links.(fd := links.fd[bin := bin], bk := links.bk[bin := bin]);
        i := i + 1;
      }
    }

    // With nothing in use the heap is back in its initial shape: one chunk, the top;
    // no designated victim; every bin empty.
    lemma EverythingFreed()
      requires Valid() && Live(heads, Ext()) == {}
      ensures top == base && chunks == {base} && topsize == limit - base
      ensures dv == 0 && dvsize == 0 && Binned() == {} && smallmap == 0 && treemap == 0
    {
      AllFree(heads, Ext());
      BaseFacts(heads, Ext());
      assert Free(heads, Ext()) == {};
      MapsEmpty(links, heads.size, smallmap, small, treemap, treebins, trees);
    }

    // Every free chunk except the victim and the top is in exactly one bin, the one
    // of its size, and that bin's map bit is set.
    lemma ExactlyOneBin(p: int)
      requires Valid() && p in Free(heads, Ext()) && p != dv
      ensures var s := ChunkSize(p);
              if s < MIN_LARGE_SIZE then
                && s / 8 in Bits(smallmap) && s / 8 < |small| && p in small[s / 8]
                && p !in InTrees(trees) && (forall j | 0 <= j < NSMALLBINS && p in small[j] :: j == s / 8)
              else
                && s < MODULUS && ComputeTreeIndex(s) in Bits(treemap) && ComputeTreeIndex(s) < |trees|
                && p in Addrs(trees[ComputeTreeIndex(s)])
                && p !in InSmalls(small)
                && (forall j | 0 <= j < NTREEBINS && p in Addrs(trees[j]) :: j == ComputeTreeIndex(s))
    {
      hide TreesOK, SmallsOK, Tiled, InSmalls, InTrees, Free, Bits, ComputeTreeIndex, Addrs;
      assert p in Binned();
      SmallNotLarge(links, heads.size, smallmap, small, treemap, treebins, trees);
      if p in InSmalls(small) {
        OneSmallBin(links, heads.size, smallmap, small, p);
      } else {
        OneTreeBin(links, heads.size, treemap, treebins, trees, p);
      }
    }

    // `insert_large_chunk`.
    method InsertLargeChunk(x: int, s: Word)
      requires BinsOK() && s >= MIN_LARGE_SIZE && x > 0 && ChunkSize(x) == s && x !in Binned()
      modifies this`links, this`treemap, this`treebins, this`trees
      ensures BinsOK() && Binned() == old(Binned()) + {x} && OnlyChunks(old(links), links, old(Binned()) + {x})
      ensures forall q: Word :: WaitingIn(trees, q) == WaitingIn(old(trees), q) + if q == s then [x] else []
    {
      hide WaitingIn, TreeBin, Inserted, Aligned, Pow2, Base, Width, Insert, Prepared, ComputeTreeIndex, Rep, Shape,
           Distinct, Sizes, Addrs, Bits, Or, And, Bit, SmallsOK, InTrees, InSmalls, Only, OnlyChunks;
      var i := ComputeTreeIndex(s);
      BinRange(s);
      ghost var k0, t0 := links, trees[i];
      assert TreeSlot(k0, heads.size, treemap, treebins[i], t0, i);
      BinnedAddr(small, trees, i, x);
      links := Prepared(links, x, i);
      BitTest(treemap, i);
      MarkBit(treemap, i);
      if And(treemap, Bit(i)) == 0 {
        treemap := Or(treemap, Bit(i));
        treebins := treebins[i := x];
        links := links.(parent := links.parent[x := TreeBinAt(i)], fd := links.fd[x := x], bk := links.bk[x := x]);
        FirstInBin(k0, heads.size, t0, i, x, s);
      } else {
        InsertInTree(x, s, i, k0, t0);
      }
      ghost var t := Insert(t0, x, s, Width(i));
      InsertedBin(k0, links, heads.size, t0, x, s);
      TreesUpdate(k0, heads.size, old(treemap), old(treebins), trees, links, treemap, treebins, i, t, x);
      LargeAddrs(k0, heads.size, t0, i, x);
      SmallsFrame(k0, heads.size, smallmap, small, links, Addrs(t0) + {x});
      NotElsewhere(trees, i, x, k0, heads.size);
      InTreesUpdate(trees, i, t, x);
      TreeInTrees(trees, i);
      OnlyIsChunks(k0, links, Addrs(t0) + {x}, Binned() + {x});
      forall q: Word ensures WaitingIn(trees[i := t], q) == WaitingIn(trees, q) + if q == s then [x] else [] {
        InsertWaiting(k0, heads.size, trees, x, s, q);
      }
      trees := trees[i := t];
    }

    // The loop of `insert_large_chunk`, in a bin that is not empty.
    method InsertInTree(x: int, s: Word, i: nat, ghost k0: Links, ghost t0: Trie)
      requires i < NTREEBINS == |treebins| && TreeBin(k0, heads.size, t0, i) && t0.Node? && treebins[i] == Ptr(t0)
      requires Aligned(Base(i), Width(i)) && Base(i) <= s < Base(i) + Pow2(Width(i))
      requires x > 0 && ChunkSize(x) == s && x !in Addrs(t0) && links == Prepared(k0, x, i)
      modifies this`links
      ensures Inserted(k0, heads.size, t0, i, x, s, links)
    {
      hide TreeBin, Walking, Inserted, Aligned, Pow2, Base, Width, Insert, Shl, TopBit, LeftShift, Prepared,
           AttachLeaf, AttachRing, Ptr, Sub, ValidPath, Kid, HasBit;
      WalkStart(k0, heads.size, t0, i, x, s);
      var t := treebins[i];
      var k := Shl(s, LeftShift(i));
      ghost var path: seq<bool> := [];
      ghost var lo: nat, w: nat := Base(i), Width(i);
      while true
        invariant ValidPath(t0, path) && Sub(t0, path).Node? && t == Ptr(Sub(t0, path))
        invariant Walking(t0, i, path, lo, w, x, s)
        invariant k == Shl(s, LeftShift(i) + |path|)
        invariant links == Prepared(k0, x, i)
        decreases w
      {
        ghost var sub := Sub(t0, path);
        NodePtrs(k0, heads.size, t0, i, path);
        PreparedKids(k0, t, x, i);
        if ChunkSize(t) != s {
          WalkOn(t0, i, path, lo, w, x, s);
          ShlStep(s, LeftShift(i) + |path|);
          var b := TopBit(k) == 1;
          k := Shl(k, 1);
          if Kid(links, t, b) != 0 {
            t := Kid(links, t, b);
            path, lo, w := path + [b], if b then lo + Pow2(w - 1) else lo, w - 1;
          } else {
            EndAtLeaf(k0, heads.size, t0, i, path, lo, w, x, s);
            links := AttachLeaf(links, t, b, x);
            return;
          }
        } else {
          EndAtRing(k0, heads.size, t0, i, path, lo, w, x, s);
          links := AttachRing(links, t, x);
          return;
        }
      }
    }

    // `unlink_large_chunk`.
    method UnlinkLargeChunk(x: int)
      requires BinsOK() && x in InTrees(trees)
      modifies this`links, this`treemap, this`treebins, this`trees
      ensures BinsOK() && InTrees(trees) == old(InTrees(trees)) - {x}
      ensures OnlyChunks(old(links), links, old(InTrees(trees)))
      ensures 0 <= ChunkSize(x) < MODULUS && Leaves(old(Waiting(ChunkSize(x))), Waiting(ChunkSize(x)), x)
      ensures forall q: Word :: q != ChunkSize(x) ==> WaitingIn(trees, q) == WaitingIn(old(trees), q)
    {
      hide WaitingIn, Leaves, TreesOK, SmallsOK, TreeBin, Addrs, Sub, ValidPath, Replace, InTrees, ComputeTreeIndex,
           Bits, Rep, Only, Detached, Unlink, Ptr, RemoveNode, RemoveRoot, Distinct, Unlinked, OnlyChunks;
      ghost var k0 := links;
      ghost var i := FindBin(links, heads.size, treemap, treebins, trees, x);
      ghost var t := trees[i];
      ghost var path, q, b := FindPath(t, x);
      ghost var n := Sub(t, path);
      var xp := Rd(links.parent, x);
      var r;
      NodeFacts(k0, heads.size, t, i, path, x);
      if Rd(links.bk, x) != x {
        r := Rd(links.bk, x);
        if x != Ptr(n) {
          ChainedCase(k0, heads.size, t, i, path, x, treemap, treebins);
        } else {
          DetachByRing(k0, heads.size, n, xp, i);
        }
        UnlinkKeeps(links, x);
        links := Unlink(links, x);
      } else {
        r := DetachLast(x, n, xp, i);
      }
      if xp != 0 {
        Relink(x, r, xp, k0, t, i, path, q, b);
      }
      TreeTaken(k0, links, heads.size, old(treemap), treemap, old(treebins), treebins, trees, small, smallmap,
                i, path, x);
      NodeSize(k0, heads.size, t, i, path, x);
      forall q: Word ensures q != n.size ==>
                               WaitingIn(trees[i := Replace(t, path, RemoveNode(n, x))], q) == WaitingIn(trees, q)
      {
        RemoveWaiting(k0, heads.size, trees, i, path, x, q);
      }
      RemoveWaiting(k0, heads.size, trees, i, path, x, n.size);
      trees := trees[i := Replace(t, path, RemoveNode(n, x))];
    }

    // The part of `unlink_large_chunk` for the last chunk of its size: find a leaf
    // below `x` and clear the field that points to it.
    method DetachLast(x: int, ghost n: Trie, ghost p: int, ghost i: nat) returns (r: int)
      requires n.Node? && Distinct(n) && Rep(links, heads.size, n, p, i) && |n.ring| == 1 && x == Ptr(n)
      modifies this`links
      ensures Detached(links, heads.size, RemoveRoot(n), x, i) && r == Ptr(RemoveRoot(n))
      ensures Only(old(links), links, Addrs(n)) && links.index == old(links.index)
    {
      hide Rep, Distinct, Detached, RemoveRoot, Addrs, Sub, ValidPath, LeafWalk, Only, SetKid, Kid;
      ChildPtrs(links, heads.size, n, p, i);
      var rp, rb := x, true;
      r := Kid(links, x, true);
      if r == 0 {
        rb := false;
        r := Kid(links, x, false);
      }
      if r != 0 {
        ghost var c, path: seq<bool>, q: seq<bool> := Child(n, rb), [], [];
        ghost var b0 := rb;
        LeafWalkStart(c);
        while Kid(links, r, true) != 0 || Kid(links, r, false) != 0
          invariant links == old(links) && b0 == n.right.Node? && c == Child(n, b0) && c.Node?
          invariant ValidPath(c, path) && Sub(c, path).Node? && LeafWalk(c, path) && r == Ptr(Sub(c, path))
          invariant Field(c, x, b0, path, q, rp, rb)
          invariant Kid(links, r, true) == Ptr(Sub(c, path).right) && Kid(links, r, false) == Ptr(Sub(c, path).left)
          invariant Ptr(Sub(c, path).right) == 0 <==> Sub(c, path).right.Empty?
          invariant Ptr(Sub(c, path).left) == 0 <==> Sub(c, path).left.Empty?
          decreases Sub(c, path)
        {
          LeafWalkStep(c, path);
          rp := r;
          rb := Kid(links, r, true) != 0;
          r := Kid(links, r, rb);
          q, path := path, path + [rb];
          BelowPtrs(links, heads.size, n, p, i, b0, path);
        }
        DetachByLeaf(links, heads.size, n, p, i, b0, path, q, rp, rb);
        SetKidOnly(links, rp, rb, 0);
        links := SetKid(links, rp, rb, 0);
      } else {
        NothingLeft(links, heads.size, n, x, i);
      }
    }

    // The part of `unlink_large_chunk` that puts the replacement in `x`'s place.
    method Relink(x: int, r: int, xp: int, ghost k0: Links, ghost t: Trie, ghost i: nat, ghost path: seq<bool>,
          ghost q: seq<bool>, ghost b: bool)
      requires i < |treebins| == NTREEBINS && treebins[i] == Ptr(t) && i in Bits(treemap)
      requires TreeBin(k0, heads.size, t, i) && ValidPath(t, path) && Sub(t, path).Node?
      requires path != [] ==> path == q + [b] && ValidPath(t, q) && Sub(t, q).Node?
      requires |Sub(t, path).ring| > 0 && x == Ptr(Sub(t, path))
      requires xp == ParentAt(t, TreeBinAt(i), path) && r == Ptr(RemoveRoot(Sub(t, path)))
      requires Only(k0, links, Addrs(Sub(t, path))) && links.index == k0.index
      requires Detached(links, heads.size, RemoveRoot(Sub(t, path)), x, i)
      modifies this`links, this`treemap, this`treebins
      ensures Unlinked(k0, links, heads.size, t, i, path, x, old(treemap), treemap, old(treebins), treebins)
    {
      hide TreeBin, Rep, Distinct, Detached, RemoveRoot, RemoveNode, Addrs, Sub, ValidPath, Replace, Only, SetKid,
           Bits, Unlinked, ParentAt, Ptr, Kid, Adopt;
      ghost var k1 := links;
      var h := Rd(links.index, x);
      RelinkFacts(k0, heads.size, t, i, path, q, b, k1);
      if x == treebins[h] {
        treebins := treebins[h := r];
        if r == 0 {
          ClearBit(treemap, h);
          treemap := And(treemap, Not(Bit(h)));
        }
      } else {
        if Kid(links, xp, false) == x {
          links := SetKid(links, xp, false, r);
        } else {
          links := SetKid(links, xp, true, r);
        }
      }
      if r != 0 {
        links := Adopt(links, x, r, xp);
      }
      RelinkEnds(k0, heads.size, t, i, path, q, b, k1, links, old(treemap), treemap, old(treebins), treebins);
    }

    // ----- small bins ------------------------------------------------------------------------------

    // `insert_small_chunk`.
    method InsertSmallChunk(p: int, s: Word)
      requires BinsOK() && s < MIN_LARGE_SIZE && s % 8 == 0 && p > 0 && ChunkSize(p) == s && p !in Binned()
      modifies this`links, this`smallmap, this`small
      ensures BinsOK() && Binned() == old(Binned()) + {p} && OnlyChunks(old(links), links, old(Binned()) + {p})
      ensures s / 8 < |small| && small == old(small)[s / 8 := [p] + old(small)[s / 8]]
    {
      hide TreesOK, SmallsOK, And, Or, Bit, Bits, InSmalls, InTrees, Same;
      var i := s / 8;
      var b := SmallBinAt(i);
      var f := b;
      BitTest(smallmap, i);
      MarkBit(smallmap, i);
      ghost var map0 := smallmap;
      if And(smallmap, Bit(i)) == 0 {
        smallmap := Or(smallmap, Bit(i));
      } else {
        f := Rd(links.fd, b);
      }
      SmallOfSize(links, heads.size, map0, small, i);
      SmallInserted(links, heads.size, map0, small, treemap, treebins, trees, i, p, f, smallmap);
      links := LinkSmall(links, b, f, p);
      small := small[i := [p] + small[i]];
    }

    // `unlink_small_chunk`.
    method UnlinkSmallChunk(p: int, s: Word)
      requires BinsOK() && p in InSmalls(small) && ChunkSize(p) == s
      modifies this`links, this`smallmap, this`small
      ensures BinsOK() && InSmalls(small) == old(InSmalls(small)) - {p}
      ensures OnlyChunks(old(links), links, old(InSmalls(small)))
      ensures s / 8 < |old(small)| && p in old(small)[s / 8]
      ensures exists j | 0 <= j < |old(small)[s / 8]| ::
                old(small)[s / 8][j] == p && small == old(small)[s / 8 := DropAt(old(small)[s / 8], j)]
    {
      hide TreesOK, SmallsOK, And, Not, Bit, Bits, InSmalls, InTrees, Unlink, SmallBin, Same;
      ghost var j := FindSmall(links, heads.size, smallmap, small, p);
      var i := s / 8;
      var f, b := Rd(links.fd, p), Rd(links.bk, p);
      SmallEnds(links, heads.size, small[i], i, j);
      ghost var map0, k0 := smallmap, links;
      if b == f {
        ClearBit(smallmap, i);
        smallmap := And(smallmap, Not(Bit(i)));
      } else {
        links := Unlink(links, p);
      }
      SmallRemoved(k0, heads.size, map0, small, treemap, treebins, trees, i, j, links, smallmap);
      small := small[i := DropAt(small[i], j)];
    }

    // `unlink_first_small_chunk`, with the read of the first chunk in front of it.
    method UnlinkFirstSmall(i: nat) returns (p: int)
      requires BinsOK() && i < NSMALLBINS && i in Bits(smallmap)
      modifies this`links, this`smallmap, this`small
      ensures BinsOK() && p in old(InSmalls(small)) && InSmalls(small) == old(InSmalls(small)) - {p}
      ensures ChunkSize(p) == 8 * i && OnlyChunks(old(links), links, old(InSmalls(small)))
      ensures i < |old(small)| && old(small)[i] != [] && p == old(small)[i][0]
      ensures small == old(small)[i := old(small)[i][1..]]
    {
      hide TreesOK, And, Not, Bit, Bits, InSmalls, InTrees, SmallBin, Same;
      var b := SmallBinAt(i);
      p := Rd(links.fd, b);
      SmallOfSize(links, heads.size, smallmap, small, i);
      SmallEnds(links, heads.size, small[i], i, 0);
      InBin(small, i, p);
      var f := Rd(links.fd, p);
      ghost var map0, k0 := smallmap, links;
      if b == f {
        ClearBit(smallmap, i);
        smallmap := And(smallmap, Not(Bit(i)));
      } else {
        links := links.(bk := links.bk[f := b], fd := links.fd[b := f]);
      }
      SmallRemoved(k0, heads.size, map0, small, treemap, treebins, trees, i, 0, links, smallmap);
      assert DropAt(small[i], 0) == small[i][1..];
      small := small[i := DropAt(small[i], 0)];
    }

    // ----- relays ------------------------------------------------------------------------------------

    // `insert_chunk`.
    method InsertChunk(p: int, s: Word)
      requires BinsOK() && s % 8 == 0 && p > 0 && ChunkSize(p) == s && p !in Binned()
      modifies this`links, this`smallmap, this`treemap, this`treebins, this`small, this`trees
      ensures BinsOK() && Binned() == old(Binned()) + {p} && OnlyChunks(old(links), links, old(Binned()) + {p})
      ensures forall q: Word :: WaitingIn(trees, q) == WaitingIn(old(trees), q)
                                                           + if q == s && s >= MIN_LARGE_SIZE then [p] else []
    {
      hide TreesOK, SmallsOK, InSmalls, InTrees, OnlyChunks, WaitingIn;
      if s / 8 < NSMALLBINS {
        InsertSmallChunk(p, s);
      } else {
        InsertLargeChunk(p, s);
      }
    }

    // `unlink_chunk`.
    method UnlinkChunk(p: int, s: Word)
      requires BinsOK() && p in Binned() && ChunkSize(p) == s
      modifies this`links, this`smallmap, this`treemap, this`treebins, this`small, this`trees
      ensures BinsOK() && Binned() == old(Binned()) - {p} && OnlyChunks(old(links), links, old(Binned()))
      ensures s >= MIN_LARGE_SIZE ==> Leaves(old(Waiting(s)), Waiting(s), p)
      ensures forall q: Word :: q != s || s < MIN_LARGE_SIZE ==> WaitingIn(trees, q) == WaitingIn(old(trees), q)
    {
      hide TreesOK, SmallsOK, InSmalls, InTrees, Same, WaitingIn, Leaves;
      SmallNotLarge(links, heads.size, smallmap, small, treemap, treebins, trees);
      if s / 8 < NSMALLBINS {
        UnlinkSmallChunk(p, s);
      } else {
        UnlinkLargeChunk(p);
      }
    }

    // `replace_dv`: bin the old designated victim and install `p`.
    method ReplaceDv(p: int, s: Word)
      requires BinsOK() && dvsize < MIN_LARGE_SIZE && dvsize % 8 == 0
      requires dvsize != 0 ==> dv > 0 && ChunkSize(dv) == dvsize && dv !in Binned()
      modifies this`links, this`smallmap, this`small, this`dv, this`dvsize
      ensures BinsOK() && Binned() == old(Binned()) + (if old(dvsize) != 0 then {old(dv)} else {})
      ensures dv == p && dvsize == s && OnlyChunks(old(links), links, old(Binned()) + {old(dv)})
    {
      hide TreesOK, SmallsOK, InSmalls, InTrees, OnlyChunks;
      NoLinks(links, Binned() + {dv});
      if dvsize != 0 {
        InsertSmallChunk(dv, dvsize);
      }
      dvsize := s;
      dv := p;
    }

    // ----- what belongs to the client --------------------------------------------------------------

    // The holder of a chunk in use may store anything in it: the invariant does not depend
    // on link words of chunks that are in no bin, nor on foot words in front of a chunk
    // whose predecessor is in use.
    method ClientStores(k: Links, foot: map<int, int>)
      requires Valid()
      requires forall a | a in InTrees(trees) :: Same(links, k, a)
      requires forall a | a <= 0 || a in InSmalls(small) ::
                 Rd(k.fd, a) == Rd(links.fd, a) && Rd(k.bk, a) == Rd(links.bk, a)
      requires forall a | a in chunks && !Pin(heads, a) :: Rd(foot, a) == Foot(heads, a)
      modifies this`links, this`heads
      ensures links == k && heads == old(heads).(foot := foot)
      ensures Valid() && Live(heads, Ext()) == old(Live(heads, Ext())) && Free(heads, Ext()) == old(Free(heads, Ext()))
    {
      hide TreesOK, SmallsOK, InSmalls, InTrees, Tiled, Live, Free, Same, Pin;
      LinksFrame(links, k, heads.size, smallmap, small, treemap, treebins, trees);
      FeetFrame(heads, foot, Ext());
      links := k;
      heads := heads.(foot := foot);
    }

    // No address inside a chunk in use, and not its end, is one of those.
    lemma ClientOwns(q: int, a: int)
      requires Valid() && q in Live(heads, Ext())
      ensures q <= a < Next(heads, q) ==> a > 0 && a !in Binned()
      ensures q < a <= Next(heads, q) ==> a !in chunks || Pin(heads, a)
    {
      hide TreesOK, SmallsOK, InSmalls, InTrees, Tiled, Cin, Pin;
      SetFacts(heads, Ext());
      Pair(heads, Ext(), q, q);
      if a in chunks {
        Pair(heads, Ext(), q, a);
        OwnEnd(heads, Ext(), q, a);
      }
    }

    // ----- which chunk a request is served from ---------------------------------------------------

    // A smallest chunk of the set that holds `nb` bytes.
    ghost predicate Best(s: set<int>, nb: int, p: int)
      reads this
    {
      p in s && nb <= ChunkSize(p) && forall q | q in s && nb <= ChunkSize(q) :: ChunkSize(p) <= ChunkSize(q)
    }

    // The chunk last put into a small bin, of those still in it.
    ghost predicate Front(p: int)
      reads this
    {
      exists i :: 0 <= i < |small| && small[i] != [] && p == small[i][0]
    }

    // A tree chunk that has waited longest of its size.
    ghost predicate Oldest(p: int)
      reads this
    {
      && 0 <= ChunkSize(p) < MODULUS
      && Waiting(ChunkSize(p)) != [] && Waiting(ChunkSize(p))[0] == p
    }

    // A small bin fits exactly or with one unit to spare.
    ghost predicate Near(nb: int)
      reads this
    {
      exists q :: q in InSmalls(small) && nb <= ChunkSize(q) <= nb + 8
    }

    ghost predicate SmallFits(nb: int)
      reads this
    {
      exists q :: q in InSmalls(small) && nb <= ChunkSize(q)
    }

    // A tree chunk fits and the victim does not, or fits worse.
    ghost predicate TreeBetter(nb: int)
      reads this
    {
      exists q :: q in InTrees(trees) && nb <= ChunkSize(q) && (dvsize < nb || ChunkSize(q) < dvsize)
    }

    // The order in which `dlmalloc` looks for a chunk: for a small request a near fit in
    // the small bins, the victim, a best fit in the small bins, a best fit in the tree
    // bins, the top; for a large one the better of tree bins and victim, then the top.
    ghost predicate Chosen(nb: int, p: int)
      reads this
    {
      if nb < MIN_LARGE_SIZE then
        if Near(nb) then Best(InSmalls(small), nb, p) && Front(p)
        else if nb <= dvsize then p == dv
        else if SmallFits(nb) then Best(InSmalls(small), nb, p) && Front(p)
        else if InTrees(trees) != {} then Best(InTrees(trees), nb, p) && Oldest(p)
        else p == top
      else if TreeBetter(nb) then Best(InTrees(trees), nb, p) && Oldest(p)
      else if nb <= dvsize then p == dv
      else p == top
    }

    // The map of the small bins answers both questions.
    lemma SmallMapMeans(nb: Word)
      requires BinsOK() && MIN_CHUNK_SIZE <= nb < MIN_LARGE_SIZE && nb % 8 == 0
      ensures And(Shr(smallmap, nb / 8), 3) != 0 <==> Near(nb)
      ensures Shr(smallmap, nb / 8) != 0 <==> SmallFits(nb)
    {
      hide TreesOK, SmallsOK, InSmalls, Shr, And, Bits;
      var idx := nb / 8;
      NearBins(smallmap, idx);
      if Near(nb) {
        var q :| q in InSmalls(small) && nb <= ChunkSize(q) <= nb + 8;
        SmallSizeBit(links, heads.size, smallmap, small, q);
      }
      if SmallFits(nb) {
        var q :| q in InSmalls(small) && nb <= ChunkSize(q);
        SmallSizeBit(links, heads.size, smallmap, small, q);
        BitAbove(smallmap, idx, ChunkSize(q) / 8);
      }
      if Shr(smallmap, idx) != 0 {
        var j := LowestAbove(smallmap, idx);
        var q := SmallWithBit(links, heads.size, smallmap, small, j);
      }
      if idx in Bits(smallmap) {
        var q := SmallWithBit(links, heads.size, smallmap, small, idx);
      } else if idx + 1 in Bits(smallmap) {
        var q := SmallWithBit(links, heads.size, smallmap, small, idx + 1);
      }
    }

    // A chunk of the least marked bin that fits is a best fit of the small bins.
    lemma BestSmall(nb: Word, i: nat)
      requires BinsOK() && nb <= 8 * i && nb % 8 == 0
      requires forall j | j in Bits(smallmap) && nb / 8 <= j :: i <= j
      ensures forall p | p in InSmalls(small) && ChunkSize(p) == 8 * i :: Best(InSmalls(small), nb, p)
    {
      hide TreesOK, SmallsOK, InSmalls, Bits;
      forall p, q | p in InSmalls(small) && ChunkSize(p) == 8 * i && q in InSmalls(small) && nb <= ChunkSize(q)
        ensures ChunkSize(p) <= ChunkSize(q)
      {
        SmallSizeBit(links, heads.size, smallmap, small, q);
      }
    }

    // ----- searching the tree bins -------------------------------------------------------------

    // The first loop of `tmalloc_large`: walk the bin of `nb`, remembering the
    // deepest right subtree not taken.
    method SearchBin(nb: Word) returns (t: int, v: int, rsize: Word, ghost cur: Trie, ghost lo: nat, ghost w: nat)
      requires BinsOK() && nb >= MIN_LARGE_SIZE
      ensures ComputeTreeIndex(nb) < NTREEBINS == |trees|
      ensures BinSearched(links, heads.size, trees[ComputeTreeIndex(nb)], ComputeTreeIndex(nb), nb, v, rsize, cur, t,
          lo, w)
      ensures v != 0 ==> v in Tops(trees[ComputeTreeIndex(nb)]) && ChunkSize(v) == nb + rsize
      ensures t != 0 ==> t in Tops(trees[ComputeTreeIndex(nb)])
    {
      hide TreesOK, SmallsOK, TreeBin, Descending, BinSearched, Addrs, Shl, TopBit, LeftShift, ComputeTreeIndex, Base,
           Width, NewV, NewR, HasBit, Pow2, Kid, Minus, Ptr;
      var idx := ComputeTreeIndex(nb);
      BinRange(nb);
      TreesOf(links, heads.size, treemap, treebins, trees, idx);
      ghost var whole := trees[idx];
      v := 0;
      NegIs(nb);
      rsize := Neg(nb);
      t := treebins[idx];
      DescendStart(links, heads.size, whole, nb);
      cur, lo, w := whole, Base(idx), Width(idx);
      PtrZero(links, heads.size, whole, idx);
      if t == 0 {
        DescendEnd(links, heads.size, whole, idx, nb, v, rsize, cur, t, Empty, 0, lo, w, 0, 0);
        cur, lo, w := Empty, 0, 0;
        BinFacts(links, heads.size, whole, idx, nb, v, rsize, cur, t, lo, w);
        return;
      }
      var sizebits := Shl(nb, LeftShift(idx));
      var rst := 0;
      ghost var rtree: Trie, rlo: nat, rw: nat := Empty, 0, 0;
      while true
        invariant cur.Node? && w <= Width(idx) && rsize > 0
        invariant Descending(links, heads.size, whole, idx, nb, v, rsize, cur, t, rtree, rst, lo, w, rlo, rw)
        invariant sizebits == Shl(nb, LeftShift(idx) + (Width(idx) - w))
        decreases w
      {
        DescendFacts(links, heads.size, whole, idx, nb, v, rsize, cur, t, rtree, rst, lo, w, rlo, rw);
        var trem := Minus(ChunkSize(t), nb);
        ChosenNotExact(ChunkSize(t), nb, v, rsize);
        if ChunkSize(t) == nb {
          DescendExact(links, heads.size, whole, idx, nb, v, rsize, cur, t, rtree, rst, lo, w, rlo, rw);
        } else {
          DescendStep(links, heads.size, whole, idx, nb, v, rsize, cur, t, rtree, rst, lo, w, rlo, rw);
          LevelDigit(nb, idx, w);
          ShlStep(nb, LeftShift(idx) + (Width(idx) - w));
          NewIs(v, rsize, nb, ChunkSize(t), t);
        }
        if trem < rsize {
          v := t;
          rsize := trem;
          if rsize == 0 {
            BinFacts(links, heads.size, whole, idx, nb, v, rsize, cur, t, lo, w);
            return;
          }
        }
        var rt := Kid(links, t, true);
        ghost var b := HasBit(nb, w - 1);
        t := Kid(links, t, TopBit(sizebits) == 1);
        if rt != 0 && rt != t {
          rst := rt;
          rtree, rlo, rw := cur.right, lo + Pow2(w - 1), w - 1;
        }
        cur, lo, w := Child(cur, b), if b then lo + Pow2(w - 1) else lo, w - 1;
        if t == 0 {
          DescendEnd(links, heads.size, whole, idx, nb, v, rsize, cur, t, rtree, rst, lo, w, rlo, rw);
          t := rst;
          cur, lo, w := rtree, rlo, rw;
          BinFacts(links, heads.size, whole, idx, nb, v, rsize, cur, t, lo, w);
          return;
        }
        sizebits := Shl(sizebits, 1);
      }
    }

    // The second loop of `tmalloc_large`, also the loop of `tmalloc_small`.
    method ScanLeftmost(t0: int, v0: int, rsize0: Word, nb: Word, ghost whole: Trie, ghost i: nat, ghost cur0: Trie,
          ghost lo0: nat, ghost w0: nat)
      returns (v: int, rsize: Word)
      requires nb > 0
      requires Scanning(links, heads.size, whole, i, AllSizes(trees), AllTops(trees), nb, v0, rsize0, cur0, t0, lo0, w0)
      ensures Covered(AllSizes(trees), nb, v, rsize, {})
      ensures v0 != 0 ==> v != 0
      ensures v != 0 ==> v in AllTops(trees) && ChunkSize(v) == nb + rsize && nb + rsize < MODULUS
    {
      hide Scanning, NewV, NewR, AllSizes, AllTops, Kid, Ptr, Minus, Pow2;
      var t := t0;
      v, rsize := v0, rsize0;
      ghost var cur: Trie, lo: nat, w: nat := cur0, lo0, w0;
      while t != 0
        invariant v0 != 0 ==> v != 0
        invariant Scanning(links, heads.size, whole, i, AllSizes(trees), AllTops(trees), nb, v, rsize, cur, t, lo, w)
        decreases cur
      {
        ScanFacts(links, heads.size, whole, i, AllSizes(trees), AllTops(trees), nb, v, rsize, cur, t, lo, w);
        ScanStep(links, heads.size, whole, i, AllSizes(trees), AllTops(trees), nb, v, rsize, cur, t, lo, w);
        NewIs(v, rsize, nb, ChunkSize(t), t);
        var trem := Minus(ChunkSize(t), nb);
        if trem < rsize {
          rsize := trem;
          v := t;
        }
        t := if Kid(links, t, false) != 0 then Kid(links, t, false) else Kid(links, t, true);
        if cur.left.Node? {
          cur, w := cur.left, w - 1;
        } else if cur.right.Node? {
          cur, lo, w := cur.right, lo + Pow2(w - 1), w - 1;
        } else {
          cur, lo, w := Empty, 0, 0;
        }
      }
      ScanFacts(links, heads.size, whole, i, AllSizes(trees), AllTops(trees), nb, v, rsize, cur, t, lo, w);
    }

    // The search of `tmalloc_large`: an exact best fit over all tree bins, or
    // null if no binned large chunk fits.
    method SearchLarge(nb: Word) returns (v: int, rsize: Word)
      requires BinsOK() && nb >= MIN_LARGE_SIZE
      ensures v == 0 ==> forall a | a in InTrees(trees) :: ChunkSize(a) < nb
      ensures v != 0 ==> v in InTrees(trees) && ChunkSize(v) == nb + rsize && nb + rsize < MODULUS
      ensures v != 0 ==> Oldest(v)
      ensures v != 0 ==> forall a | a in InTrees(trees) && nb <= ChunkSize(a) :: ChunkSize(v) <= ChunkSize(a)
    {
      hide TreesOK, SmallsOK, BinSearched, Scanning, TreeBin, ComputeTreeIndex, AllSizes, AllTops, InTrees, WaitingIn,
           LeftBits, LeastBit, BitScan, And, Bit, Covered, Trees, Base, Width, Ptr, Bits;
      var idx := ComputeTreeIndex(nb);
      var t;
      ghost var cur, lo, w;
      t, v, rsize, cur, lo, w := SearchBin(nb);
      TreesOf(links, heads.size, treemap, treebins, trees, idx);
      BinFacts(links, heads.size, trees[idx], idx, nb, v, rsize, cur, t, lo, w);
      ghost var i := idx;
      if t == 0 && v == 0 {
        var leftbits := And(LeftBits(Bit(idx)), treemap);
        NextBins(links, heads.size, treemap, treebins, trees, idx);
        if leftbits != 0 {
          var n := BitScan(LeastBit(leftbits));
          ScanNext(links, heads.size, trees, nb, cur, t, lo, w, n);
          t := treebins[n];
          i, cur, lo, w := n, trees[n], Base(n), Width(n);
        } else {
          ScanNone(links, heads.size, trees, nb, cur, t, lo, w);
          SearchDone(links, heads.size, trees, nb, v, rsize);
          return;
        }
      } else {
        ScanInBin(links, heads.size, trees, nb, v, rsize, cur, t, lo, w);
      }
      v, rsize := ScanLeftmost(t, v, rsize, nb, trees[i], i, cur, lo, w);
      SearchDone(links, heads.size, trees, nb, v, rsize);
      if v != 0 { OldestLeads(links, heads.size, trees, v); }
    }

    // The search of `tmalloc_small`: the smallest chunk of the first non-empty tree bin.
    method SearchSmall(nb: Word) returns (v: int, rsize: Word)
      requires BinsOK() && 0 < nb < MIN_LARGE_SIZE && treemap != 0
      ensures v in InTrees(trees) && ChunkSize(v) == nb + rsize && nb + rsize < MODULUS && Oldest(v)
      ensures forall a | a in InTrees(trees) && nb <= ChunkSize(a) :: ChunkSize(v) <= ChunkSize(a)
    {
      hide TreesOK, SmallsOK, Scanning, TreeBin, AllSizes, AllTops, InTrees, WaitingIn, LeastBit, BitScan, Covered,
           Trees, Base, Width, NewV, NewR, Kid, Ptr, Bits, Minus, Pow2, Sizes, Addrs;
      FirstBin(links, heads.size, treemap, treebins, trees);
      var i := BitScan(LeastBit(treemap));
      var t := treebins[i];
      ghost var whole := trees[i];
      ghost var sizes, tops := AllSizes(trees), AllTops(trees);
      ScanSmall(links, heads.size, trees, nb, i);
      ScanFacts(links, heads.size, whole, i, sizes, tops, nb, 0, MODULUS - nb, whole, t, Base(i), Width(i));
      ScanStep(links, heads.size, whole, i, sizes, tops, nb, 0, MODULUS - nb, whole, t, Base(i), Width(i));
      LargeMinus(links, heads.size, whole, i, nb, t);
      v := t;
      rsize := ChunkSize(t) - nb;
      t := if Kid(links, t, false) != 0 then Kid(links, t, false) else Kid(links, t, true);
      ghost var cur: Trie, lo: nat, w: nat := whole.left, Base(i), if whole.left.Node? then Width(i) - 1 else 0;
      if whole.left.Empty? {
        cur, lo, w := whole.right, if whole.right.Node? then Base(i) + Pow2(Width(i) - 1) else 0,
                      if whole.right.Node? then Width(i) - 1 else 0;
      }
      v, rsize := ScanLeftmost(t, v, rsize, nb, whole, i, cur, lo, w);
      SearchDone(links, heads.size, trees, nb, v, rsize);
      if v != 0 { OldestLeads(links, heads.size, trees, v); }
    }

    // ----- allocation ---------------------------------------------------------------------------------

    // Nothing the allocator keeps has changed.
    twostate predicate Unchanged()
      reads this
    {
      && heads == old(heads) && links == old(links) && chunks == old(chunks)
      && smallmap == old(smallmap) && treemap == old(treemap) && treebins == old(treebins)
      && small == old(small) && trees == old(trees)
      && dv == old(dv) && dvsize == old(dvsize) && top == old(top) && topsize == old(topsize)
    }

    // What is left after chunk `p` served a request of `nb` bytes. The top always gives up
    // its front. Another chunk is cut when the rest can be a chunk; the rest is the new
    // victim after a small request, and when it was cut off the victim, and otherwise goes
    // into its bin. No other free chunk appears or goes away.
    ghost predicate Served(h: Heads, e: Extent, p: int, nb: int, dv0: int, dvsize0: int)
      reads this
    {
      var s := Size(h, p);
      if p == e.top then
        && Free(heads, Ext()) == Free(h, e) && Size(heads, p) == nb
        && top == p + nb && topsize == s - nb && dv == dv0 && dvsize == dvsize0
      else
        && top == e.top && topsize == Size(h, e.top)
        && if s < nb + MIN_CHUNK_SIZE then
             && Free(heads, Ext()) == Free(h, e) - {p} && Size(heads, p) == s
             && (if p == dv0 then dv == 0 && dvsize == 0 else dv == dv0 && dvsize == dvsize0)
           else
             && Free(heads, Ext()) == Free(h, e) - {p} + {p + nb}
             && Size(heads, p) == nb && Size(heads, p + nb) == s - nb
             && (if p == dv0 || nb < MIN_LARGE_SIZE then dv == p + nb && dvsize == s - nb
                 else dv == dv0 && dvsize == dvsize0)
    }

    // How a request served from chunk `p` of `s` bytes changes the order in which large
    // chunks wait: the chunk leaves the front of its size, and the rest of a large request
    // joins the end of its own.
    ghost predicate Queued(ts: seq<Trie>, p: int, s: int, nb: int)
      reads this
    {
      forall q: Word ::
        WaitingIn(trees, q) == (if p in InTrees(ts) && q == s then Rest(WaitingIn(ts, q)) else WaitingIn(ts, q))
                               + if p in InTrees(ts) && MIN_LARGE_SIZE <= nb && MIN_LARGE_SIZE <= q == s - nb
                                 then [p + nb] else []
    }

    lemma QueuedFrom(ts: seq<Trie>, mid: seq<Trie>, p: int, s: Word, nb: int)
      requires p in InTrees(ts) && WaitingIn(ts, s) != [] && WaitingIn(ts, s)[0] == p
      requires Leaves(WaitingIn(ts, s), WaitingIn(mid, s), p)
      requires forall q: Word :: q != s ==> WaitingIn(mid, q) == WaitingIn(ts, q)
      requires forall q: Word ::
                 WaitingIn(trees, q) == WaitingIn(mid, q)
                               + if MIN_LARGE_SIZE <= nb && MIN_LARGE_SIZE <= q == s - nb then [p + nb] else []
      ensures Queued(ts, p, s, nb)
    {
      hide WaitingIn, InTrees;
      FrontLeaves(WaitingIn(ts, s), WaitingIn(mid, s), p);
    }

    lemma TakenServed(h: Heads, e: Extent, v: int, r: int, nb: int, dv0: int, dvsize0: int)
      requires Tiled(h, e) && v in Free(h, e) && Taken(h, e, heads, Ext(), v, r) && topsize == Size(h, e.top)
      requires if r == 0 then Size(h, v) < nb + MIN_CHUNK_SIZE
               else r == v + nb && Size(heads, v) == nb && Size(heads, r) >= MIN_CHUNK_SIZE
      requires if r == 0 && v == dv0 then dv == 0 && dvsize == 0
               else if r != 0 && (v == dv0 || nb < MIN_LARGE_SIZE) then dv == r && dvsize == Size(heads, r)
               else dv == dv0 && dvsize == dvsize0
      ensures Served(h, e, v, nb, dv0, dvsize0)
    {
      hide Tiled, Live, Free, Size;
      FreeFacts(h, e, v);
    }

    // `tmalloc_large`: serve a large request from the best fitting chunk of the tree
    // bins, unless the designated victim fits at least as well or none fits.
    method TmallocLarge(nb: Word) returns (mem: int)
      requires Valid() && nb >= MIN_LARGE_SIZE && nb % 8 == 0
      modifies this
      ensures Valid()
      ensures mem == 0 ==> Unchanged()
      ensures mem == 0 ==> forall a | a in InTrees(trees) && nb <= ChunkSize(a) :: nb <= dvsize <= ChunkSize(a)
      ensures mem != 0 ==> Allocated(old(heads), old(Ext()), heads, Ext(), mem - 8, nb)
      ensures mem != 0 ==> old(Best(InTrees(trees), nb, mem - 8) && Oldest(mem - 8))
      ensures mem != 0 ==> Served(old(heads), old(Ext()), mem - 8, nb, old(dv), old(dvsize))
      ensures mem != 0 ==> Queued(old(trees), mem - 8, old(ChunkSize(mem - 8)), nb)
      ensures mem != 0 ==> old(dvsize) < nb || old(ChunkSize(mem - 8)) < old(dvsize)
      ensures SameOn(old(links), links, old(Live(heads, Ext())))
    {
      hide TreesOK, SmallsOK, InSmalls, InTrees, Tiled, Live, Free, Taken, Allocated, Minus, Size, OnlyChunks, SameOn,
           WaitingIn, Leaves, Served, Queued;
      mem := 0;
      ghost var k0 := links;
      LinksSame(k0, Live(heads, Ext()));
      var v, rsize := SearchLarge(nb);
      if v != 0 { WrapDv(nb, rsize, dvsize); }
      if v != 0 && rsize < Minus(dvsize, nb) {
        ghost var h0, e0, t0 := heads, Ext(), InTrees(trees);
        BinnedFacts(v);
        SetFacts(h0, e0);
        ghost var ts, s0 := trees, ChunkSize(v);
        UnlinkLargeChunk(v);
        ghost var mid := trees;
        if rsize < MIN_CHUNK_SIZE {
          UseWhole(v, rsize + nb);
          TakenPlaced(h0, e0, v, 0, nb);
          TakenServed(h0, e0, v, 0, nb, dv, dvsize);
          LiveLinks(h0, e0, k0, links, t0, v);
        } else {
          var r := v + nb;
          SplitOff(v, nb, r, rsize);
          ghost var k1, b1 := links, Binned();
          InsertChunk(r, rsize);
          TakenPlaced(h0, e0, v, r, nb);
          TakenServed(h0, e0, v, r, nb, dv, dvsize);
          ChunksTwice(k0, k1, links, t0, b1 + {r});
          LiveLinks(h0, e0, k0, links, t0 + (b1 + {r}), r);
        }
        QueuedFrom(ts, mid, v, s0, nb);
        mem := v + 8;
      }
    }

    // A binned chunk is free and is not the designated victim.
    lemma BinnedFacts(v: int)
      requires Valid() && v in InTrees(trees)
      ensures v in Free(heads, Ext()) && v > 0 && v != dv && v in Binned() && v !in InSmalls(small)
      ensures Size(heads, v) == ChunkSize(v) && ChunkSize(v) % 8 == 0
      ensures InTrees(trees) <= Binned() <= Free(heads, Ext())
    {
      hide TreesOK, SmallsOK, InSmalls, InTrees, Tiled, Free;
      SmallNotLarge(links, heads.size, smallmap, small, treemap, treebins, trees);
      assert v in Binned();
      FreeNotTop(heads, Ext(), v);
      FreeFacts(heads, Ext(), v);
    }

    // The new chunk found its place: invariant and caller's view after an allocation from a free chunk.
    lemma TakenPlaced(h: Heads, e: Extent, v: int, r: int, nb: int)
      requires Tiled(h, e) && v in Free(h, e) && Taken(h, e, heads, Ext(), v, r)
      requires nb <= Size(heads, v) < nb + MIN_CHUNK_SIZE
      requires topsize == Size(h, e.top)
      requires if dvsize == 0 then dv == 0 else dv != v && dv in Free(h, e) && Size(h, dv) == dvsize
      requires Binned() == Free(h, e) - {dv} - {v} + (if r == 0 then {} else {r})
      ensures Tiled(heads, Ext()) && Placed() && Allocated(h, e, heads, Ext(), v, nb)
    {
      hide Tiled, Live, Free, Size, InSmalls, InTrees;
      FreeFacts(h, e, v);
      SetFacts(h, e);
      TakenAllocated(h, e, heads, Ext(), v, r, nb);
    }

    // `set_inuse_and_pinuse` on a free chunk outside the bins.
    method UseWhole(v: int, s: int)
      requires BinsOK() && Tiled(heads, Ext()) && v in Free(heads, Ext()) && v !in Binned() && s == Size(heads, v)
      modifies this`heads
      ensures BinsOK() && Taken(old(heads), old(Ext()), heads, Ext(), v, 0) && Size(heads, v) == s
    {
      hide TreesOK, SmallsOK, InSmalls, InTrees, Tiled, Live, Free, Size;
      ghost var h0, s0 := heads, heads.size;
      TakeWhole(heads, Ext(), v);
      heads := SetInuse(heads, v, s);
      SameSizes(h0, heads, Binned());
      SizesFrame(links, s0, heads.size, smallmap, small, treemap, treebins, trees);
    }

    // `set_size_and_pinuse_of_inuse_chunk` on the front and
    // `set_size_and_pinuse_of_free_chunk` on the rest of a free chunk outside the bins.
    method SplitOff(v: int, nb: int, r: int, rsize: int)
      requires BinsOK() && Tiled(heads, Ext()) && CanSplit(heads, Ext(), v, nb) && v !in Binned()
      requires Binned() <= Free(heads, Ext())
      requires r == v + nb && rsize == Size(heads, v) - nb
      modifies this`heads, this`chunks
      ensures BinsOK() && Taken(old(heads), old(Ext()), heads, Ext(), v, r)
      ensures Size(heads, v) == nb && ChunkSize(r) == Size(heads, r) == rsize && rsize % 8 == 0
      ensures r !in Binned() && r > 0 && r !in old(chunks)
    {
      hide TreesOK, SmallsOK, InSmalls, InTrees, Tiled, Live, Free, SetInuseHead, SetFree, IsSplit, SplitHeads,
           CanSplit;
      ghost var h0, e0, s0 := heads, Ext(), heads.size;
      SplitFacts(h0, e0, v, nb);
      SetFacts(h0, e0);
      SplitReads(h0, v, nb, rsize);
      SplitIs(h0, v, nb, rsize);
      heads := SetInuseHead(heads, v, nb);
      heads := SetFree(heads, r, rsize);
      Split(h0, heads, e0, v, nb);
      chunks := chunks + {r};
      SameSizes(h0, heads, Binned());
      SizesFrame(links, s0, heads.size, smallmap, small, treemap, treebins, trees);
    }

    // `tmalloc_small`: serve a small request from the smallest chunk of the first
    // non-empty tree bin; the rest becomes the designated victim.
    method TmallocSmall(nb: Word) returns (mem: int)
      requires Valid() && MIN_CHUNK_SIZE <= nb < MIN_LARGE_SIZE && nb % 8 == 0 && treemap != 0 && dvsize < nb
      modifies this
      ensures Valid() && mem > 8 && Allocated(old(heads), old(Ext()), heads, Ext(), mem - 8, nb)
      ensures old(Best(InTrees(trees), nb, mem - 8) && Oldest(mem - 8))
      ensures Served(old(heads), old(Ext()), mem - 8, nb, old(dv), old(dvsize))
      ensures Queued(old(trees), mem - 8, old(ChunkSize(mem - 8)), nb)
      ensures SameOn(old(links), links, old(Live(heads, Ext())))
    {
      hide TreesOK, SmallsOK, InSmalls, InTrees, Tiled, Live, Free, Taken, Allocated, Size, OnlyChunks, SameOn,
           WaitingIn, Leaves, Served, Queued;
      var v, rsize := SearchSmall(nb);
      ghost var h0, e0, k0, t0, dv0 := heads, Ext(), links, InTrees(trees), dv;
      BinnedFacts(v);
      VictimFacts();
      ghost var ts, s0 := trees, ChunkSize(v);
      UnlinkLargeChunk(v);
      ghost var mid := trees;
      if rsize < MIN_CHUNK_SIZE {
        UseWhole(v, rsize + nb);
        TakenPlaced(h0, e0, v, 0, nb);
        TakenServed(h0, e0, v, 0, nb, dv, dvsize);
        LiveLinks(h0, e0, k0, links, t0, dv0);
      } else {
        var r := v + nb;
        SplitOff(v, nb, r, rsize);
        TakenKeeps(h0, e0, heads, Ext(), v, r, dv);
        ghost var k1, b1 := links, Binned();
        ReplaceDv(r, rsize);
        NewVictim(h0, e0, v, r, nb, old(dv), old(dvsize));
        TakenServed(h0, e0, v, r, nb, old(dv), old(dvsize));
        ChunksTwice(k0, k1, links, t0, b1 + {dv0});
        LiveLinks(h0, e0, k0, links, t0 + (b1 + {dv0}), dv0);
      }
      QueuedFrom(ts, mid, v, s0, nb);
      mem := v + 8;
    }

    // The designated victim, when there is one, is a free chunk outside the bins.
    lemma VictimFacts()
      requires Valid()
      ensures dvsize % 8 == 0
      ensures dvsize == 0 ==> dv == 0 && Free(heads, Ext()) - {dv} == Free(heads, Ext())
      ensures dvsize != 0 ==>
                && dv > 0 && dv in Free(heads, Ext()) && dv !in Binned() && ChunkSize(dv) == dvsize
                && dvsize >= MIN_CHUNK_SIZE
      ensures Binned() <= Free(heads, Ext()) && dv !in Live(heads, Ext())
    {
      hide TreesOK, SmallsOK, InSmalls, InTrees, Tiled, Live;
      SetFacts(heads, Ext());
      ZeroNotFree(heads, Ext());
      if dvsize != 0 {
        FreeFacts(heads, Ext(), dv);
      }
    }

    // After an allocation whose rest became the designated victim.
    lemma NewVictim(h: Heads, e: Extent, v: int, r: int, nb: int, dv0: int, dvsize0: int)
      requires Tiled(h, e) && v in Free(h, e) && r != 0 && Taken(h, e, heads, Ext(), v, r)
      requires nb <= Size(heads, v) < nb + MIN_CHUNK_SIZE
      requires topsize == Size(h, e.top) && dv == r && dvsize == Size(heads, r) && dvsize > 0
      requires if dvsize0 == 0 then dv0 == 0 && Free(h, e) - {dv0} == Free(h, e) else dv0 != v && dv0 in Free(h, e)
      requires Binned() == Free(h, e) - {dv0} - {v} + (if dvsize0 != 0 then {dv0} else {})
      ensures Tiled(heads, Ext()) && Placed() && Allocated(h, e, heads, Ext(), v, nb)
    {
      hide Tiled, Live, Free, Size, InSmalls, InTrees;
      FreeFacts(h, e, v);
      SetFacts(h, e);
      TakenAllocated(h, e, heads, Ext(), v, r, nb);
    }

    // A small request served from the small bin of its size or the next one.
    method AllocNear(nb: Word, smallbits: Word) returns (mem: int)
      requires Valid() && MIN_CHUNK_SIZE <= nb < MIN_LARGE_SIZE && nb % 8 == 0
      requires smallbits == Shr(smallmap, nb / 8) && And(smallbits, 3) != 0
      modifies this
      ensures Valid() && mem > 8 && Allocated(old(heads), old(Ext()), heads, Ext(), mem - 8, nb)
      ensures old(Best(InSmalls(small), nb, mem - 8) && Front(mem - 8))
      ensures Served(old(heads), old(Ext()), mem - 8, nb, old(dv), old(dvsize))
      ensures Queued(old(trees), mem - 8, old(ChunkSize(mem - 8)), nb)
      ensures SameOn(old(links), links, old(Live(heads, Ext())))
    {
      hide TreesOK, SmallsOK, InSmalls, InTrees, Tiled, Live, Free, Taken, Allocated, Size, And, Shr, Not, Bits,
           OnlyChunks, SameOn;
      ghost var k0, s0 := links, InSmalls(small);
      SetFacts(heads, Ext());
      var idx := nb / 8;
      NearBins(smallmap, idx);
      idx := idx + And(Not(smallbits), 1);
      ghost var h0, e0 := heads, Ext();
      InWordBits(smallmap, idx);
      SmallBinned(idx);
      BestSmall(nb, idx);
      var p := UnlinkFirstSmall(idx);
      assert p == old(small)[idx][0];
      UseWhole(p, 8 * idx);
      TakenPlaced(h0, e0, p, 0, nb);
      TakenServed(h0, e0, p, 0, nb, dv, dvsize);
      LiveLinks(h0, e0, k0, links, s0, p);
      mem := p + 8;
    }

    lemma SmallBinned(i: nat)
      requires Valid()
      ensures InSmalls(small) !! InTrees(trees)
      ensures forall p | p in InSmalls(small) ::
                p in Free(heads, Ext()) && p > 0 && p != dv && Size(heads, p) == ChunkSize(p)
    {
      SmallNotLarge(links, heads.size, smallmap, small, treemap, treebins, trees);
      forall p | p in InSmalls(small) ensures p in Free(heads, Ext()) && p > 0 && p != dv {
        assert p in Binned();
      }
    }

    // A small request served by splitting a chunk of the next non-empty small bin;
    // with 4-byte sizes the rest is always large enough to be a chunk.
    method AllocNext(nb: Word, smallbits: Word) returns (mem: int)
      requires Valid() && MIN_CHUNK_SIZE <= nb < MIN_LARGE_SIZE && nb % 8 == 0 && dvsize < nb
      requires smallbits == Shr(smallmap, nb / 8) && And(smallbits, 3) == 0 && smallbits != 0
      modifies this
      ensures Valid() && mem > 8 && Allocated(old(heads), old(Ext()), heads, Ext(), mem - 8, nb)
      ensures old(Best(InSmalls(small), nb, mem - 8) && Front(mem - 8))
      ensures Served(old(heads), old(Ext()), mem - 8, nb, old(dv), old(dvsize))
      ensures Queued(old(trees), mem - 8, old(ChunkSize(mem - 8)), nb)
      ensures SameOn(old(links), links, old(Live(heads, Ext())))
    {
      hide TreesOK, SmallsOK, InSmalls, InTrees, Tiled, Live, Free, Taken, Allocated, Size, And, Shr, Shl, Bits,
           LeftBits, LeastBit, BitScan, Bit, OnlyChunks, SameOn;
      ghost var k0, s0, dv0 := links, InSmalls(small), dv;
      var idx := nb / 8;
      NearBins(smallmap, idx);
      FarBins(smallmap, idx);
      var leftbits := And(Shl(smallbits, idx), LeftBits(Bit(idx)));
      var i := BitScan(LeastBit(leftbits));
      ghost var h0, e0 := heads, Ext();
      SmallBinned(i);
      VictimFacts();
      BestSmall(nb, i);
      var p := UnlinkFirstSmall(i);
      assert p == old(small)[i][0];
      var rsize := 8 * i - nb;
      var r := p + nb;
      SplitOff(p, nb, r, rsize);
      TakenKeeps(h0, e0, heads, Ext(), p, r, dv);
      ghost var k1, b1 := links, Binned();
      ReplaceDv(r, rsize);
      NewVictim(h0, e0, p, r, nb, old(dv), old(dvsize));
      TakenServed(h0, e0, p, r, nb, old(dv), old(dvsize));
      ChunksTwice(k0, k1, links, s0, b1 + {dv0});
      LiveLinks(h0, e0, k0, links, s0 + (b1 + {dv0}), dv0);
      mem := p + 8;
    }

    // Serve a request from the designated victim, splitting it when the rest can be a chunk.
    method AllocFromDv(nb: Word) returns (mem: int)
      requires Valid() && MIN_CHUNK_SIZE <= nb <= dvsize && nb % 8 == 0
      modifies this
      ensures mem - 8 == old(dv) && links == old(links)
      ensures Valid() && mem > 8 && Allocated(old(heads), old(Ext()), heads, Ext(), mem - 8, nb)
      ensures Served(old(heads), old(Ext()), mem - 8, nb, old(dv), old(dvsize))
      ensures Queued(old(trees), mem - 8, old(ChunkSize(mem - 8)), nb)
    {
      hide TreesOK, SmallsOK, InSmalls, InTrees, Tiled, Live, Free, Taken, Allocated, Size, SetFree, SetInuseHead,
           IsSplit;
      ghost var h0, e0, s0 := heads, Ext(), heads.size;
      VictimFacts();
      ZeroNotFree(h0, e0);
      SetFacts(h0, e0);
      var rsize := dvsize - nb;
      var p := dv;
      if rsize >= MIN_CHUNK_SIZE {
        var r := p + nb;
        SplitReadsLate(h0, p, nb, rsize);
        dv := r;
        dvsize := rsize;
        heads := SetFree(heads, r, rsize);
        heads := SetInuseHead(heads, p, nb);
        Split(h0, heads, e0, p, nb);
        chunks := chunks + {r};
        SameSizes(h0, heads, Binned());
        SizesFrame(links, s0, heads.size, smallmap, small, treemap, treebins, trees);
        SplitTaken(h0, e0, heads, p, nb);
        NewVictim(h0, e0, p, r, nb, 0, 0);
        TakenServed(h0, e0, p, r, nb, p, old(dvsize));
      } else {
        var dvs := dvsize;
        dvsize := 0;
        dv := 0;
        UseWhole(p, dvs);
        TakenPlaced(h0, e0, p, 0, nb);
        TakenServed(h0, e0, p, 0, nb, p, dvs);
      }
      mem := p + 8;
    }

    // Serve a request from the top chunk.
    method AllocFromTop(nb: Word) returns (mem: int)
      requires Valid() && MIN_CHUNK_SIZE <= nb < topsize && nb % 8 == 0
      modifies this
      ensures mem - 8 == old(top) && links == old(links)
      ensures Valid() && mem > 8 && Allocated(old(heads), old(Ext()), heads, Ext(), mem - 8, nb)
      ensures Served(old(heads), old(Ext()), mem - 8, nb, old(dv), old(dvsize))
      ensures Queued(old(trees), mem - 8, old(ChunkSize(mem - 8)), nb)
    {
      hide TreesOK, SmallsOK, InSmalls, InTrees, Tiled, Live, Free, Size, SetHead, SetInuseHead, SplitTopHeads,
           Allocated;
      ghost var h0, e0, s0 := heads, Ext(), heads.size;
      VictimFacts();
      SetFacts(h0, e0);
      TopFacts(h0, e0);
      BaseFacts(h0, e0);
      SplitTop(h0, e0, nb);
      SplitTopAllocated(h0, e0, nb);
      TopHeadsIs(h0, top, nb, topsize - nb);
      topsize := topsize - nb;
      var rsize := topsize;
      var p := top;
      var r := p + nb;
      top := r;
      heads := SetHead(heads, r, rsize, false, true);
      heads := SetInuseHead(heads, p, nb);
      chunks := chunks + {r};
      SameSizes(h0, heads, Binned());
      SizesFrame(links, s0, heads.size, smallmap, small, treemap, treebins, trees);
      mem := p + 8;
    }

    // No free chunk outside the top holds `nb` bytes.
    ghost predicate NothingFits(nb: int)
      reads this
    {
      topsize <= nb && forall p | p in Free(heads, Ext()) :: Size(heads, p) < nb
    }

    lemma NothingFitsSmall(nb: Word)
      requires Valid() && MIN_CHUNK_SIZE <= nb < MIN_LARGE_SIZE && nb % 8 == 0
      requires Shr(smallmap, nb / 8) == 0 && treemap == 0 && dvsize < nb && topsize <= nb
      ensures NothingFits(nb)
    {
      hide Shr, Bits, TreesOK, SmallsOK, InSmalls, InTrees;
      EmptyTrees(links, heads.size, treemap, treebins, trees);
      forall p | p in Free(heads, Ext()) ensures Size(heads, p) < nb {
        if p != dv {
          assert p in Binned();
          SmallBelow(links, heads.size, smallmap, small, p, nb / 8);
        }
      }
    }

    lemma NothingFitsLarge(nb: Word)
      requires Valid() && MIN_LARGE_SIZE <= nb && topsize <= nb
      requires dvsize < nb && forall a | a in InTrees(trees) :: ChunkSize(a) < nb
      ensures NothingFits(nb)
    {
      hide TreesOK, SmallsOK, InSmalls, InTrees, Tiled, Free;
      ZeroNotFree(heads, Ext());
      SmallNotLarge(links, heads.size, smallmap, small, treemap, treebins, trees);
      forall p | p in Free(heads, Ext()) ensures Size(heads, p) < nb {
        if p != dv {
          assert p in Binned();
          assert Size(heads, p) == ChunkSize(p);
        }
      }
    }

    lemma TooLarge()
      requires Valid()
      ensures dvsize < MAX_SIZE_T && topsize < MAX_SIZE_T && NothingFits(MAX_SIZE_T)
    {
      hide TreesOK, SmallsOK, InSmalls, InTrees, Tiled, Free;
      forall p | p in Free(heads, Ext()) ensures Size(heads, p) < MAX_SIZE_T {
        FreeFacts(heads, Ext(), p);
      }
      BaseFacts(heads, Ext());
      Inside(heads, Ext(), top);
    }

    lemma TreeMapMeans()
      requires Valid()
      ensures treemap == 0 <==> InTrees(trees) == {}
    {
      hide TreesOK, SmallsOK, InTrees;
      if treemap == 0 {
        EmptyTrees(links, heads.size, treemap, treebins, trees);
      } else {
        FirstBin(links, heads.size, treemap, treebins, trees);
        TreeRootBinned(links, heads.size, trees, BitScan(LeastBit(treemap)));
      }
    }

    // `dlmalloc`, with the system allocator taken to refuse: null only if no chunk fits.
    method Dlmalloc(bytes: Word) returns (mem: int)
      requires Valid()
      modifies this
      ensures Valid()
      ensures mem == 0 ==> Unchanged() && NothingFits(ChunkFor(bytes))
      ensures mem != 0 ==>
                && Allocated(old(heads), old(Ext()), heads, Ext(), mem - 8, ChunkFor(bytes))
                && bytes + CHUNK_OVERHEAD <= Size(heads, mem - 8)
      ensures mem != 0 ==> old(Chosen(ChunkFor(bytes), mem - 8))
      ensures mem != 0 ==> Served(old(heads), old(Ext()), mem - 8, ChunkFor(bytes), old(dv), old(dvsize))
      ensures mem != 0 ==> Queued(old(trees), mem - 8, old(ChunkSize(mem - 8)), ChunkFor(bytes))
      ensures SameOn(old(links), links, old(Live(heads, Ext())))
    {
      hide TreesOK, SmallsOK, InSmalls, InTrees, Tiled, Live, Free, PadRequest, And, Shr, NothingFits, Near,
           SmallFits, SameOn, Kept, Placed, BinsOK, Served;
      LinksSame(links, Live(heads, Ext()));
      var nb;
      if bytes < MAX_REQUEST { PadRequestValue(bytes); }
      if bytes <= MAX_SMALL_REQUEST {
        nb := if bytes < MIN_REQUEST then MIN_CHUNK_SIZE else PadRequest(bytes);
        var idx := nb / 8;
        var smallbits := Shr(smallmap, idx);
        SmallMapMeans(nb);
        TreeMapMeans();
        if And(smallbits, 3) != 0 {
          mem := AllocNear(nb, smallbits);
          return;
        } else if nb > dvsize {
          if smallbits != 0 {
            mem := AllocNext(nb, smallbits);
            return;
          } else if treemap != 0 {
            mem := TmallocSmall(nb);
            return;
          }
        }
        if nb > dvsize && topsize <= nb { NothingFitsSmall(nb); }
      } else if bytes >= MAX_REQUEST {
        nb := MAX_SIZE_T;
        TooLarge();
      } else {
        nb := PadRequest(bytes);
        mem := 0;
        TreeMapMeans();
        if treemap != 0 {
          mem := TmallocLarge(nb);
          if mem != 0 {
            return;
          }
        }
        if nb > dvsize && topsize <= nb { NothingFitsLarge(nb); }
      }
      if nb <= dvsize {
        mem := AllocFromDv(nb);
      } else if nb < topsize {
        mem := AllocFromTop(nb);
      } else {
        mem := 0;
      }
    }

    // ----- deallocation --------------------------------------------------------------------------------

    // What is around a chunk in use.
    lemma Neighbours(p: int)
      requires Valid() && p in Live(heads, Ext())
      ensures var a, n := BackOf(heads, p), Next(heads, p);
              && Pin(heads, n) && (a == p <==> Pin(heads, p)) && p != dv && p !in Free(heads, Ext()) && 0 < a
                  && n == p + Size(heads, p)
              && (a != p ==> a == p - Foot(heads, p) && ChunkSize(a) == Foot(heads, p) && a in Free(heads, Ext())
                             && 0 <= p - a < MODULUS && (a != dv ==> a in Binned()))
    {
      hide Tiled, TreesOK, SmallsOK, InSmalls, InTrees;
      if BackOf(heads, p) in Free(heads, Ext()) { FreeFacts(heads, Ext(), BackOf(heads, p)); }
      Around(heads, Ext(), p);
      SetFacts(heads, Ext());
      VictimFacts();
    }

    lemma FreeingFacts(h: Heads, e: Extent, p: int)
      requires Freeing(h, e, p)
      ensures var a, n, z := BackOf(h, p), Next(h, p), EndOf(h, e, p);
              && heads == h && e == Ext() && BinsOK() && Tiled(h, e) && p in Live(h, e) && topsize == Size(h, e.top)
              && Pin(h, n) && 0 < a < n && n <= z && (z - a) % 8 == 0 && MIN_CHUNK_SIZE <= z - a < MODULUS
              && (Cin(h, n) ==> z == n && n != top && n !in Free(h, e) && n != dv)
              && (n == top ==> z == limit && topsize == z - n && n !in Free(h, e) && n != dv)
              && (!Cin(h, n) && n != top ==>
                    && n in Free(h, e) && z == n + ChunkSize(n) && !Pin(h, z)
                    && ChunkSize(n) % 8 == 0 && ChunkSize(n) < MODULUS)
              && (n == dv ==> z == n + dvsize)
              && (n != top ==> z != limit) && !Pin(h, limit) && 0 !in Free(h, e) && (dvsize == 0 ==> dv == 0)
              && (if dvsize == 0 then dv == 0 else dv in Free(h, e) && Size(h, dv) == dvsize)
    {
      hide Tiled, TreesOK, SmallsOK;
      var n := Next(h, p);
      Around(h, e, p);
      SetFacts(h, e);
      BaseFacts(h, e);
      TopFacts(h, e);
      ZeroNotFree(h, e);
      if n in Free(h, e) { FreeFacts(h, e, n); }
    }

    // What is left after chunk `p` was given back: one free area from the chunk before it,
    // if that is free, to the end of the chunk behind it, if that is free or the top. The
    // area is the top if it reaches it, the victim if the victim is part of it, and
    // otherwise goes into its bin. No other free chunk appears or goes away.
    ghost predicate Merged(h: Heads, e: Extent, p: int, dv0: int, dvsize0: int)
      reads this
    {
      var a, n, z := BackOf(h, p), Next(h, p), EndOf(h, e, p);
      if n == e.top then
        && Free(heads, Ext()) == Free(h, e) - {a} && top == a && topsize == z - a
        && (if a == dv0 then dv == 0 && dvsize == 0 else dv == dv0 && dvsize == dvsize0)
      else
        && Free(heads, Ext()) == Free(h, e) - {a, n} + {a} && Size(heads, a) == z - a
        && top == e.top && topsize == Size(h, e.top)
        && (if a == dv0 || n == dv0 then dv == a && dvsize == z - a else dv == dv0 && dvsize == dvsize0)
    }

    lemma FreedMerges(h: Heads, e: Extent, p: int, dv0: int, dvsize0: int)
      requires Tiled(h, e) && p in Live(h, e)
      requires FreedState(h, e, p, heads, Ext())
      requires if Next(h, p) == e.top then
                 && topsize == EndOf(h, e, p) - BackOf(h, p)
                 && (if BackOf(h, p) == dv0 then dv == 0 && dvsize == 0 else dv == dv0 && dvsize == dvsize0)
               else
                 && topsize == Size(h, e.top)
                 && (if BackOf(h, p) == dv0 || Next(h, p) == dv0
                     then dv == BackOf(h, p) && dvsize == EndOf(h, e, p) - BackOf(h, p)
                     else dv == dv0 && dvsize == dvsize0)
      ensures Merged(h, e, p, dv0, dvsize0)
    {
      hide Tiled, Live, Released, EndOf, BackOf, Next, Size;
      FreeNotTop(h, e, Next(h, p));
    }

    // The freed area is the designated victim now.
    lemma FreedVictim(h: Heads, e: Extent, p: int, dv0: int)
      requires FreedState(h, e, p, heads, Ext()) && Next(h, p) != e.top
      requires topsize == Size(h, e.top)
      requires dv0 == BackOf(h, p) || dv0 == Next(h, p)
      requires Binned() == Free(h, e) - {dv0} - {BackOf(h, p), Next(h, p)}
      requires dv == BackOf(h, p) && dvsize == EndOf(h, e, p) - BackOf(h, p) && dvsize != 0
      ensures Tiled(heads, Ext()) && Placed()
    {
      hide Tiled, Live, InSmalls, InTrees, EndOf, BackOf;
    }

    // The freed area belongs to the top now.
    lemma FreedIntoTop(h: Heads, e: Extent, p: int, dv0: int)
      requires FreedState(h, e, p, heads, Ext()) && Next(h, p) == e.top
      requires topsize == EndOf(h, e, p) - BackOf(h, p)
      requires Binned() == Free(h, e) - {dv0} - {BackOf(h, p), Next(h, p)}
      requires if dv0 == BackOf(h, p) then dv == 0 && dvsize == 0 else dv == dv0
      requires dv0 != Next(h, p)
      requires dv == dv0 ==> if dvsize == 0 then dv == 0 else dv in Free(h, e) && Size(h, dv) == dvsize
      requires 0 !in Free(h, e)
      ensures Tiled(heads, Ext()) && Placed()
    {
      hide Tiled, Live, InSmalls, InTrees, EndOf, BackOf;
    }

    // The freed area was put into a bin.
    lemma FreedBinned(h: Heads, e: Extent, p: int)
      requires FreedState(h, e, p, heads, Ext()) && Next(h, p) != e.top
      requires topsize == Size(h, e.top) && dv != BackOf(h, p) && dv != Next(h, p)
      requires Binned() == Free(h, e) - {dv} - {BackOf(h, p), Next(h, p)} + {BackOf(h, p)}
      requires if dvsize == 0 then dv == 0 else dv in Free(h, e) && Size(h, dv) == dvsize
      ensures Tiled(heads, Ext()) && Placed()
    {
      hide Tiled, Live, InSmalls, InTrees, EndOf, BackOf;
    }

    // New headers leave the sizes of binned chunks alone.
    lemma FreedBins(h: Heads, e: Extent, p: int)
      requires FreedState(h, e, p, heads, Ext()) && BackOf(h, p) !in Binned()
      requires TreesOK(links, h.size, treemap, treebins, trees) && SmallsOK(links, h.size, smallmap, small)
      ensures BinsOK()
    {
      hide TreesOK, SmallsOK, InSmalls, InTrees, Tiled, Free, Live;
      SameSizes(h, heads, Binned());
      SizesFrame(links, h.size, heads.size, smallmap, small, treemap, treebins, trees);
    }

    // `dlfree`, with trimming of the top left out.
    method Dlfree(mem: int)
      requires Valid() && (mem == 0 || mem - 8 in Live(heads, Ext()))
      modifies this
      ensures Valid()
      ensures mem == 0 ==> Unchanged()
      ensures mem != 0 ==> Released(old(heads), old(Ext()), heads, Ext(), mem - 8)
      ensures mem != 0 ==> Merged(old(heads), old(Ext()), mem - 8, old(dv), old(dvsize))
      ensures SameOn(old(links), links, Live(heads, Ext()))
    {
      hide TreesOK, SmallsOK, InSmalls, InTrees, Tiled, Live, Free, Size, Foot, BackOf, Released, Freeing, Placed,
           OnlyChunks, SameOn, Merged;
      if mem == 0 {
        LinksSame(links, Live(heads, Ext()));
      } else {
        var p := mem - 8;
        ghost var h0, e0, k0 := heads, Ext(), links;
        NoLinks(k0, Free(h0, e0));
        SizeIs(heads, p);
        FreeingStart(p);
        var psize := ChunkSize(p);
        var next := p + psize;
        Neighbours(p);
        if !Pin(heads, p) {
          var done;
          p, psize, done := ConsolidateBackward(p, psize, next);
          if done {
            FreedLinks(h0, e0, mem - 8, k0, links, heads, Ext(), Free(h0, e0));
            return;
          }
        }
        ghost var k1 := links;
        ConsolidateForward(p, psize, next, h0, e0, mem - 8);
        ChunksTwice(k0, k1, links, Free(h0, e0), Free(h0, e0) + {p});
        FreedLinks(h0, e0, mem - 8, k0, links, heads, Ext(), Free(h0, e0) + (Free(h0, e0) + {p}));
      }
    }

    // The first half of `dlfree` for a chunk whose predecessor is free.
    method ConsolidateBackward(p0: int, psize0: int, next: int) returns (p: int, psize: int, done: bool)
      requires Valid() && p0 in Live(heads, Ext()) && !Pin(heads, p0) && psize0 == Size(heads, p0)
          && next == p0 + psize0
      modifies this
      ensures done ==> Valid() && Released(old(heads), old(Ext()), heads, Ext(), p0)
      ensures done ==> Merged(old(heads), old(Ext()), p0, old(dv), old(dvsize))
      ensures !done ==> dv == old(dv) && dvsize == old(dvsize)
      ensures !done ==>
                && Freeing(old(heads), old(Ext()), p0) && p == BackOf(old(heads), p0) && psize == next - p
                && Binned() == Free(old(heads), old(Ext())) - {dv} - {p} && (p == dv ==> !Cin(old(heads), next))
      ensures OnlyChunks(old(links), links, old(Free(heads, Ext())))
    {
      hide TreesOK, SmallsOK, InSmalls, InTrees, Tiled, Live, Free, Size, Foot, SetFreeWithPinuse, SetFree,
           FreedState, IsFreed, EndOf, BackOf, Released, OnlyChunks, Merged;
      ghost var h0, e0 := heads, Ext();
      NoLinks(links, Free(h0, e0));
      Neighbours(p0);
      FreeingStart(p0);
      FreeingFacts(h0, e0, p0);
      var prevsize := Foot(heads, p0);
      var prev := p0 - prevsize;
      psize := psize0 + prevsize;
      p := prev;
      done := false;
      if p != dv {
        ghost var k0, b0 := links, Binned();
        UnlinkChunk(p, prevsize);
        MoreChunks(k0, links, b0, Free(h0, e0));
      } else if Cin(heads, next) && Pin(heads, next) {
        dvsize := psize;
        FreedInUse(h0, e0, p, next);
        FreeCommit(h0, e0, p0, SetFreeWithPinuse(heads, p, psize, next));
        FreedVictim(h0, e0, p0, p);
        FreedMerges(h0, e0, p0, p, old(dvsize));
        done := true;
      }
    }

    // `p0` is being freed: the bins still agree with the old headers and lack at most
    // the chunk in front of `p0`.
    ghost predicate Freeing(h: Heads, e: Extent, p: int)
      reads this
    {
      && heads == h && BinsOK() && Tiled(h, e) && p in Live(h, e) && e == Ext()
      && topsize == Size(h, e.top)
      && (if dvsize == 0 then dv == 0 else dv in Free(h, e) && Size(h, dv) == dvsize)
    }

    lemma FreeingStart(p: int)
      requires Valid() && p in Live(heads, Ext())
      ensures Freeing(heads, Ext(), p) && Binned() == Free(heads, Ext()) - {dv}
      ensures BackOf(heads, p) == p ==> Binned() == Free(heads, Ext()) - {dv} - {p}
    {
      hide Tiled, TreesOK, SmallsOK, InSmalls, InTrees;
      SetFacts(heads, Ext());
    }

    // The branch of `dlfree` that adds the freed area to the top.
    method JoinTop(p: int, psize: int, ghost h: Heads, ghost e: Extent, ghost p0: int)
      requires Freeing(h, e, p0) && Binned() == Free(h, e) - {dv} - {BackOf(h, p0)}
      requires p == BackOf(h, p0) && Next(h, p0) == top && psize == top - p
      modifies this
      ensures Valid() && Released(h, e, heads, Ext(), p0) && links == old(links)
      ensures Merged(h, e, p0, old(dv), old(dvsize))
    {
      hide TreesOK, SmallsOK, InSmalls, InTrees, Tiled, Live, Free, Size, SetHead, FreedState, IsFreed, EndOf, BackOf,
           Released, Freeing, Cin, Pin, Foot, Next, Merged;
      FreeingFacts(h, e, p0);
      ghost var dv0 := dv;
      topsize := topsize + psize;
      var tsize := topsize;
      FreedTop(h, e, p);
      top := p;
      FreeCommit(h, e, p0, SetHead(heads, p, tsize, false, true));
      if p == dv {
        dv := 0;
        dvsize := 0;
      }
      FreedIntoTop(h, e, p0, dv0);
      FreedMerges(h, e, p0, dv0, old(dvsize));
    }

    // The branch that adds it to the designated victim.
    method JoinVictim(p: int, psize: int, ghost h: Heads, ghost e: Extent, ghost p0: int)
      requires Freeing(h, e, p0) && Binned() == Free(h, e) - {dv} - {BackOf(h, p0)}
      requires p == BackOf(h, p0) && Next(h, p0) == dv && psize == dv - p && !Cin(h, dv) && dv != top
      modifies this
      ensures Valid() && Released(h, e, heads, Ext(), p0) && links == old(links)
      ensures Merged(h, e, p0, old(dv), old(dvsize))
    {
      hide TreesOK, SmallsOK, InSmalls, InTrees, Tiled, Live, Free, Size, SetFree, FreedState, IsFreed, EndOf, BackOf,
           Released, Freeing, Cin, Pin, Foot, Next, Merged;
      FreeingFacts(h, e, p0);
      ghost var dv0 := dv;
      dvsize := dvsize + psize;
      var dsize := dvsize;
      dv := p;
      FreedMerged(h, e, p, EndOf(h, e, p0));
      FreeCommit(h, e, p0, SetFree(heads, p, dsize));
      FreedVictim(h, e, p0, dv0);
      FreedMerges(h, e, p0, dv0, old(dvsize));
    }

    // The second half of `dlfree`: the area from `p`, `psize` bytes up to `next`, meets what follows.
    method ConsolidateForward(p: int, psize0: int, next: int, ghost h: Heads, ghost e: Extent, ghost p0: int)
      requires Freeing(h, e, p0) && Binned() == Free(h, e) - {dv} - {BackOf(h, p0)}
      requires p == BackOf(h, p0) && next == Next(h, p0) && psize0 == next - p && (p == dv ==> !Cin(h, next))
      modifies this
      ensures Valid() && Released(h, e, heads, Ext(), p0)
      ensures Merged(h, e, p0, old(dv), old(dvsize))
      ensures OnlyChunks(old(links), links, Free(h, e) + {p})
    {
      hide TreesOK, SmallsOK, InSmalls, InTrees, Tiled, Live, Free, Size, SetFree, SetFreeWithPinuse, SetHead,
           FreedState, IsFreed, EndOf, BackOf, Released, Freeing, OnlyChunks, Placed, Cin, Pin, Foot, Next,
           Merged;
      ghost var k0 := links;
      NoLinks(links, Free(h, e) + {p});
      FreeingFacts(h, e, p0);
      var psize := psize0;
      ghost var dv0, z := dv, EndOf(h, e, p0);
      if !Cin(heads, next) {
        if next == top {
          JoinTop(p, psize, h, e, p0);
          return;
        } else if next == dv {
          JoinVictim(p, psize, h, e, p0);
          return;
        } else {
          var nsize := ChunkSize(next);
          psize := psize + nsize;
          UnlinkChunk(next, nsize);
          MoreChunks(k0, links, old(Binned()), Free(h, e) + {p});
          FreedMerged(h, e, p, z);
          FreeCommit(h, e, p0, SetFree(heads, p, psize));
          if p == dv {
            dvsize := psize;
            FreedVictim(h, e, p0, dv0);
            FreedMerges(h, e, p0, dv0, old(dvsize));
            return;
          }
        }
      } else {
        FreedInUse(h, e, p, next);
        FreeCommit(h, e, p0, SetFreeWithPinuse(heads, p, psize, next));
      }
      ghost var k1, b1 := links, Binned();
      InsertChunk(p, psize);
      FreedBinned(h, e, p0);
      FreedMerges(h, e, p0, dv, dvsize);
      ChunksTwice(k0, k1, links, Free(h, e) + {p}, b1 + {p});
      MoreChunks(k0, links, Free(h, e) + {p} + (b1 + {p}), Free(h, e) + {p});
    }

    // Store the new headers of a freed area.
    method FreeCommit(ghost h: Heads, ghost e: Extent, ghost p: int, h': Heads)
      requires heads == h && BinsOK()
      requires Tiled(h, e) && p in Live(h, e) && IsFreed(h, h', e, BackOf(h, p), EndOf(h, e, p))
      requires base == e.base && limit == e.limit && top == (if Next(h, p) == e.top then BackOf(h, p) else e.top)
      requires BackOf(h, p) !in Binned()
      modifies this`heads, this`chunks
      ensures heads == h' && BinsOK() && FreedState(h, e, p, heads, Ext()) && Released(h, e, heads, Ext(), p)
      ensures ChunkSize(BackOf(h, p)) == EndOf(h, e, p) - BackOf(h, p)
    {
      hide TreesOK, SmallsOK, InSmalls, InTrees, Tiled, Free, Live, IsFreed;
      FreedDone(h, h', e, p);
      heads := h';
      chunks := FreedExtent(h, e, p).chunks;
      ExtentOf(h, e, p);
      FreedBins(h, e, p);
    }
  }

  lemma {:induction false} EmptyBins(k: Links, sz: map<int, int>)
    ensures TreesOK(k, sz, 0, seq(NTREEBINS, i => 0), seq(NTREEBINS, i => Empty))
    ensures SmallsOK(k, sz, 0, seq(NSMALLBINS, i => []))
    ensures InTrees(seq(NTREEBINS, i => Empty)) == {} && InSmalls(seq(NSMALLBINS, i => [])) == {}
  {
    hide TreeBin, Bits;
    ZeroWord();
    var trees: seq<Trie> := seq(NTREEBINS, i => Empty);
    forall i: nat | i < NTREEBINS ensures TreeSlot(k, sz, 0, 0, trees[i], i) {
      EmptyTree(k, sz, i);
    }
  }

  // `init_top`: one chunk, and the fencepost behind it.
  lemma {:induction false} FreshTop(base: int, psize: int, e: Extent)
    requires base > 0 && base % 8 == 0 && psize % 8 == 0 && 0 < psize && base + psize < MODULUS
    requires e == Extent({base}, base, base, base + psize)
    ensures var h := SetHead(SetHead(Heads(map[], map[], map[], map[]), base, psize, false, true),
                             base + psize, TOP_FOOT_SIZE, false, false);
            Tiled(h, e) && Live(h, e) == {} && Free(h, e) == {} && Size(h, base) == psize
  {
  }

  lemma {:induction false} OwnEnd(h: Heads, e: Extent, q: int, a: int)
    requires Tiled(h, e) && q in Live(h, e) && a in e.chunks
    ensures q <= a < Next(h, q) ==> a == q
    ensures a == Next(h, q) ==> Pin(h, a)
  {
    hide Tiled;
    SetFacts(h, e);
    BaseFacts(h, e);
    Pair(h, e, q, a);
  }

  lemma NoLinks(k: Links, s: set<int>)
    ensures OnlyChunks(k, k, s)
  {
  }

  lemma MoreChunks(k: Links, k': Links, s: set<int>, u: set<int>)
    requires OnlyChunks(k, k', s) && s <= u
    ensures OnlyChunks(k, k', u)
  {
  }

  // The chunks in use after `p` was freed were in use before, and kept their links.
  lemma FreedLinks(h: Heads, e: Extent, p: int, k: Links, k': Links, h': Heads, e': Extent, s: set<int>)
    requires Tiled(h, e) && p in Live(h, e) && Released(h, e, h', e', p)
    requires OnlyChunks(k, k', s) && s <= Free(h, e) + {BackOf(h, p)}
    ensures SameOn(k, k', Live(h', e'))
  {
    hide Tiled, Live, Free, BackOf, Same, Kept;
    AroundBack(h, e, p);
    SetFacts(h, e);
    forall a | a in Live(h', e') ensures Same(k, k', a) {
      Pair(h, e, a, a);
    }
  }

  lemma FreeNotTop(h: Heads, e: Extent, v: int)
    ensures v in Free(h, e) ==> v in e.chunks && v != e.top
  {
  }

  // A client of a new heap: two requests, the chunks given back in either order. The heap
  // is then the one top chunk it started as, with nothing in any bin.
  method AllocateAndFree(tbase: int, size: Word, first: Word, second: Word, swap: bool) returns (m: MallocState)
    requires tbase > 0 && (tbase + size) % 8 == 0 && tbase + size < MODULUS
    requires size > TOP_FOOT_SIZE + AlignOffset(tbase + 8)
    ensures fresh(m) && m.Valid() && m.top == m.base && m.chunks == {m.base} && m.topsize == m.limit - m.base
    ensures m.dv == 0 && m.Binned() == {} && m.smallmap == 0 && m.treemap == 0
  {
    hide TreesOK, SmallsOK, InSmalls, InTrees, Tiled, Live, Free, MallocState.Valid, MallocState.NothingFits,
         MallocState.Chosen, SameOn, Kept, ChunkFor;
    m := new MallocState(tbase, size);
    var p := m.Dlmalloc(first);
    var q := m.Dlmalloc(second);
    if swap {
      m.Dlfree(q);
      m.Dlfree(p);
    } else {
      m.Dlfree(p);
      m.Dlfree(q);
    }
    m.EverythingFreed();
  }

  lemma SplitFacts(h: Heads, e: Extent, v: int, nb: int)
    requires Tiled(h, e) && CanSplit(h, e, v, nb)
    ensures v in Free(h, e) && nb > 0 && Size(h, v) - nb > 0 && (Size(h, v) - nb) % 8 == 0
  {
    hide Tiled;
    FreeFacts(h, e, v);
    SplitAligned(h, e, v, nb);
  }

  lemma ZeroNotFree(h: Heads, e: Extent)
    requires Tiled(h, e)
    ensures 0 !in Free(h, e) && 0 !in Live(h, e)
  {
    if 0 in e.chunks { Inside(h, e, 0); }
  }

  lemma TakenKeeps(h: Heads, e: Extent, h': Heads, e': Extent, v: int, r: int, d: int)
    requires Tiled(h, e) && v in Free(h, e) && r != 0 && Taken(h, e, h', e', v, r)
    ensures d in Free(h, e) && d != v ==> Size(h', d) == Size(h, d) && Rd(h'.size, d) == Rd(h.size, d)
  {
    SetFacts(h, e);
  }

  lemma InWordBits(x: Word, i: nat)
    ensures i in Bits(x) ==> i < WORD_BITS
  {
  }

  lemma {:induction false} SplitTaken(h: Heads, e: Extent, h': Heads, v: int, nb: int)
    requires Tiled(h, e) && CanSplit(h, e, v, nb) && IsSplit(h, h', v, nb, Size(h, v) - nb)
    ensures Taken(h, e, h', e.(chunks := e.chunks + {v + nb}), v, v + nb)
  {
    Split(h, h', e, v, nb);
  }

  lemma {:induction false} SplitTopAllocated(h: Heads, e: Extent, nb: int)
    requires Tiled(h, e) && CanSplitTop(h, e, nb)
    ensures Allocated(h, e, SplitTopHeads(h, e.top, nb, Size(h, e.top) - nb), TopSplit(e, nb), e.top, nb)
  {
    hide Tiled;
    TopFacts(h, e);
    SplitTop(h, e, nb);
    SetFacts(h, e);
  }

  lemma SizeIs(h: Heads, p: int)
    ensures Size(h, p) == Rd(h.size, p)
  {
  }

  lemma TopHeadsIs(h: Heads, p: int, nb: int, rs: int)
    ensures SplitTopHeads(h, p, nb, rs) == SetInuseHead(SetHead(h, p + nb, rs, false, true), p, nb)
  {
  }

  lemma {:induction false} EmptyTrees(k: Links, sz: map<int, int>, treemap: Word, treebins: seq<int>, trees: seq<Trie>)
    requires TreesOK(k, sz, treemap, treebins, trees) && treemap == 0
    ensures InTrees(trees) == {}
  {
    EmptyWord(treemap);
    forall i: nat | i < |trees| ensures Addrs(trees[i]) == {} {
      assert TreeSlot(k, sz, treemap, treebins[i], trees[i], i);
    }
  }

  // No bit at or above `idx`: every chunk in a small bin is smaller than 8 idx.
  lemma {:induction false} SmallBelow(k: Links, sz: map<int, int>, smallmap: Word, small: seq<seq<int>>, p: int,
        idx: nat)
    requires SmallsOK(k, sz, smallmap, small) && Shr(smallmap, idx) == 0 && p in InSmalls(small)
    ensures Rd(sz, p) < 8 * idx
  {
    hide InSmalls, Shr, SmallsOK;
    var j := FindSmall(k, sz, smallmap, small, p);
    var i := Rd(sz, p) / 8;
    if i >= idx {
      ShrBit(smallmap, idx, i - idx);
      ZeroBits(i - idx);
    }
  }

  lemma SplitIs(h: Heads, v: int, nb: int, rs: int)
    ensures SplitHeads(h, v, nb, rs) == SetFree(SetInuseHead(h, v, nb), v + nb, rs)
  {
  }
}

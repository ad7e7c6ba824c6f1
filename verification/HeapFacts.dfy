// Facts about the bins used inside the methods of the user heap: each turns the
// state a method has reached into what its next step needs.
module HeapFacts {
  import opened Words
  import opened TreeIndex
  import opened Tries
  import opened Links
  import opened Paths
  import opened Bins
  import opened Removal
  import opened SmallBins
  import opened BestFit
  import opened Layout

  lemma PreparedKids(k: Links, t: int, x: int, i: int)
    requires t != x
    ensures Kid(Prepared(k, x, i), t, false) == Kid(k, t, false)
    ensures Kid(Prepared(k, x, i), t, true) == Kid(k, t, true)
  {
  }

  lemma BinnedAddr(small: seq<seq<int>>, trees: seq<Trie>, i: nat, x: int)
    requires i < |trees| && x !in InSmalls(small) + InTrees(trees)
    ensures x !in Addrs(trees[i])
  {
  }

  lemma LargeAddrs(k: Links, sz: map<int, int>, t: Trie, i: nat, x: int)
    requires TreeBin(k, sz, t, i) && x > 0 && Rd(sz, x) >= MIN_LARGE_SIZE
    ensures forall a | a in Addrs(t) + {x} :: a > 0 && Rd(sz, a) >= MIN_LARGE_SIZE
  {
    forall a | a in Addrs(t) ensures a > 0 && Rd(sz, a) >= MIN_LARGE_SIZE {
      TreeMember(k, sz, t, i, a);
    }
  }

  lemma {:induction false} FirstInBin(k: Links, sz: map<int, int>, t: Trie, i: nat, x: int, s: nat)
    requires t.Empty? && x > 0 && Rd(sz, x) == s
    ensures var k1 := Prepared(k, x, i);
            Inserted(k, sz, t, i, x, s,
                     k1.(parent := k1.parent[x := TreeBinAt(i)], fd := k1.fd[x := x], bk := k1.bk[x := x]))
  {
    var k1 := Prepared(k, x, i);
    var k2 := k1.(parent := k1.parent[x := TreeBinAt(i)], fd := k1.fd[x := x], bk := k1.bk[x := x]);
    LeafRep(k2, sz, TreeBinAt(i), x, s, i);
  }

  // After the insertion the bin holds exactly one chunk more.
  lemma {:induction false} InsertedBin(k: Links, k': Links, sz: map<int, int>, t: Trie, x: int, s: Word)
    requires s >= MIN_LARGE_SIZE && TreeBin(k, sz, t, ComputeTreeIndex(s)) && x > 0 && x !in Addrs(t)
    requires Inserted(k, sz, t, ComputeTreeIndex(s), x, s, k')
    ensures var i := ComputeTreeIndex(s); var u := Insert(t, x, s, Width(i));
            && TreeBin(k', sz, u, i) && Addrs(u) == Addrs(t) + {x} && u.Node?
            && Only(k, k', Addrs(t) + {x})
            && Ptr(u) == (if t.Empty? then x else Ptr(t))
  {
    hide Shape, Distinct, Rep, Aligned, Only, Pow2, Base, Width;
    var i := ComputeTreeIndex(s);
    BinRange(s);
    InsertShape(t, x, s, Base(i), Width(i));
    InsertAddrs(t, x, s, Base(i), Width(i));
    InsertDistinct(t, x, s, Base(i), Width(i));
  }

  // ----- facts used by the removal methods -----------------------------------------------------

  lemma FindBin(k: Links, sz: map<int, int>, treemap: Word, treebins: seq<int>, trees: seq<Trie>, x: int)
    returns (i: nat)
    requires TreesOK(k, sz, treemap, treebins, trees) && x in InTrees(trees)
    ensures i < NTREEBINS == |treebins| == |trees| && TreeBin(k, sz, trees[i], i) && x in Addrs(trees[i])
    ensures treebins[i] == Ptr(trees[i]) && i in Bits(treemap)
    ensures forall j | 0 <= j < NTREEBINS :: TreeBin(k, sz, trees[j], j)
    ensures x > 0 && MIN_LARGE_SIZE <= Rd(sz, x) < MODULUS && ComputeTreeIndex(Rd(sz, x)) == i
  {
    i :| 0 <= i < |trees| && x in Addrs(trees[i]);
    assert TreeSlot(k, sz, treemap, treebins[i], trees[i], i);
    forall j | 0 <= j < NTREEBINS ensures TreeBin(k, sz, trees[j], j) {
      assert TreeSlot(k, sz, treemap, treebins[j], trees[j], j);
    }
    TreeMember(k, sz, trees[i], i, x);
  }

  // What happened to bin `i` when `x` was taken out.
  ghost predicate Unlinked(k: Links, k': Links, sz: map<int, int>, t: Trie, i: nat, path: seq<bool>, x: int,
        treemap: Word, treemap': Word, treebins: seq<int>, treebins': seq<int>)
  {
    && ValidPath(t, path) && Sub(t, path).Node? && x in Sub(t, path).ring
    && (var u := Replace(t, path, RemoveNode(Sub(t, path), x));
        && Rep(k', sz, u, TreeBinAt(i), i) && Only(k, k', Addrs(t))
        && i < |treebins| && treebins' == treebins[i := Ptr(u)]
        && Bits(treemap') == if u.Node? then Bits(treemap) + {i} else Bits(treemap) - {i})
  }

  lemma {:induction false} NodeFacts(k: Links, sz: map<int, int>, t: Trie, i: nat, path: seq<bool>, x: int)
    requires TreeBin(k, sz, t, i) && ValidPath(t, path) && Sub(t, path).Node? && x in Sub(t, path).ring
    ensures var n := Sub(t, path);
            && Distinct(n) && |n.ring| > 0
            && (x != Ptr(n) ==> Rd(k.parent, x) == 0 && Rd(k.bk, x) != x)
            && (x == Ptr(n) ==>
                  && RemoveNode(n, x) == RemoveRoot(n)
                  && Rd(k.parent, x) == ParentAt(t, TreeBinAt(i), path) != 0
                  && Rep(k, sz, n, Rd(k.parent, x), i)
                  && (Rd(k.bk, x) != x <==> |n.ring| > 1))
  {
    SubRep(k, sz, t, TreeBinAt(i), i, path);
    var n := Sub(t, path);
    if x != Ptr(n) {
      UnlinkChained(k, sz, t, i, path, x);
    } else {
      ParentNonZero(k, sz, t, TreeBinAt(i), i, path);
      if |n.ring| > 1 {
        DetachByRing(k, sz, n, Rd(k.parent, x), i);
      } else {
        DetachAlone(k, sz, n, Rd(k.parent, x), i);
      }
    }
  }

  lemma {:induction false} ParentNonZero(k: Links, sz: map<int, int>, t: Trie, p: int, bin: int, path: seq<bool>)
    requires ValidPath(t, path) && Rep(k, sz, t, p, bin) && p != 0
    ensures ParentAt(t, p, path) != 0
    decreases path
  {
    if path != [] {
      PtrOf(k, sz, t, p, bin);
      ParentNonZero(k, sz, Child(t, path[0]), Ptr(t), bin, path[1..]);
    }
  }

  lemma {:induction false} ChainedCase(k: Links, sz: map<int, int>, t: Trie, i: nat, path: seq<bool>, x: int,
        treemap: Word, treebins: seq<int>)
    requires TreeBin(k, sz, t, i) && ValidPath(t, path) && Sub(t, path).Node?
    requires x in Sub(t, path).ring && x != Ptr(Sub(t, path))
    requires i < |treebins| && treebins[i] == Ptr(t) && i in Bits(treemap)
    ensures Unlinked(k, Unlink(k, x), sz, t, i, path, x, treemap, treemap, treebins, treebins)
  {
    UnlinkChained(k, sz, t, i, path, x);
    var u := Replace(t, path, RemoveNode(Sub(t, path), x));
    assert u.Node? by { if path != [] { assert t.Node?; } }
  }

  lemma {:induction false} RemovedBin(k: Links, k': Links, sz: map<int, int>, t: Trie, i: nat, path: seq<bool>,
        x: int, treemap: Word, treemap': Word, treebins: seq<int>, treebins': seq<int>)
    requires TreeBin(k, sz, t, i)
    requires Unlinked(k, k', sz, t, i, path, x, treemap, treemap', treebins, treebins')
    ensures var u := Replace(t, path, RemoveNode(Sub(t, path), x));
            && TreeBin(k', sz, u, i) && Addrs(u) == Addrs(t) - {x} && Only(k, k', Addrs(t) + {x})
            && treebins' == treebins[i := Ptr(u)]
            && Bits(treemap') == if u.Node? then Bits(treemap) + {i} else Bits(treemap) - {i}
  {
    RemoveCorrect(t, path, x, Base(i), Width(i));
  }

  lemma TreeInTrees(trees: seq<Trie>, i: nat)
    requires i < |trees|
    ensures Addrs(trees[i]) <= InTrees(trees)
  {
    hide Addrs;
    forall a | a in Addrs(trees[i]) ensures a in InTrees(trees) {
      assert a in Addrs(trees[i]);
    }
  }

  // The bins after the chunk was taken out of its tree.
  lemma {:induction false} TreeTaken(k0: Links, k1: Links, sz: map<int, int>, treemap0: Word, treemap1: Word,
        treebins0: seq<int>, treebins1: seq<int>, trees: seq<Trie>, small: seq<seq<int>>, smallmap: Word, i: nat,
        path: seq<bool>, x: int)
    requires TreesOK(k0, sz, treemap0, treebins0, trees) && SmallsOK(k0, sz, smallmap, small)
    requires i < NTREEBINS == |trees| && TreeBin(k0, sz, trees[i], i) && x in Addrs(trees[i])
    requires Unlinked(k0, k1, sz, trees[i], i, path, x, treemap0, treemap1, treebins0, treebins1)
    ensures ValidPath(trees[i], path) && Sub(trees[i], path).Node?
    ensures var ts := trees[i := Replace(trees[i], path, RemoveNode(Sub(trees[i], path), x))];
            && TreesOK(k1, sz, treemap1, treebins1, ts) && SmallsOK(k1, sz, smallmap, small)
            && InTrees(ts) == InTrees(trees) - {x} && OnlyChunks(k0, k1, InTrees(trees))
  {
    hide TreesOK, SmallsOK, TreeBin, Addrs, Sub, Replace, InTrees, ComputeTreeIndex, Bits, Rep, Only, RemoveNode,
         OnlyChunks;
    var t := trees[i];
    var u := Replace(t, path, RemoveNode(Sub(t, path), x));
    TreeMember(k0, sz, t, i, x);
    RemovedBin(k0, k1, sz, t, i, path, x, treemap0, treemap1, treebins0, treebins1);
    TreesUpdate(k0, sz, treemap0, treebins0, trees, k1, treemap1, treebins1, i, u, x);
    LargeAddrs(k0, sz, t, i, x);
    SmallsFrame(k0, sz, smallmap, small, k1, Addrs(t) + {x});
    AllTreeBins(k0, sz, treemap0, treebins0, trees);
    NotElsewhere(trees, i, x, k0, sz);
    InTreesUpdate(trees, i, u, x);
    TreeInTrees(trees, i);
    OnlyIsChunks(k0, k1, Addrs(t) + {x}, InTrees(trees));
  }

  lemma AllTreeBins(k: Links, sz: map<int, int>, treemap: Word, treebins: seq<int>, trees: seq<Trie>)
    requires TreesOK(k, sz, treemap, treebins, trees)
    ensures |trees| == NTREEBINS && forall j | 0 <= j < NTREEBINS :: TreeBin(k, sz, trees[j], j)
  {
    hide TreeBin, Bits;
    forall j | 0 <= j < NTREEBINS ensures TreeBin(k, sz, trees[j], j) {
      assert TreeSlot(k, sz, treemap, treebins[j], trees[j], j);
    }
  }

  // ----- words the client owns -----------------------------------------------------------------

  lemma LinksSame(k: Links, s: set<int>)
    ensures SameOn(k, k, s)
  {
  }

  // Only free chunks, and `r`, had links written: those of the chunks in use are as before.
  lemma LiveLinks(h: Heads, e: Extent, k: Links, k': Links, s: set<int>, r: int)
    requires Tiled(h, e) && OnlyChunks(k, k', s) && s <= Free(h, e) + {r} && r !in Live(h, e)
    ensures SameOn(k, k', Live(h, e))
  {
    hide Tiled, Same;
    forall a | a in Live(h, e) ensures Same(k, k', a) {
      Pair(h, e, a, a);
    }
  }

  // The invariant of the bins reads the links of binned chunks and of bin headers only,
  // of small chunks and headers the forward and backward link only.
  lemma {:induction false} LinksFrame(k: Links, k': Links, sz: map<int, int>, smallmap: Word, small: seq<seq<int>>,
        treemap: Word, treebins: seq<int>, trees: seq<Trie>)
    requires TreesOK(k, sz, treemap, treebins, trees) && SmallsOK(k, sz, smallmap, small)
    requires forall a | a in InTrees(trees) :: Same(k, k', a)
    requires forall a | a <= 0 || a in InSmalls(small) :: Rd(k'.fd, a) == Rd(k.fd, a) && Rd(k'.bk, a) == Rd(k.bk, a)
    ensures TreesOK(k', sz, treemap, treebins, trees) && SmallsOK(k', sz, smallmap, small)
  {
    hide Bits, TreeBin, SmallBin, Same, InTrees, InSmalls;
    forall i: nat | i < NTREEBINS ensures TreeSlot(k', sz, treemap, treebins[i], trees[i], i) {
      assert TreeSlot(k, sz, treemap, treebins[i], trees[i], i);
      TreeInTrees(trees, i);
      TreeLinks(k, k', sz, trees[i], i);
    }
    forall i: nat | i < NSMALLBINS ensures SmallSlot(k', sz, smallmap, small[i], i) {
      assert SmallSlot(k, sz, smallmap, small[i], i);
      MembersInSmalls(small, i);
      SmallLinks(k, k', sz, small[i], i);
    }
  }

  lemma {:induction false} TreeLinks(k: Links, k': Links, sz: map<int, int>, t: Trie, i: nat)
    requires TreeBin(k, sz, t, i) && (forall a | a in Addrs(t) :: Same(k, k', a))
    ensures TreeBin(k', sz, t, i)
  {
    hide Same, Shape, Distinct;
    RepFrame(k, sz, k', sz, t, TreeBinAt(i), i);
  }

  lemma {:induction false} SmallLinks(k: Links, k': Links, sz: map<int, int>, list: seq<int>, i: nat)
    requires SmallBin(k, sz, list, i) && i < NSMALLBINS
    requires forall a | a <= 0 || a in Members(list) :: Rd(k'.fd, a) == Rd(k.fd, a) && Rd(k'.bk, a) == Rd(k.bk, a)
    ensures SmallBin(k', sz, list, i)
  {
    var r := [SmallBinAt(i)] + list;
    if list != [] {
      forall j | 0 <= j < |r| ensures Linked(k', r[j], Succ(r, j)) {
        assert Linked(k, r[j], Succ(r, j));
        assert j > 0 ==> r[j] in Members(list);
        assert j + 1 < |r| ==> r[j + 1] in Members(list);
      }
    }
  }

  // The tiling reads the foot words in front of chunks whose predecessor is free.
  lemma {:induction false} FeetFrame(h: Heads, foot: map<int, int>, e: Extent)
    requires Tiled(h, e) && (forall a | a in e.chunks && !Pin(h, a) :: Rd(foot, a) == Foot(h, a))
    ensures var h' := h.(foot := foot);
            Tiled(h', e) && Live(h', e) == Live(h, e) && Free(h', e) == Free(h, e)
  {
    hide Size, Cin, Pin, Foot, ChunkOK, Apart;
    var h' := h.(foot := foot);
    FeetReads(h, foot);
    forall p | p in e.chunks ensures ChunkOK(h', e, p) {
      FeetAt(h, foot, e, p);
    }
    forall p, q | p in e.chunks && q in e.chunks ensures Apart(h', e, p, q) {
      ApartFeet(h, foot, e, p, q);
    }
  }

  lemma FeetReads(h: Heads, foot: map<int, int>)
    ensures var h' := h.(foot := foot);
            forall x :: Size(h', x) == Size(h, x) && Cin(h', x) == Cin(h, x) && Pin(h', x) == Pin(h, x)
  {
  }

  lemma {:induction false} ApartFeet(h: Heads, foot: map<int, int>, e: Extent, p: int, q: int)
    requires Tiled(h, e) && p in e.chunks && q in e.chunks
    ensures Apart(h.(foot := foot), e, p, q)
  {
    hide Tiled;
    Pair(h, e, p, q);
  }

  lemma {:induction false} FeetAt(h: Heads, foot: map<int, int>, e: Extent, p: int)
    requires Tiled(h, e) && (forall a | a in e.chunks && !Pin(h, a) :: Rd(foot, a) == Foot(h, a)) && p in e.chunks
    ensures ChunkOK(h.(foot := foot), e, p)
  {
    hide Tiled, Apart;
    Pair(h, e, p, p);
  }

  lemma {:induction false} ChildPtrs(k: Links, sz: map<int, int>, n: Trie, p: int, bin: int)
    requires n.Node? && Rep(k, sz, n, p, bin)
    ensures Kid(k, Ptr(n), true) == Ptr(n.right) && Kid(k, Ptr(n), false) == Ptr(n.left)
    ensures Ptr(n.right) == 0 <==> n.right.Empty?
    ensures Ptr(n.left) == 0 <==> n.left.Empty?
    ensures n.right.Node? ==> var c := n.right;
              && Kid(k, Ptr(c), true) == Ptr(c.right) && Kid(k, Ptr(c), false) == Ptr(c.left)
              && (Ptr(c.right) == 0 <==> c.right.Empty?) && (Ptr(c.left) == 0 <==> c.left.Empty?)
    ensures n.left.Node? ==> var c := n.left;
              && Kid(k, Ptr(c), true) == Ptr(c.right) && Kid(k, Ptr(c), false) == Ptr(c.left)
              && (Ptr(c.right) == 0 <==> c.right.Empty?) && (Ptr(c.left) == 0 <==> c.left.Empty?)
  {
    PtrOf(k, sz, n, p, bin);
    KidPtrs(k, sz, n.left, Ptr(n), bin);
    KidPtrs(k, sz, n.right, Ptr(n), bin);
  }

  lemma {:induction false} KidPtrs(k: Links, sz: map<int, int>, c: Trie, p: int, bin: int)
    requires Rep(k, sz, c, p, bin)
    ensures Ptr(c) == 0 <==> c.Empty?
    ensures c.Node? ==>
              && Kid(k, Ptr(c), true) == Ptr(c.right) && Kid(k, Ptr(c), false) == Ptr(c.left)
              && (Ptr(c.right) == 0 <==> c.right.Empty?) && (Ptr(c.left) == 0 <==> c.left.Empty?)
  {
    PtrOf(k, sz, c, p, bin);
    if c.Node? {
      PtrOf(k, sz, c.left, Ptr(c), bin);
      PtrOf(k, sz, c.right, Ptr(c), bin);
    }
  }

  lemma {:induction false} BelowPtrs(k: Links, sz: map<int, int>, n: Trie, p: int, bin: int, b: bool, path: seq<bool>)
    requires n.Node? && Rep(k, sz, n, p, bin) && ValidPath(Child(n, b), path) && Sub(Child(n, b), path).Node?
    ensures var m := Sub(Child(n, b), path);
            && Kid(k, Ptr(m), true) == Ptr(m.right) && Kid(k, Ptr(m), false) == Ptr(m.left)
            && (Ptr(m.right) == 0 <==> m.right.Empty?) && (Ptr(m.left) == 0 <==> m.left.Empty?)
  {
    SubRep(k, sz, Child(n, b), Ptr(n), bin, path);
    KidPtrs(k, sz, Sub(Child(n, b), path), ParentAt(Child(n, b), Ptr(n), path), bin);
  }

  lemma NothingLeft(k: Links, sz: map<int, int>, n: Trie, x: int, bin: int)
    requires n.Node? && |n.ring| == 1 && n.left.Empty? && n.right.Empty?
    ensures Detached(k, sz, RemoveRoot(n), x, bin) && Ptr(RemoveRoot(n)) == 0 && Only(k, k, Addrs(n))
  {
  }

  lemma {:induction false} BelowRoot(t: Trie, path: seq<bool>)
    requires path != [] && ValidPath(t, path) && Sub(t, path).Node? && Distinct(t)
    requires |t.ring| > 0 && |Sub(t, path).ring| > 0
    ensures Ptr(Sub(t, path)) != Ptr(t)
  {
    var n := Sub(t, path);
    SubDistinct(Child(t, path[0]), path[1..]);
    assert n == Sub(Child(t, path[0]), path[1..]);
    assert Ptr(t) in t.ring && Ptr(n) in n.ring;
    assert Ptr(n) in Addrs(n);
  }

  // What the macro reads when it looks for the field that points to `x`.
  lemma {:induction false} RelinkFacts(k: Links, sz: map<int, int>, t: Trie, i: nat, path: seq<bool>, q: seq<bool>,
        b: bool, k1: Links)
    requires TreeBin(k, sz, t, i) && ValidPath(t, path) && Sub(t, path).Node?
    requires path != [] ==> path == q + [b] && ValidPath(t, q) && Sub(t, q).Node?
    requires Only(k, k1, Addrs(Sub(t, path))) && k1.index == k.index
    ensures Rd(k1.index, Ptr(Sub(t, path))) == i
    ensures Ptr(Sub(t, path)) == Ptr(t) <==> path == []
    ensures path != [] ==>
              && Sub(t, path) == Child(Sub(t, q), b)
              && ParentAt(t, TreeBinAt(i), path) == Ptr(Sub(t, q))
              && (Kid(k1, Ptr(Sub(t, q)), false) == Ptr(Sub(t, path)) <==> !b)
  {
    var x := Ptr(Sub(t, path));
    NodePtrs(k, sz, t, i, path);
    AddrSize(k, sz, t, TreeBinAt(i), i, x);
    SubRep(k, sz, t, TreeBinAt(i), i, path);
    if path == [] {
    } else {
      SubSnoc(t, TreeBinAt(i), q, b);
      SubDistinct(t, path);
      BelowRoot(t, path);
      NodePtrs(k, sz, t, i, q);
      SiblingFacts(k, sz, t, i, q, b);
      assert Same(k, k1, Ptr(Sub(t, q)));
    }
  }

  lemma {:induction false} SiblingFacts(k: Links, sz: map<int, int>, t: Trie, i: nat, q: seq<bool>, b: bool)
    requires TreeBin(k, sz, t, i) && ValidPath(t, q) && Sub(t, q).Node? && Child(Sub(t, q), b).Node?
    ensures var m := Sub(t, q); var n := Child(m, b);
            Ptr(n) != Ptr(Child(m, !b)) && Ptr(m) !in Addrs(n)
  {
    InnerFacts(k, sz, t, i, q, b);
    SubRep(k, sz, t, TreeBinAt(i), i, q);
    var o := Child(Sub(t, q), !b);
    PtrOf(k, sz, o, Ptr(Sub(t, q)), i);
    PtrOf(k, sz, Child(Sub(t, q), b), Ptr(Sub(t, q)), i);
    if o.Node? { assert Ptr(o) in o.ring && Ptr(o) in Addrs(o); }
  }

  lemma {:induction false} RelinkEnds(k: Links, sz: map<int, int>, t: Trie, i: nat, path: seq<bool>, q: seq<bool>,
        b: bool, k1: Links, k': Links, treemap: Word, treemap': Word, treebins: seq<int>, treebins': seq<int>)
    requires TreeBin(k, sz, t, i) && ValidPath(t, path) && Sub(t, path).Node? && |Sub(t, path).ring| > 0
    requires path != [] ==> path == q + [b] && ValidPath(t, q) && Sub(t, q).Node?
    requires i < |treebins| && treebins[i] == Ptr(t) && i in Bits(treemap)
    requires var n := Sub(t, path); var x := Ptr(n); var r := Ptr(RemoveRoot(n)); var xp := ParentAt(t, TreeBinAt(i),
        path);
             && Only(k, k1, Addrs(n)) && Detached(k1, sz, RemoveRoot(n), x, i)
             && k' == AdoptIf(if path == [] then k1 else SetKid(k1, xp, b, r), x, r, xp)
             && treebins' == (if path == [] then treebins[i := r] else treebins)
             && (if path == [] && r == 0 then Bits(treemap') == Bits(treemap) - {i} else treemap' == treemap)
    ensures Unlinked(k, k', sz, t, i, path, Ptr(Sub(t, path)), treemap, treemap', treebins, treebins')
  {
    hide Detached, Bits, AdoptIf, SetKid, Only, RemoveRoot, Distinct, Rep, Shape, Sizes, Addrs;
    var n := Sub(t, path);
    var x := Ptr(n);
    var u := Replace(t, path, RemoveNode(n, x));
    assert x in n.ring && RemoveNode(n, x) == RemoveRoot(n);
    if path == [] {
      PlaceRoot(k, sz, t, i, k1);
      PtrOf(k', sz, RemoveRoot(n), TreeBinAt(i), i);
    } else {
      SubSnoc(t, TreeBinAt(i), q, b);
      ReplaceSnoc(t, q, b, RemoveRoot(n));
      PlaceInner(k, sz, t, i, q, b, k1);
      ReplacedNode(t, path, RemoveRoot(n));
    }
  }

  lemma ReplacedNode(t: Trie, path: seq<bool>, u: Trie)
    requires ValidPath(t, path) && path != []
    ensures Replace(t, path, u).Node?
  {
  }

  // ----- facts used by the searches ---------------------------------------------------------------

  lemma PtrZero(k: Links, sz: map<int, int>, t: Trie, i: nat)
    requires TreeBin(k, sz, t, i)
    ensures Ptr(t) == 0 <==> t.Empty?
  {
    PtrOf(k, sz, t, TreeBinAt(i), i);
  }

  lemma NegIs(nb: Word)
    requires nb > 0
    ensures Neg(nb) == MODULUS - nb
  {
  }

  lemma NewIs(v: int, rsize: nat, nb: Word, c: Word, t: int)
    ensures NewV(v, rsize, nb, c, t) == if Minus(c, nb) < rsize then t else v
    ensures NewR(rsize, nb, c) == if Minus(c, nb) < rsize then Minus(c, nb) else rsize
  {
  }

  lemma {:induction false} DescendFacts(k: Links, sz: map<int, int>, whole: Trie, i: nat, nb: Word, v: int,
        rsize: nat, cur: Trie, t: int, rst: Trie, rt: int, lo: nat, w: nat, rlo: nat, rw: nat)
    requires TreeBin(k, sz, whole, i) && cur.Node?
    requires Descending(k, sz, whole, i, nb, v, rsize, cur, t, rst, rt, lo, w, rlo, rw)
    ensures t != 0 && 0 <= Rd(sz, t) < MODULUS && Rd(sz, t) == cur.size
    ensures Kid(k, t, false) == Ptr(cur.left) && Kid(k, t, true) == Ptr(cur.right)
    ensures (Ptr(cur.left) == 0 <==> cur.left.Empty?) && (Ptr(cur.right) == 0 <==> cur.right.Empty?)
    ensures cur.right.Node? ==> Ptr(cur.left) != Ptr(cur.right)
  {
    PartChild(k, sz, whole, i, cur, t, lo, w);
    BinSizes(k, sz, whole, i);
  }

  lemma BinFacts(k: Links, sz: map<int, int>, whole: Trie, i: nat, nb: nat, v: int, rsize: nat, cur: Trie, t: int,
        lo: nat, w: nat)
    requires BinSearched(k, sz, whole, i, nb, v, rsize, cur, t, lo, w)
    ensures t == 0 <==> cur.Empty?
    ensures v == 0 ==> rsize == MODULUS - nb
    ensures v != 0 ==> v in Tops(whole) && Rd(sz, v) == nb + rsize
    ensures t != 0 ==> t in Tops(whole)
  {
    PartChild(k, sz, whole, i, cur, t, lo, w);
  }

  // The bit tricks find the next non-empty tree bin after `idx`.
  lemma {:induction false} NextBins(k: Links, sz: map<int, int>, treemap: Word, treebins: seq<int>, trees: seq<Trie>,
        idx: nat)
    requires TreesOK(k, sz, treemap, treebins, trees) && idx < NTREEBINS
    ensures var leftbits := And(LeftBits(Bit(idx)), treemap);
            if leftbits == 0 then forall j | idx < j < NTREEBINS :: trees[j].Empty?
            else
              && LeastBit(leftbits) > 0
              && (var n := BitScan(LeastBit(leftbits));
                  && idx < n < NTREEBINS && trees[n].Node? && treebins[n] == Ptr(trees[n])
                  && (forall j | idx < j < n :: trees[j].Empty?))
  {
    hide LeftBits, And, LeastBit, BitScan, Bits, TreeBin;
    var leftbits := And(LeftBits(Bit(idx)), treemap);
    AndBits(LeftBits(Bit(idx)), treemap);
    EmptyWord(leftbits);
    forall j: nat | j < NTREEBINS ensures j in Bits(leftbits) <==> idx < j && trees[j].Node? {
      LeftBitsAbove(idx, j);
      assert TreeSlot(k, sz, treemap, treebins[j], trees[j], j);
    }
    if leftbits != 0 {
      ScanIsMinimum(leftbits);
      ScanLeastBit(leftbits);
      InWord(leftbits, BitScan(leftbits));
    }
  }

  lemma InWord(x: nat, i: nat)
    requires i in Bits(x)
    ensures i < WORD_BITS
  {
  }

  // The first non-empty tree bin.
  lemma {:induction false} FirstBin(k: Links, sz: map<int, int>, treemap: Word, treebins: seq<int>, trees: seq<Trie>)
    requires TreesOK(k, sz, treemap, treebins, trees) && treemap != 0
    ensures |treebins| == |trees| == NTREEBINS && LeastBit(treemap) > 0 && Trees(k, sz, trees)
    ensures var n := BitScan(LeastBit(treemap));
            && n < NTREEBINS && trees[n].Node? && treebins[n] == Ptr(trees[n]) && TreeBin(k, sz, trees[n], n)
            && (forall j | 0 <= j < n :: trees[j].Empty?)
  {
    hide LeastBit, BitScan, Bits, TreeBin;
    ScanIsMinimum(treemap);
    ScanLeastBit(treemap);
    InWord(treemap, BitScan(treemap));
    forall j: nat | j < NTREEBINS ensures TreeBin(k, sz, trees[j], j) && (j in Bits(treemap) <==> trees[j].Node?) {
      assert TreeSlot(k, sz, treemap, treebins[j], trees[j], j);
    }
  }

  lemma LargeMinus(k: Links, sz: map<int, int>, t: Trie, i: nat, nb: Word, p: int)
    requires TreeBin(k, sz, t, i) && t.Node? && p == Ptr(t) && 0 < nb < MIN_LARGE_SIZE
    ensures MIN_LARGE_SIZE <= Rd(sz, p) < MODULUS
    ensures NewV(0, MODULUS - nb, nb, Rd(sz, p), p) == p && NewR(MODULUS - nb, nb, Rd(sz, p)) == Rd(sz, p) - nb
  {
    hide Shape, Distinct, ComputeTreeIndex, NodeRep;
    PtrOf(k, sz, t, TreeBinAt(i), i);
    assert t.size in Sizes(t);
  }

  lemma ZeroWord()
    ensures Bits(0) == {}
  {
    EmptyWord(0);
  }

  lemma EmptyTree(k: Links, sz: map<int, int>, i: nat)
    requires i < NTREEBINS
    ensures TreeBin(k, sz, Empty, i)
  {
  }

  lemma TreeRootBinned(k: Links, sz: map<int, int>, trees: seq<Trie>, i: nat)
    requires i < |trees| && TreeBin(k, sz, trees[i], i)
    ensures trees[i].Node? ==> Ptr(trees[i]) in InTrees(trees)
  {
    PtrOf(k, sz, trees[i], TreeBinAt(i), i);
    if trees[i].Node? {
      assert trees[i].ring[0] in trees[i].ring;
      assert Ptr(trees[i]) in Addrs(trees[i]);
    }
  }

  lemma FirstBinned(small: seq<seq<int>>, i: nat)
    requires i < |small|
    ensures small[i] != [] ==> small[i][0] in InSmalls(small)
  {
    if small[i] != [] {
      InBin(small, i, small[i][0]);
    }
  }

  lemma {:induction false} MapsEmpty(k: Links, sz: map<int, int>, smallmap: Word, small: seq<seq<int>>, treemap: Word,
        treebins: seq<int>, trees: seq<Trie>)
    requires TreesOK(k, sz, treemap, treebins, trees) && SmallsOK(k, sz, smallmap, small)
    requires InSmalls(small) == {} && InTrees(trees) == {}
    ensures smallmap == 0 && treemap == 0
  {
    forall i: nat | i < WORD_BITS ensures i !in Bits(smallmap) && i !in Bits(treemap) {
      assert SmallSlot(k, sz, smallmap, small[i], i) && TreeSlot(k, sz, treemap, treebins[i], trees[i], i);
      TreeRootBinned(k, sz, trees, i);
      FirstBinned(small, i);
    }
    EmptyWord(smallmap);
    EmptyWord(treemap);
  }

  lemma {:induction false} SmallSizeBit(k: Links, sz: map<int, int>, smallmap: Word, small: seq<seq<int>>, p: int)
    requires SmallsOK(k, sz, smallmap, small) && p in InSmalls(small)
    ensures Rd(sz, p) % 8 == 0 && 0 <= Rd(sz, p) < MIN_LARGE_SIZE && Rd(sz, p) / 8 in Bits(smallmap)
  {
    hide SmallsOK, InSmalls, Bits;
    var j := FindSmall(k, sz, smallmap, small, p);
  }

  lemma {:induction false} SmallWithBit(k: Links, sz: map<int, int>, smallmap: Word, small: seq<seq<int>>, i: nat)
    returns (q: int)
    requires SmallsOK(k, sz, smallmap, small) && i in Bits(smallmap)
    ensures q in InSmalls(small) && Rd(sz, q) == 8 * i
  {
    hide SmallsOK, InSmalls;
    SmallOfSize(k, sz, smallmap, small, i);
    q := small[i][0];
    SmallMember(k, sz, small[i], i, q);
    InBin(small, i, q);
  }

  lemma BitAbove(x: Word, idx: nat, j: nat)
    requires idx <= j && j in Bits(x)
    ensures Shr(x, idx) != 0
  {
    ShrBit(x, idx, j - idx);
    ZeroBits(j - idx);
  }

  lemma LowestAbove(x: Word, idx: nat) returns (j: nat)
    requires Shr(x, idx) != 0
    ensures idx <= j && j in Bits(x)
  {
    j := BitScan(Shr(x, idx)) + idx;
    ShrBit(x, idx, j - idx);
    PowBound(0, WORD_BITS);
    BitInWord(x, WORD_BITS, j);
  }

  lemma {:induction false} OneSmallBin(k: Links, sz: map<int, int>, smallmap: Word, small: seq<seq<int>>, p: int)
    requires SmallsOK(k, sz, smallmap, small) && p in InSmalls(small)
    ensures var i := Rd(sz, p) / 8;
            && 0 <= i < |small| && i in Bits(smallmap) && p in small[i]
            && (forall j | 0 <= j < NSMALLBINS && p in small[j] :: j == i)
  {
    hide Bits;
    var m := FindSmall(k, sz, smallmap, small, p);
    forall j | 0 <= j < NSMALLBINS && p in small[j] ensures j == Rd(sz, p) / 8 {
      SmallOfSize(k, sz, smallmap, small, j);
      SmallMember(k, sz, small[j], j, p);
    }
  }

  lemma {:induction false} OneTreeBin(k: Links, sz: map<int, int>, treemap: Word, treebins: seq<int>,
        trees: seq<Trie>, p: int)
    requires TreesOK(k, sz, treemap, treebins, trees) && p in InTrees(trees)
    ensures 0 <= Rd(sz, p) < MODULUS
    ensures var i := ComputeTreeIndex(Rd(sz, p));
            && i < |trees| && i in Bits(treemap) && p in Addrs(trees[i])
            && (forall j | 0 <= j < NTREEBINS && p in Addrs(trees[j]) :: j == i)
  {
    hide Bits, ComputeTreeIndex, TreeBin;
    var i := FindBin(k, sz, treemap, treebins, trees, p);
    forall j: nat | 0 <= j < NTREEBINS && p in Addrs(trees[j]) ensures j == i {
      TreeMember(k, sz, trees[j], j, p);
    }
  }
}

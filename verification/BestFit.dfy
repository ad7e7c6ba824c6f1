// Why the two loops of `tmalloc_large` find a best fit: what is still to be
// searched always holds a chunk at least as good as any not yet considered.
module BestFit {
  import opened Words
  import opened TreeIndex
  import opened Tries
  import opened Links
  import opened Bins

  // All chunk sizes in the tree bins.
  ghost function AllSizes(trees: seq<Trie>): set<nat> {
    set i, s | 0 <= i < |trees| && s in Sizes(trees[i]) :: s
  }

  // All tree members of the tree bins.
  ghost function AllTops(trees: seq<Trie>): set<int> {
    set i, a | 0 <= i < |trees| && a in Tops(trees[i]) :: a
  }

  // The best fit so far (no chunk yet when `v` is null) beats size `s`.
  ghost predicate Beats(v: int, nb: nat, rsize: nat, s: nat) {
    v != 0 && nb + rsize <= s
  }

  // Some size of `rest` fits and is at most `s`.
  ghost predicate Below(rest: set<nat>, nb: nat, s: nat) {
    exists s' | s' in rest :: nb <= s' <= s
  }

  // The best fit so far and the sizes still to be searched cover all fitting sizes.
  ghost predicate Covered(sizes: set<nat>, nb: nat, v: int, rsize: nat, rest: set<nat>) {
    forall s | s in sizes && nb <= s :: Beats(v, nb, rsize, s) || Below(rest, nb, s)
  }

  // The candidate is consistent: unsigned negation stands for "none yet".
  ghost predicate Candidate(sizes: set<nat>, nb: nat, v: int, rsize: nat) {
    if v == 0 then rsize == MODULUS - nb else nb + rsize in sizes
  }

  // `trem < rsize` on wrapping differences means: it fits, and better than the best so far.
  lemma WrapCompare(c: Word, nb: Word, v: int, rsize: nat)
    requires 0 < nb && (v == 0 ==> rsize == MODULUS - nb) && (v != 0 ==> nb + rsize < MODULUS)
    ensures Minus(c, nb) < rsize <==> nb <= c && (v == 0 || c < nb + rsize)
    ensures nb <= c ==> Minus(c, nb) == c - nb
  {
  }

  // `rsize < dvsize - nb` on wrapping differences means: better than `dv`, or `dv` too small.
  lemma WrapDv(nb: Word, rsize: nat, dvsize: Word)
    requires 0 < nb && nb + rsize < MODULUS
    ensures rsize < Minus(dvsize, nb) <==> dvsize < nb || nb + rsize < dvsize
  {
  }

  // ----- the leftmost path -----------------------------------------------------------------

  // The candidate after looking at a chunk of size `c`.
  function NewV(v: int, rsize: nat, nb: Word, c: Word, t: int): int {
    if Minus(c, nb) < rsize then t else v
  }

  function NewR(rsize: nat, nb: Word, c: Word): nat {
    if Minus(c, nb) < rsize then Minus(c, nb) else rsize
  }

  // The candidate only improves, and it is at least as good as the chunk just seen.
  lemma {:induction false} Improves(v: int, rsize: nat, nb: Word, c: Word, t: int, s: nat)
    requires 0 < nb && t != 0 && (v == 0 ==> rsize == MODULUS - nb) && (v != 0 ==> nb + rsize < MODULUS)
    ensures var v', r' := NewV(v, rsize, nb, c, t), NewR(rsize, nb, c);
            && (Beats(v, nb, rsize, s) ==> Beats(v', nb, r', s))
            && (nb <= c <= s ==> Beats(v', nb, r', s))
            && (v' == 0 ==> r' == MODULUS - nb) && (v' != 0 ==> nb + r' < MODULUS)
            && ((v' == v && r' == rsize) || (v' == t && nb + r' == c))
            && (v != 0 && rsize == 0 ==> v' == v && r' == 0)
  {
    WrapCompare(c, nb, v, rsize);
  }

  // One step down the leftmost path of a subtree.
  lemma {:induction false} LeftmostStep(sizes: set<nat>, nb: Word, v: int, rsize: nat, cur: Trie, lo: nat, w: nat,
        t: int)
    requires 0 < nb && t != 0 && cur.Node? && Shape(cur, lo, w)
    requires Candidate(sizes, nb, v, rsize) && (forall s | s in sizes :: s < MODULUS)
    requires Covered(sizes, nb, v, rsize, Sizes(cur))
    requires cur.size in sizes
    requires (v != 0 && rsize == 0) || (forall s | s in Sizes(cur) :: nb <= s)
    ensures cur.size < MODULUS
    ensures var v', r' := NewV(v, rsize, nb, cur.size, t), NewR(rsize, nb, cur.size);
            var next := if cur.left.Node? then cur.left else cur.right;
            && Candidate(sizes, nb, v', r') && Covered(sizes, nb, v', r', Sizes(next))
            && ((v' != 0 && r' == 0) || (forall s | s in Sizes(next) :: nb <= s))
            && ((v' == v && r' == rsize) || (v' == t && nb + r' == cur.size))
  {
    hide NewV, NewR, Beats;
    assert cur.size < MODULUS;
    Improves(v, rsize, nb, cur.size, t, 0);
    var v', r' := NewV(v, rsize, nb, cur.size, t), NewR(rsize, nb, cur.size);
    var next := if cur.left.Node? then cur.left else cur.right;
    NodeInSizes(cur.left);
    assert Sizes(next) <= Sizes(cur);
    forall s | s in sizes && nb <= s
      ensures Beats(v', nb, r', s) || Below(Sizes(next), nb, s)
    {
      Improves(v, rsize, nb, cur.size, t, s);
      assert Beats(v, nb, rsize, s) || Below(Sizes(cur), nb, s);
      if v != 0 && rsize == 0 {
        AllBeaten(v, nb, s);
      } else if Below(Sizes(cur), nb, s) {
        var s' :| s' in Sizes(cur) && nb <= s' <= s;
        if s' in Sizes(next) {
        } else if s' == cur.size {
        } else {
          LeftBelowRight(cur, lo, w, cur.left.size, s');
          assert cur.left.size in Sizes(next);
        }
      }
    }
  }

  lemma AllBeaten(v: int, nb: nat, s: nat)
    requires v != 0 && nb <= s
    ensures Beats(v, nb, 0, s)
  {
  }

  lemma NodeInSizes(t: Trie)
    ensures t.Node? ==> t.size in Sizes(t)
  {
  }

  // ----- the walk in the bin of nb -------------------------------------------------------------

  // Sizes of the bin not beaten by the candidate are below the current node or
  // dominated by the deepest untaken right subtree.
  ghost predicate Walked(sizes: set<nat>, nb: nat, v: int, rsize: nat, cur: Trie, rst: Trie) {
    forall s | s in sizes && nb <= s ::
      Beats(v, nb, rsize, s) || s in Sizes(cur) || Below(Sizes(rst), nb, s)
  }

  ghost predicate Above(rst: Trie, bound: nat) {
    forall s | s in Sizes(rst) :: bound <= s
  }

  // One step of the first loop: at node `cur`, whose range holds `nb`.
  lemma {:induction false} WalkDown(sizes: set<nat>, nb: Word, v: int, rsize: nat, cur: Trie, rst: Trie, lo: nat,
        w: nat, t: int)
    requires 0 < nb && t != 0 && cur.Node? && Shape(cur, lo, w) && Aligned(lo, w) && lo <= nb < lo + Pow2(w)
    requires Candidate(sizes, nb, v, rsize) && cur.size in sizes && (forall s | s in sizes :: s < MODULUS)
    requires Walked(sizes, nb, v, rsize, cur, rst) && Above(rst, lo + Pow2(w))
    requires cur.size != nb
    ensures w > 0
    ensures var v', r' := NewV(v, rsize, nb, cur.size, t), NewR(rsize, nb, cur.size);
            var b := HasBit(nb, w - 1);
            var lo' := if b then lo + Pow2(w - 1) else lo;
            var rst' := if !b && cur.right.Node? then cur.right else rst;
            && Candidate(sizes, nb, v', r') && Walked(sizes, nb, v', r', Child(cur, b), rst')
            && Above(rst', lo' + Pow2(w - 1)) && Shape(Child(cur, b), lo', w - 1)
            && Aligned(lo', w - 1) && lo' <= nb < lo' + Pow2(w - 1)
  {
    hide Shape, Pow2, HasBit, Aligned, Walked, Beats;
    WrapCompare(cur.size, nb, v, rsize);
    ShapeTop(cur, lo, w);
    if w > 0 {
      DigitSplits(nb, lo, w);
      HalvesAligned(lo, w);
      var b := HasBit(nb, w - 1);
      RightAbove(cur, lo, w);
      if b {
        WalkRight(sizes, nb, v, rsize, cur, rst, lo, w, t);
      } else {
        WalkLeft(sizes, nb, v, rsize, cur, rst, lo, w, t);
      }
    }
  }

  lemma {:induction false} RightAbove(t: Trie, lo: nat, w: nat)
    requires t.Node? && Shape(t, lo, w) && w > 0
    ensures forall s | s in Sizes(t.right) :: lo + Pow2(w - 1) <= s < lo + Pow2(w)
    ensures forall s | s in Sizes(t.left) :: lo <= s < lo + Pow2(w - 1)
  {
    forall s | s in Sizes(t.right) ensures lo + Pow2(w - 1) <= s < lo + Pow2(w) {
      SizesInRange(t.right, lo + Pow2(w - 1), w - 1, s);
    }
    forall s | s in Sizes(t.left) ensures lo <= s < lo + Pow2(w - 1) {
      SizesInRange(t.left, lo, w - 1, s);
    }
  }

  lemma {:induction false} WalkRight(sizes: set<nat>, nb: Word, v: int, rsize: nat, cur: Trie, rst: Trie, lo: nat,
        w: nat, t: int)
    requires 0 < nb && t != 0 && cur.Node? && w > 0 && cur.size < MODULUS
    requires nb >= lo + Pow2(w - 1) && (forall s | s in Sizes(cur.left) :: lo <= s < lo + Pow2(w - 1))
    requires Candidate(sizes, nb, v, rsize) && (v != 0 ==> nb + rsize < MODULUS)
    requires Walked(sizes, nb, v, rsize, cur, rst)
    ensures var v', r' := NewV(v, rsize, nb, cur.size, t), NewR(rsize, nb, cur.size);
            Walked(sizes, nb, v', r', cur.right, rst)
  {
    hide NewV, NewR, Beats;
    var v', r' := NewV(v, rsize, nb, cur.size, t), NewR(rsize, nb, cur.size);
    forall s | s in sizes && nb <= s
      ensures Beats(v', nb, r', s) || s in Sizes(cur.right) || Below(Sizes(rst), nb, s)
    {
      Improves(v, rsize, nb, cur.size, t, s);
      assert Beats(v, nb, rsize, s) || s in Sizes(cur) || Below(Sizes(rst), nb, s);
      assert s in Sizes(cur) ==> s == cur.size || s in Sizes(cur.left) || s in Sizes(cur.right);
    }
  }

  lemma {:induction false} WalkLeft(sizes: set<nat>, nb: Word, v: int, rsize: nat, cur: Trie, rst: Trie, lo: nat,
        w: nat, t: int)
    requires 0 < nb && t != 0 && cur.Node? && w > 0 && cur.size < MODULUS
    requires nb < lo + Pow2(w - 1) && Above(rst, lo + Pow2(w))
    requires forall s | s in Sizes(cur.right) :: lo + Pow2(w - 1) <= s < lo + Pow2(w)
    requires Candidate(sizes, nb, v, rsize) && (v != 0 ==> nb + rsize < MODULUS)
    requires Walked(sizes, nb, v, rsize, cur, rst)
    ensures var v', r' := NewV(v, rsize, nb, cur.size, t), NewR(rsize, nb, cur.size);
            Walked(sizes, nb, v', r', cur.left, if cur.right.Node? then cur.right else rst)
  {
    hide NewV, NewR, Beats;
    var v', r' := NewV(v, rsize, nb, cur.size, t), NewR(rsize, nb, cur.size);
    var rst' := if cur.right.Node? then cur.right else rst;
    NodeInSizes(cur.right);
    forall s | s in sizes && nb <= s
      ensures Beats(v', nb, r', s) || s in Sizes(cur.left) || Below(Sizes(rst'), nb, s)
    {
      Improves(v, rsize, nb, cur.size, t, s);
      assert Beats(v, nb, rsize, s) || s in Sizes(cur) || Below(Sizes(rst), nb, s);
      assert s in Sizes(cur) ==> s == cur.size || s in Sizes(cur.left) || s in Sizes(cur.right);
      if s in Sizes(cur.right) {
        assert Below(Sizes(rst'), nb, s);
      } else if Below(Sizes(rst), nb, s) && cur.right.Node? {
        var s' :| s' in Sizes(rst) && nb <= s' <= s;
        assert cur.right.size in Sizes(rst') && nb <= cur.right.size <= s;
      }
    }
  }

  // ----- from one bin to all bins ----------------------------------------------------------------

  ghost predicate Stored(k: Links, sz: map<int, int>, t: Trie, i: nat) {
    exists p :: Rep(k, sz, t, p, i)
  }

  // What the search knows about the subtree at pointer `t`.
  ghost predicate Part(k: Links, sz: map<int, int>, whole: Trie, i: nat, cur: Trie, t: int, lo: nat, w: nat) {
    && t == Ptr(cur) && Shape(cur, lo, w) && Distinct(cur) && Stored(k, sz, cur, i)
    && Sizes(cur) <= Sizes(whole) && Tops(cur) <= Tops(whole)
  }

  lemma {:induction false} WholePart(k: Links, sz: map<int, int>, t: Trie, i: nat)
    requires TreeBin(k, sz, t, i)
    ensures Part(k, sz, t, i, t, Ptr(t), Base(i), Width(i)) && Part(k, sz, t, i, Empty, 0, 0, 0)
  {
    assert Rep(k, sz, Empty, 0, i);
  }

  lemma {:induction false} StoredNode(k: Links, sz: map<int, int>, cur: Trie, i: nat)
    requires Stored(k, sz, cur, i)
    ensures Ptr(cur) == 0 <==> cur.Empty?
    ensures cur.Node? ==>
              && Ptr(cur) in Tops(cur) && Rd(sz, Ptr(cur)) == cur.size && cur.size in Sizes(cur)
              && Kid(k, Ptr(cur), false) == Ptr(cur.left) && Kid(k, Ptr(cur), true) == Ptr(cur.right)
              && Stored(k, sz, cur.left, i) && Stored(k, sz, cur.right, i)
  {
    var p :| Rep(k, sz, cur, p, i);
    PtrOf(k, sz, cur, p, i);
    if cur.Node? {
      assert Ptr(cur) in cur.ring;
      assert Rep(k, sz, cur.left, Ptr(cur), i) && Rep(k, sz, cur.right, Ptr(cur), i);
    }
  }

  lemma {:induction false} SiblingPtrs(k: Links, sz: map<int, int>, cur: Trie, i: nat)
    requires cur.Node? && Distinct(cur) && Stored(k, sz, cur.left, i) && Stored(k, sz, cur.right, i)
    ensures cur.right.Node? ==> Ptr(cur.left) != Ptr(cur.right)
  {
    StoredNode(k, sz, cur.left, i);
    StoredNode(k, sz, cur.right, i);
  }

  lemma {:induction false} PartChild(k: Links, sz: map<int, int>, whole: Trie, i: nat, cur: Trie, t: int, lo: nat,
        w: nat)
    requires Part(k, sz, whole, i, cur, t, lo, w)
    ensures t == 0 <==> cur.Empty?
    ensures cur.Node? ==>
              && t in Tops(whole) && Rd(sz, t) == cur.size && cur.size in Sizes(whole) && Shape(cur, lo, w)
              && Kid(k, t, false) == Ptr(cur.left) && Kid(k, t, true) == Ptr(cur.right)
              && (Ptr(cur.left) == 0 <==> cur.left.Empty?) && (Ptr(cur.right) == 0 <==> cur.right.Empty?)
              && (cur.right.Node? ==> Ptr(cur.left) != Ptr(cur.right))
    ensures cur.Node? && w > 0 ==>
              && Part(k, sz, whole, i, cur.left, Ptr(cur.left), lo, w - 1)
              && Part(k, sz, whole, i, cur.right, Ptr(cur.right), lo + Pow2(w - 1), w - 1)
    ensures cur.Node? && w == 0 ==> cur.left.Empty? && cur.right.Empty?
  {
    hide Stored, Shape, Pow2;
    StoredNode(k, sz, cur, i);
    if cur.Node? {
      ShapeTop(cur, lo, w);
      StoredNode(k, sz, cur.left, i);
      StoredNode(k, sz, cur.right, i);
      SiblingPtrs(k, sz, cur, i);
    }
  }

  // Sizes of the other bins are below `nb` or above everything in the bin of `nb`.
  lemma {:induction false} OtherBin(k: Links, sz: map<int, int>, t: Trie, i: nat, u: Trie, j: nat, nb: Word, s: nat,
        c: nat)
    requires TreeBin(k, sz, t, i) && TreeBin(k, sz, u, j) && i != j && i == ComputeTreeIndex(nb) && nb >= MIN_LARGE_SIZE
    requires s in Sizes(u) && nb <= s && c in Sizes(t)
    ensures c < s && i < j
  {
    IndexMonotone(nb, s);
    if s <= c { IndexMonotone(s, c); }
  }

  lemma {:induction false} EarlierBin(k: Links, sz: map<int, int>, u: Trie, j: nat, nb: Word, s: nat)
    requires TreeBin(k, sz, u, j) && nb >= MIN_LARGE_SIZE && s in Sizes(u) && nb <= s
    ensures ComputeTreeIndex(nb) <= j
  {
    IndexMonotone(nb, s);
  }

  ghost predicate Trees(k: Links, sz: map<int, int>, trees: seq<Trie>) {
    |trees| == NTREEBINS && forall j | 0 <= j < NTREEBINS :: TreeBin(k, sz, trees[j], j)
  }

  lemma {:induction false} Globalize(k: Links, sz: map<int, int>, trees: seq<Trie>, nb: Word, v: int, rsize: nat,
        cur: Trie)
    requires Trees(k, sz, trees) && nb >= MIN_LARGE_SIZE && ComputeTreeIndex(nb) < NTREEBINS
    requires var t := trees[ComputeTreeIndex(nb)];
             && Covered(Sizes(t), nb, v, rsize, Sizes(cur)) && Candidate(Sizes(t), nb, v, rsize)
             && Sizes(cur) <= Sizes(t)
             && ((v != 0 && rsize == 0) || (forall s | s in Sizes(cur) :: nb <= s))
    requires v != 0 || cur.Node?
    ensures Covered(AllSizes(trees), nb, v, rsize, Sizes(cur)) && Candidate(AllSizes(trees), nb, v, rsize)
  {
    hide TreeBin, Shape, Rep, Distinct, ComputeTreeIndex, Beats, Below, Candidate;
    var i := ComputeTreeIndex(nb);
    forall s | s in AllSizes(trees) && nb <= s
      ensures Beats(v, nb, rsize, s) || Below(Sizes(cur), nb, s)
    {
      var j :| 0 <= j < |trees| && s in Sizes(trees[j]);
      if j != i {
        OtherCovered(k, sz, trees[i], i, trees[j], j, nb, s, v, rsize, cur);
      }
    }
    CandidateMore(Sizes(trees[i]), AllSizes(trees), nb, v, rsize);
  }

  lemma CandidateMore(s: set<nat>, s': set<nat>, nb: nat, v: int, rsize: nat)
    requires Candidate(s, nb, v, rsize) && s <= s'
    ensures Candidate(s', nb, v, rsize)
  {
  }

  lemma {:induction false} OtherCovered(k: Links, sz: map<int, int>, t: Trie, i: nat, u: Trie, j: nat, nb: Word,
        s: nat, v: int, rsize: nat, cur: Trie)
    requires TreeBin(k, sz, t, i) && TreeBin(k, sz, u, j) && i != j && i == ComputeTreeIndex(nb) && nb >= MIN_LARGE_SIZE
    requires s in Sizes(u) && nb <= s
    requires Candidate(Sizes(t), nb, v, rsize) && Sizes(cur) <= Sizes(t)
    requires (v != 0 && rsize == 0) || (forall c | c in Sizes(cur) :: nb <= c)
    requires v != 0 || cur.Node?
    ensures Beats(v, nb, rsize, s) || Below(Sizes(cur), nb, s)
  {
    hide TreeBin, ComputeTreeIndex, Pow2;
    if v != 0 {
      OtherBin(k, sz, t, i, u, j, nb, s, nb + rsize);
    } else {
      NodeInSizes(cur);
      OtherBin(k, sz, t, i, u, j, nb, s, cur.size);
    }
  }

  lemma {:induction false} NoneFits(sizes: set<nat>, nb: nat, rsize: nat)
    requires Covered(sizes, nb, 0, rsize, {})
    ensures forall s | s in sizes :: s < nb
  {
    forall s | s in sizes ensures s < nb {
      assert nb <= s ==> Beats(0, nb, rsize, s) || Below({}, nb, s);
    }
  }

  // Nothing in the bin of `nb` fits: the next non-empty bin holds the least fitting sizes.
  lemma {:induction false} NextBin(k: Links, sz: map<int, int>, trees: seq<Trie>, nb: Word, rsize: nat, next: nat)
    requires Trees(k, sz, trees) && nb >= MIN_LARGE_SIZE && ComputeTreeIndex(nb) < NTREEBINS
    requires Covered(Sizes(trees[ComputeTreeIndex(nb)]), nb, 0, rsize, {})
    requires ComputeTreeIndex(nb) < next <= NTREEBINS
    requires forall j | ComputeTreeIndex(nb) < j < next :: trees[j].Empty?
    requires next < NTREEBINS ==> trees[next].Node?
    ensures Covered(AllSizes(trees), nb, 0, rsize, if next < NTREEBINS then Sizes(trees[next]) else {})
    ensures next < NTREEBINS ==> forall s | s in Sizes(trees[next]) :: nb <= s
  {
    var i := ComputeTreeIndex(nb);
    var rest := if next < NTREEBINS then Sizes(trees[next]) else {};
    if next < NTREEBINS {
      forall s | s in Sizes(trees[next]) ensures nb <= s {
        if s < nb { IndexMonotone(s, nb); }
      }
    }
    forall s | s in AllSizes(trees) && nb <= s ensures Below(rest, nb, s) {
      var j :| 0 <= j < |trees| && s in Sizes(trees[j]);
      EarlierBin(k, sz, trees[j], j, nb, s);
      NoneFits(Sizes(trees[i]), nb, rsize);
      if j > next {
        NodeInSizes(trees[next]);
        var c := trees[next].size;
        if s < c { IndexMonotone(s, c); }
        assert c in rest;
      }
    }
  }

  // The search is over: the candidate is a best fit among all binned large chunks.
  lemma {:induction false} SearchDone(k: Links, sz: map<int, int>, trees: seq<Trie>, nb: nat, v: int, rsize: nat)
    requires Trees(k, sz, trees) && Covered(AllSizes(trees), nb, v, rsize, {})
    ensures v == 0 ==> forall a | a in InTrees(trees) :: Rd(sz, a) < nb
    ensures v != 0 ==> forall a | a in InTrees(trees) && nb <= Rd(sz, a) :: nb + rsize <= Rd(sz, a)
  {
    forall a | a in InTrees(trees) && nb <= Rd(sz, a) ensures Beats(v, nb, rsize, Rd(sz, a)) {
      var j :| 0 <= j < |trees| && a in Addrs(trees[j]);
      AddrSize(k, sz, trees[j], TreeBinAt(j), j, a);
      assert Rd(sz, a) in AllSizes(trees);
      assert Beats(v, nb, rsize, Rd(sz, a)) || Below({}, nb, Rd(sz, a));
    }
  }

  lemma {:induction false} TreesOf(k: Links, sz: map<int, int>, treemap: Word, treebins: seq<int>, trees: seq<Trie>,
        i: nat)
    requires TreesOK(k, sz, treemap, treebins, trees) && i < NTREEBINS
    ensures |treebins| == NTREEBINS && Trees(k, sz, trees) && TreeBin(k, sz, trees[i], i)
    ensures treebins[i] == Ptr(trees[i]) && (i in Bits(treemap) <==> trees[i].Node?)
  {
    forall j | 0 <= j < NTREEBINS ensures TreeBin(k, sz, trees[j], j) {
      assert TreeSlot(k, sz, treemap, treebins[j], trees[j], j);
    }
    assert TreeSlot(k, sz, treemap, treebins[i], trees[i], i);
  }

  // State of the first loop of `tmalloc_large`.
  ghost predicate Descending(k: Links, sz: map<int, int>, whole: Trie, i: nat, nb: nat, v: int, rsize: nat, cur: Trie,
        t: int, rst: Trie, rt: int, lo: nat, w: nat, rlo: nat, rw: nat) {
    && Part(k, sz, whole, i, cur, t, lo, w) && Part(k, sz, whole, i, rst, rt, rlo, rw)
    && Aligned(lo, w) && lo <= nb < lo + Pow2(w)
    && Candidate(Sizes(whole), nb, v, rsize) && Walked(Sizes(whole), nb, v, rsize, cur, rst)
    && Above(rst, lo + Pow2(w))
    && (v != 0 ==> v in Tops(whole) && Rd(sz, v) == nb + rsize)
  }

  lemma {:induction false} DescendStart(k: Links, sz: map<int, int>, whole: Trie, nb: Word)
    requires nb >= MIN_LARGE_SIZE && TreeBin(k, sz, whole, ComputeTreeIndex(nb))
    ensures var i := ComputeTreeIndex(nb);
            Descending(k, sz, whole, i, nb, 0, MODULUS - nb, whole, Ptr(whole), Empty, 0, Base(i), Width(i), 0, 0)
  {
    BinRange(nb);
    WholePart(k, sz, whole, ComputeTreeIndex(nb));
  }

  lemma {:induction false} DescendStep(k: Links, sz: map<int, int>, whole: Trie, i: nat, nb: Word, v: int, rsize: nat,
        cur: Trie, t: int, rst: Trie, rt: int, lo: nat, w: nat, rlo: nat, rw: nat)
    requires i < NTREEBINS && TreeBin(k, sz, whole, i) && nb > 0 && cur.Node? && cur.size != nb
    requires Descending(k, sz, whole, i, nb, v, rsize, cur, t, rst, rt, lo, w, rlo, rw)
    ensures w > 0
    ensures var v', r' := NewV(v, rsize, nb, Rd(sz, t), t), NewR(rsize, nb, Rd(sz, t));
            var b := HasBit(nb, w - 1);
            var lo' := if b then lo + Pow2(w - 1) else lo;
            if !b && cur.right.Node? then
              Descending(k, sz, whole, i, nb, v', r', cur.left, Ptr(cur.left), cur.right, Ptr(cur.right),
                         lo', w - 1, lo + Pow2(w - 1), w - 1)
            else
              Descending(k, sz, whole, i, nb, v', r', Child(cur, b), Ptr(Child(cur, b)), rst, rt, lo', w - 1, rlo, rw)
  {
    hide TreeBin, NewV, NewR, Walked, Above, Part, Aligned, Pow2, HasBit, Shape;
    PartChild(k, sz, whole, i, cur, t, lo, w);
    BinSizes(k, sz, whole, i);
    WalkDown(Sizes(whole), nb, v, rsize, cur, rst, lo, w, t);
    Improves(v, rsize, nb, cur.size, t, 0);
  }

  lemma BinSizes(k: Links, sz: map<int, int>, t: Trie, i: nat)
    requires TreeBin(k, sz, t, i)
    ensures forall s | s in Sizes(t) :: s < MODULUS
  {
  }

  // Result of the first loop: what is left to search is a subtree of larger sizes,
  // unless an exact fit was found.
  ghost predicate BinSearched(k: Links, sz: map<int, int>, whole: Trie, i: nat, nb: nat, v: int, rsize: nat,
        cur: Trie, t: int, lo: nat, w: nat) {
    && Part(k, sz, whole, i, cur, t, lo, w)
    && Candidate(Sizes(whole), nb, v, rsize) && Covered(Sizes(whole), nb, v, rsize, Sizes(cur))
    && ((v != 0 && rsize == 0) || (forall s | s in Sizes(cur) :: nb <= s))
    && (v != 0 ==> v in Tops(whole) && Rd(sz, v) == nb + rsize)
  }

  lemma {:induction false} DescendExact(k: Links, sz: map<int, int>, whole: Trie, i: nat, nb: Word, v: int,
        rsize: nat, cur: Trie, t: int, rst: Trie, rt: int, lo: nat, w: nat, rlo: nat, rw: nat)
    requires TreeBin(k, sz, whole, i) && nb > 0 && cur.Node? && cur.size == nb
    requires Descending(k, sz, whole, i, nb, v, rsize, cur, t, rst, rt, lo, w, rlo, rw)
    ensures Minus(Rd(sz, t), nb) == 0 && t != 0
    ensures BinSearched(k, sz, whole, i, nb, t, 0, cur, t, lo, w)
  {
    PartChild(k, sz, whole, i, cur, t, lo, w);
  }

  lemma {:induction false} DescendEnd(k: Links, sz: map<int, int>, whole: Trie, i: nat, nb: Word, v: int, rsize: nat,
        cur: Trie, t: int, rst: Trie, rt: int, lo: nat, w: nat, rlo: nat, rw: nat)
    requires cur.Empty? && Descending(k, sz, whole, i, nb, v, rsize, cur, t, rst, rt, lo, w, rlo, rw)
    ensures BinSearched(k, sz, whole, i, nb, v, rsize, rst, rt, rlo, rw)
  {
    forall s | s in Sizes(whole) && nb <= s ensures Beats(v, nb, rsize, s) || Below(Sizes(rst), nb, s) {
      assert Beats(v, nb, rsize, s) || s in Sizes(cur) || Below(Sizes(rst), nb, s);
    }
  }

  lemma {:induction false} ChosenNotExact(c: Word, nb: Word, v: int, rsize: nat)
    requires 0 < nb && rsize > 0
    ensures c == nb ==> Minus(c, nb) == 0 && Minus(c, nb) < rsize
    ensures c != nb ==> Minus(c, nb) != 0
  {
  }

  // State of the second loop: the leftmost path of a subtree of fitting sizes.
  ghost predicate Scanning(k: Links, sz: map<int, int>, whole: Trie, i: nat, sizes: set<nat>, tops: set<int>,
        nb: nat, v: int, rsize: nat, cur: Trie, t: int, lo: nat, w: nat) {
    && Part(k, sz, whole, i, cur, t, lo, w) && Sizes(whole) <= sizes && Tops(whole) <= tops
    && (forall s | s in sizes :: s < MODULUS)
    && Candidate(sizes, nb, v, rsize) && Covered(sizes, nb, v, rsize, Sizes(cur))
    && ((v != 0 && rsize == 0) || (forall s | s in Sizes(cur) :: nb <= s))
    && (v != 0 ==> v in tops && Rd(sz, v) == nb + rsize)
  }

  lemma {:induction false} ScanFacts(k: Links, sz: map<int, int>, whole: Trie, i: nat, sizes: set<nat>,
        tops: set<int>, nb: nat, v: int, rsize: nat, cur: Trie, t: int, lo: nat, w: nat)
    requires Scanning(k, sz, whole, i, sizes, tops, nb, v, rsize, cur, t, lo, w)
    ensures t == 0 <==> cur.Empty?
    ensures cur.Empty? ==> Covered(sizes, nb, v, rsize, {})
    ensures v != 0 ==> v in tops && Rd(sz, v) == nb + rsize && nb + rsize < MODULUS
    ensures cur.Node? ==>
              && 0 <= Rd(sz, t) < MODULUS && Rd(sz, t) == cur.size
              && Kid(k, t, false) == Ptr(cur.left) && Kid(k, t, true) == Ptr(cur.right)
              && (Ptr(cur.left) == 0 <==> cur.left.Empty?) && (Ptr(cur.right) == 0 <==> cur.right.Empty?)
  {
    PartChild(k, sz, whole, i, cur, t, lo, w);
    assert cur.Empty? ==> Sizes(cur) == {};
  }

  lemma {:induction false} ScanStep(k: Links, sz: map<int, int>, whole: Trie, i: nat, sizes: set<nat>,
        tops: set<int>, nb: Word, v: int, rsize: nat, cur: Trie, t: int, lo: nat, w: nat)
    requires nb > 0 && cur.Node? && Scanning(k, sz, whole, i, sizes, tops, nb, v, rsize, cur, t, lo, w)
    ensures cur.left.Node? || cur.right.Node? ==> w > 0
    ensures var v', r' := NewV(v, rsize, nb, Rd(sz, t), t), NewR(rsize, nb, Rd(sz, t));
            if cur.left.Node? then
              Scanning(k, sz, whole, i, sizes, tops, nb, v', r', cur.left, Ptr(cur.left), lo, w - 1)
            else if cur.right.Node? then
              Scanning(k, sz, whole, i, sizes, tops, nb, v', r', cur.right, Ptr(cur.right), lo + Pow2(w - 1), w - 1)
            else
              Scanning(k, sz, whole, i, sizes, tops, nb, v', r', Empty, 0, 0, 0)
  {
    hide Part, NewV, NewR, Shape, Pow2, Covered, Candidate;
    PartChild(k, sz, whole, i, cur, t, lo, w);
    LeftmostStep(sizes, nb, v, rsize, cur, lo, w, t);
    NothingPart(k, sz, whole, i);
  }

  lemma {:induction false} NothingPart(k: Links, sz: map<int, int>, whole: Trie, i: nat)
    ensures Part(k, sz, whole, i, Empty, 0, 0, 0)
  {
    assert Rep(k, sz, Empty, 0, i);
  }

  lemma {:induction false} AllSizesBound(k: Links, sz: map<int, int>, trees: seq<Trie>, i: nat)
    requires Trees(k, sz, trees) && i < NTREEBINS
    ensures forall s | s in AllSizes(trees) :: MIN_LARGE_SIZE <= s < MODULUS
    ensures Sizes(trees[i]) <= AllSizes(trees) && Tops(trees[i]) <= AllTops(trees)
  {
    forall s | s in AllSizes(trees) ensures MIN_LARGE_SIZE <= s < MODULUS {
      var j :| 0 <= j < |trees| && s in Sizes(trees[j]);
      assert TreeBin(k, sz, trees[j], j);
    }
    forall a | a in Tops(trees[i]) ensures a in AllTops(trees) {
    }
    forall s | s in Sizes(trees[i]) ensures s in AllSizes(trees) {
    }
  }

  // From the first loop to the second, within one bin.
  lemma {:induction false} ScanInBin(k: Links, sz: map<int, int>, trees: seq<Trie>, nb: Word, v: int, rsize: nat,
        cur: Trie, t: int, lo: nat, w: nat)
    requires Trees(k, sz, trees) && nb >= MIN_LARGE_SIZE && ComputeTreeIndex(nb) < NTREEBINS && (v != 0 || cur.Node?)
    requires BinSearched(k, sz, trees[ComputeTreeIndex(nb)], ComputeTreeIndex(nb), nb, v, rsize, cur, t, lo, w)
    ensures Scanning(k, sz, trees[ComputeTreeIndex(nb)], ComputeTreeIndex(nb), AllSizes(trees), AllTops(trees),
                     nb, v, rsize, cur, t, lo, w)
  {
    hide TreeBin, ComputeTreeIndex, Shape, Covered, Candidate, AllSizes, AllTops;
    AllSizesBound(k, sz, trees, ComputeTreeIndex(nb));
    Globalize(k, sz, trees, nb, v, rsize, cur);
  }

  // From the first loop to the second, in the next non-empty bin.
  lemma {:induction false} ScanNext(k: Links, sz: map<int, int>, trees: seq<Trie>, nb: Word, cur: Trie, t: int,
        lo: nat, w: nat, next: nat)
    requires Trees(k, sz, trees) && nb >= MIN_LARGE_SIZE && ComputeTreeIndex(nb) < next < NTREEBINS && cur.Empty?
    requires BinSearched(k, sz, trees[ComputeTreeIndex(nb)], ComputeTreeIndex(nb), nb, 0, MODULUS - nb, cur, t, lo, w)
    requires trees[next].Node? && forall j | ComputeTreeIndex(nb) < j < next :: trees[j].Empty?
    ensures Scanning(k, sz, trees[next], next, AllSizes(trees), AllTops(trees), nb, 0, MODULUS - nb,
                     trees[next], Ptr(trees[next]), Base(next), Width(next))
  {
    hide TreeBin, ComputeTreeIndex, Shape, Covered, AllSizes, AllTops;
    assert Sizes(cur) == {};
    AllSizesBound(k, sz, trees, next);
    NextBin(k, sz, trees, nb, MODULUS - nb, next);
    WholePart(k, sz, trees[next], next);
  }

  lemma {:induction false} ScanNone(k: Links, sz: map<int, int>, trees: seq<Trie>, nb: Word, cur: Trie, t: int,
        lo: nat, w: nat)
    requires Trees(k, sz, trees) && nb >= MIN_LARGE_SIZE && ComputeTreeIndex(nb) < NTREEBINS && cur.Empty?
    requires BinSearched(k, sz, trees[ComputeTreeIndex(nb)], ComputeTreeIndex(nb), nb, 0, MODULUS - nb, cur, t, lo, w)
    requires forall j | ComputeTreeIndex(nb) < j < NTREEBINS :: trees[j].Empty?
    ensures Covered(AllSizes(trees), nb, 0, MODULUS - nb, {})
  {
    assert Sizes(cur) == {};
    NextBin(k, sz, trees, nb, MODULUS - nb, NTREEBINS);
  }

  lemma {:induction false} ScanSmall(k: Links, sz: map<int, int>, trees: seq<Trie>, nb: nat, i: nat)
    requires Trees(k, sz, trees) && i < NTREEBINS && trees[i].Node? && 0 < nb < MIN_LARGE_SIZE
    requires forall j | 0 <= j < i :: trees[j].Empty?
    ensures Scanning(k, sz, trees[i], i, AllSizes(trees), AllTops(trees), nb, 0, MODULUS - nb,
                     trees[i], Ptr(trees[i]), Base(i), Width(i))
  {
    hide TreeBin, Part, ComputeTreeIndex, Sizes;
    AllSizesBound(k, sz, trees, i);
    WholePart(k, sz, trees[i], i);
    NodeInSizes(trees[i]);
    var c := trees[i].size;
    forall s | s in AllSizes(trees) && nb <= s ensures Below(Sizes(trees[i]), nb, s) {
      var j :| 0 <= j < |trees| && s in Sizes(trees[j]);
      SizeIndex(k, sz, trees[j], j, s);
      SizeIndex(k, sz, trees[i], i, c);
      if s < c { IndexMonotone(s, c); }
      if j < i { NoSizes(trees[j], s); }
      if s < c && j == i { assert s in Sizes(trees[i]); }
    }
  }

  lemma SizeIndex(k: Links, sz: map<int, int>, t: Trie, i: nat, s: nat)
    requires TreeBin(k, sz, t, i) && s in Sizes(t)
    ensures MIN_LARGE_SIZE <= s < MODULUS && ComputeTreeIndex(s) == i
  {
  }

  lemma NoSizes(t: Trie, s: nat)
    requires s in Sizes(t)
    ensures t.Node?
  {
  }
}

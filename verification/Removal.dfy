// The memory steps of `unlink_large_chunk`: taking one chunk out of a tree bin.
module Removal {
  import opened Words
  import opened TreeIndex
  import opened Tries
  import opened Links
  import opened Paths
  import opened Bins

  // ----- a chunk that is not a tree member ------------------------------------------------

  lemma {:induction false} ChainedNode(k: Links, sz: map<int, int>, k': Links, n: Trie, p: int, bin: int, j: nat)
    requires n.Node? && NodeRep(k, sz, n, p, bin) && 0 < j < |n.ring|
    requires k' == Unlink(k, n.ring[j])
    ensures NodeRep(k', sz, n.(ring := DropAt(n.ring, j)), p, bin)
  {
    UnlinkRing(k, n.ring, j);
    var q := DropAt(n.ring, j);
    forall i | 0 <= i < |q|
      ensures Tagged(k', sz, q[i], n.size, bin) && (i > 0 ==> Hooks(k', q[i], 0, 0, 0))
    {
      var m := if i < j then i else i + 1;
      assert q[i] == n.ring[m];
      assert Tagged(k, sz, n.ring[m], n.size, bin);
    }
  }

  lemma {:induction false} UnlinkChained(k: Links, sz: map<int, int>, t: Trie, i: nat, path: seq<bool>, x: int)
    requires TreeBin(k, sz, t, i) && ValidPath(t, path) && Sub(t, path).Node?
    requires x in Sub(t, path).ring && x != Ptr(Sub(t, path))
    ensures Rd(k.parent, x) == 0 && Rd(k.bk, x) != x
    ensures var u := Replace(t, path, RemoveNode(Sub(t, path), x)); var k' := Unlink(k, x);
            Rep(k', sz, u, TreeBinAt(i), i) && Ptr(u) == Ptr(t) && Only(k, k', Addrs(t))
  {
    var n := Sub(t, path);
    var p := ParentAt(t, TreeBinAt(i), path);
    var j := IndexOf(n.ring, x);
    SubRep(k, sz, t, TreeBinAt(i), i, path);
    var k' := Unlink(k, x);
    assert Hooks(k, n.ring[j], 0, 0, 0);
    assert Linked(k, n.ring[j - 1], Succ(n.ring, j - 1)) && n.ring[j - 1] != n.ring[j];
    UnlinkOnly(k, n.ring, j);
    ChainedNode(k, sz, k', n, p, i, j);
    ChainedKids(k, sz, k', n, p, i, j);
    ReplaceRep(k, sz, k', t, TreeBinAt(i), i, path, n.(ring := DropAt(n.ring, j)));
  }

  lemma {:induction false} ChainedKids(k: Links, sz: map<int, int>, k': Links, n: Trie, p: int, bin: int, j: nat)
    requires n.Node? && Distinct(n) && Rep(k, sz, n, p, bin) && 0 < j < |n.ring|
    requires Only(k, k', Members(n.ring) - {n.ring[j]})
    requires NodeRep(k', sz, n.(ring := DropAt(n.ring, j)), p, bin)
    ensures Rep(k', sz, n.(ring := DropAt(n.ring, j)), p, bin)
    ensures SameOn(k, k', Addrs(n.left)) && SameOn(k, k', Addrs(n.right))
  {
    RepFrame(k, sz, k', sz, n.left, Ptr(n), bin);
    RepFrame(k, sz, k', sz, n.right, Ptr(n), bin);
    assert DropAt(n.ring, j)[0] == n.ring[0];
  }

  // ----- detaching a tree member ------------------------------------------------------------

  // `x` is cut off from the chunks that stay: those of `n`, where only the
  // parent and child pointers of its root are still to be set.
  ghost predicate Detached(k: Links, sz: map<int, int>, n: Trie, x: int, bin: int) {
    n.Node? ==>
      && Distinct(n) && x !in Addrs(n)
      && Ring(k, n.ring)
      && (forall j {:trigger n.ring[j]} | 0 <= j < |n.ring| :: Tagged(k, sz, n.ring[j], n.size, bin))
      && Rd(k.c0, n.ring[0]) == 0 && Rd(k.c1, n.ring[0]) == 0
      && (forall j {:trigger n.ring[j]} | 0 < j < |n.ring| :: Hooks(k, n.ring[j], 0, 0, 0))
      && Rep(k, sz, n.left, x, bin) && Rep(k, sz, n.right, x, bin)
      && Rd(k.c0, x) == Ptr(n.left) && Rd(k.c1, x) == Ptr(n.right)
  }

  lemma {:induction false} DetachedFrame(k: Links, sz: map<int, int>, k': Links, n: Trie, x: int, bin: int)
    requires Detached(k, sz, n, x, bin) && SameOn(k, k', Addrs(n) + {x})
    ensures Detached(k', sz, n, x, bin)
  {
    hide Rep, Distinct, Ring, Tagged, Hooks;
    if n.Node? {
      NonEmpty(k, n.ring);
      RingFrame(k, k', n.ring);
      forall j | 0 <= j < |n.ring|
        ensures Tagged(k', sz, n.ring[j], n.size, bin) && (j > 0 ==> Hooks(k', n.ring[j], 0, 0, 0))
        ensures Same(k, k', n.ring[j])
      {
        assert Tagged(k, sz, n.ring[j], n.size, bin);
        assert n.ring[j] in Members(n.ring);
        MemberFrame(k, sz, k', sz, n.ring[j], n.size, bin);
      }
      RepFrame(k, sz, k', sz, n.left, x, bin);
      RepFrame(k, sz, k', sz, n.right, x, bin);
      assert Same(k, k', x);
    }
  }

  lemma {:induction false} DetachedAdopt(k: Links, sz: map<int, int>, n: Trie, x: int, xp: int, bin: int)
    requires n.Node? && Detached(k, sz, n, x, bin)
    ensures var k' := Adopt(k, x, Ptr(n), xp); Rep(k', sz, n, xp, bin) && Only(k, k', Addrs(n))
  {
    AdoptRep(k, sz, n.ring, n.size, n.left, n.right, x, xp, bin);
    assert Ptr(n) in n.ring;
  }

  lemma LastLink(k: Links, r: seq<int>)
    requires Ring(k, r)
    ensures Rd(k.bk, r[0]) == r[|r| - 1]
  {
    assert Linked(k, r[|r| - 1], Succ(r, |r| - 1));
  }

  lemma UnlinkKeeps(k: Links, x: int)
    ensures var k' := Unlink(k, x);
            k'.c0 == k.c0 && k'.c1 == k.c1 && k'.parent == k.parent && k'.index == k.index
  {
  }

  lemma {:induction false} RingMembers(k: Links, sz: map<int, int>, n: Trie, p: int, bin: int)
    requires n.Node? && NodeRep(k, sz, n, p, bin) && |n.ring| > 1
    ensures var k' := Unlink(k, Ptr(n)); var u := RemoveRoot(n);
            && Rd(k.bk, Ptr(n)) == Ptr(u) && Ring(k', u.ring)
            && Only(k, k', Members(n.ring) - {Ptr(n)})
            && (forall j {:trigger u.ring[j]} | 0 <= j < |u.ring| ::
                  Tagged(k', sz, u.ring[j], n.size, bin) && Hooks(k', u.ring[j], 0, 0, 0))
  {
    hide Unlink, Ring, Only, Linked, NoDup;
    var r := n.ring;
    var k' := Unlink(k, r[0]);
    var u := RemoveRoot(n);
    LastLink(k, r);
    UnlinkOnly(k, r, 0);
    UnlinkRing(k, r, 0);
    RotateRing(k', DropAt(r, 0));
    UnlinkKeeps(k, r[0]);
    assert u.ring == [DropAt(r, 0)[|r| - 2]] + DropAt(r, 0)[..|r| - 2];
    forall j | 0 <= j < |u.ring|
      ensures Tagged(k', sz, u.ring[j], n.size, bin) && Hooks(k', u.ring[j], 0, 0, 0)
    {
      var m := if j == 0 then |r| - 1 else j;
      assert u.ring[j] == r[m];
      assert Tagged(k, sz, r[m], n.size, bin) && Hooks(k, r[m], 0, 0, 0);
    }
  }

  // Another chunk of the same size takes over.
  lemma {:induction false} DetachByRing(k: Links, sz: map<int, int>, n: Trie, p: int, bin: int)
    requires n.Node? && Distinct(n) && Rep(k, sz, n, p, bin) && |n.ring| > 1
    ensures var k' := Unlink(k, Ptr(n));
            && Rd(k.bk, Ptr(n)) != Ptr(n) && Rd(k.bk, Ptr(n)) == Ptr(RemoveRoot(n))
            && Detached(k', sz, RemoveRoot(n), Ptr(n), bin)
            && Only(k, k', Addrs(n))
  {
    hide Unlink, Ring, Tagged, Hooks;
    var x := Ptr(n);
    var k' := Unlink(k, x);
    RemoveRootAddrs(n);
    RingMembers(k, sz, n, p, bin);
    assert RemoveRoot(n).ring[0] == n.ring[|n.ring| - 1];
    RepFrame(k, sz, k', sz, n.left, x, bin);
    RepFrame(k, sz, k', sz, n.right, x, bin);
    assert Same(k, k', x);
    HooksAre(k', RemoveRoot(n).ring[0], 0, 0, 0);
    HooksAre(k, x, p, Ptr(n.left), Ptr(n.right));
  }

  lemma HooksAre(k: Links, a: int, p: int, l: int, r: int)
    requires Hooks(k, a, p, l, r)
    ensures Rd(k.parent, a) == p && Rd(k.c0, a) == l && Rd(k.c1, a) == r
  {
  }

  // Nothing is left.
  lemma {:induction false} DetachAlone(k: Links, sz: map<int, int>, n: Trie, p: int, bin: int)
    requires n.Node? && Distinct(n) && Rep(k, sz, n, p, bin) && |n.ring| == 1
    ensures Rd(k.bk, Ptr(n)) == Ptr(n)
    ensures n.left.Empty? && n.right.Empty? ==> RemoveRoot(n).Empty?
  {
    assert Linked(k, n.ring[0], Succ(n.ring, 0));
  }

  // ----- the walk to the last leaf ------------------------------------------------------------

  // The walk from `x`'s child `c` has reached the node at `path`.
  ghost predicate LeafWalk(c: Trie, path: seq<bool>) {
    && c.Node? && ValidPath(c, path) && Sub(c, path).Node?
    && LastLeaf(c) == LastLeaf(Sub(c, path))
    && DropLastLeaf(c) == Replace(c, path, DropLastLeaf(Sub(c, path)))
  }

  lemma {:induction false} LeafWalkStart(c: Trie)
    requires c.Node?
    ensures ValidPath(c, []) && Sub(c, []) == c && LeafWalk(c, [])
  {
  }

  lemma {:induction false} LeafWalkStep(c: Trie, path: seq<bool>)
    requires LeafWalk(c, path)
    ensures var b := Sub(c, path).right.Node?;
            Child(Sub(c, path), b).Node? ==>
              && ValidPath(c, path + [b]) && Sub(c, path + [b]) == Child(Sub(c, path), b)
              && LeafWalk(c, path + [b])
  {
    var n := Sub(c, path);
    var b := n.right.Node?;
    if Child(n, b).Node? {
      SubSnoc(c, 0, path, b);
      ReplaceSnoc(c, path, b, DropLastLeaf(Child(n, b)));
    }
  }

  // Pointer field (f, b) holds the address of the node at `path` below `c`, itself
  // child `b0` of `x`; `q` is the path to the field's owner.
  ghost predicate Field(c: Trie, x: int, b0: bool, path: seq<bool>, q: seq<bool>, f: int, b: bool) {
    if path == [] then f == x && b == b0
    else ValidPath(c, q) && Sub(c, q).Node? && path == q + [b] && f == Ptr(Sub(c, q))
  }

  // Clearing the field found by the walk detaches the leaf and keeps the rest.
  lemma {:induction false} ClearLast(k: Links, sz: map<int, int>, c: Trie, x: int, b0: bool, bin: int,
        path: seq<bool>, q: seq<bool>, f: int, b: bool)
    requires LeafWalk(c, path) && Sub(c, path).left.Empty? && Sub(c, path).right.Empty?
    requires Field(c, x, b0, path, q, f, b)
    requires Distinct(c) && x !in Addrs(c) && Rep(k, sz, c, x, bin) && Kid(k, x, b0) == Ptr(c)
    ensures var k' := SetKid(k, f, b, 0);
            && Rep(k', sz, DropLastLeaf(c), x, bin)
            && Kid(k', x, b0) == Ptr(DropLastLeaf(c)) && Kid(k', x, !b0) == Kid(k, x, !b0)
            && Only(k, k', {x} + Addrs(c)) && SameOn(k, k', Members(LastLeaf(c).ring))
  {
    hide Rep, Distinct, DropLastLeaf, LastLeaf, Only, Ring, ValidPath, Sub, Replace, Addrs, Members, SameOn, SetKid,
         Ptr;
    SubNil(c);
    if path == [] {
      AloneLeaf(k, sz, c, x, b0, bin);
    } else {
      SubSnoc(c, 0, q, b);
      ReplaceSnoc(c, q, b, Empty);
      LeafDropped(Sub(c, path));
      ClearLeafField(k, sz, c, x, bin, q, b);
      LeafApart(k, sz, c, x, bin, q, b, SetKid(k, f, b, 0));
    }
  }

  lemma SubNil(c: Trie)
    ensures ValidPath(c, []) && Sub(c, []) == c
  {
  }

  lemma LeafDropped(l: Trie)
    requires l.Node? && l.left.Empty? && l.right.Empty?
    ensures DropLastLeaf(l) == Empty && LastLeaf(l) == l
  {
  }

  lemma {:induction false} AloneLeaf(k: Links, sz: map<int, int>, c: Trie, x: int, b0: bool, bin: int)
    requires c.Node? && c.left.Empty? && c.right.Empty? && x !in Addrs(c)
    ensures var k' := SetKid(k, x, b0, 0);
            && Rep(k', sz, DropLastLeaf(c), x, bin)
            && Kid(k', x, b0) == Ptr(DropLastLeaf(c)) && Kid(k', x, !b0) == Kid(k, x, !b0)
            && Only(k, k', {x} + Addrs(c)) && SameOn(k, k', Members(LastLeaf(c).ring))
  {
    LeafDropped(c);
    assert forall a | a in Members(c.ring) :: a in Addrs(c);
    SetKidOnly(k, x, b0, 0);
  }

  lemma {:induction false} LeafApart(k: Links, sz: map<int, int>, c: Trie, x: int, bin: int, q: seq<bool>, b: bool,
        k': Links)
    requires Distinct(c) && x !in Addrs(c) && Rep(k, sz, c, x, bin)
    requires ValidPath(c, q) && Sub(c, q).Node? && Child(Sub(c, q), b).Node?
    requires Only(k, k', {Ptr(Sub(c, q))})
    ensures SameOn(k, k', Members(Child(Sub(c, q), b).ring)) && Only(k, k', {x} + Addrs(c))
    ensures Kid(k', x, false) == Kid(k, x, false) && Kid(k', x, true) == Kid(k, x, true)
  {
    SubDistinct(c, q);
    SubRep(k, sz, c, x, bin, q);
    assert Ptr(Sub(c, q)) in Sub(c, q).ring;
    assert Same(k, k', x);
  }

  // A leaf below takes over.
  lemma {:induction false} DetachByLeaf(k: Links, sz: map<int, int>, n: Trie, p: int, bin: int, b0: bool,
        path: seq<bool>, q: seq<bool>, f: int, b: bool)
    requires n.Node? && Distinct(n) && Rep(k, sz, n, p, bin) && |n.ring| == 1
    requires b0 == n.right.Node? && Child(n, b0).Node?
    requires LeafWalk(Child(n, b0), path) && Sub(Child(n, b0), path).left.Empty? && Sub(Child(n, b0), path).right.Empty?
    requires Field(Child(n, b0), Ptr(n), b0, path, q, f, b)
    ensures var k' := SetKid(k, f, b, 0);
            && Detached(k', sz, RemoveRoot(n), Ptr(n), bin) && Only(k, k', Addrs(n))
            && Ptr(RemoveRoot(n)) == Ptr(Sub(Child(n, b0), path)) && RemoveRoot(n).Node?
  {
    hide LeafWalk, Field, SetKid;
    var x, c := Ptr(n), Child(n, b0);
    var k' := SetKid(k, f, b, 0);
    assert x in n.ring;
    ClearLast(k, sz, c, x, b0, bin, path, q, f, b);
    RepFrame(k, sz, k', sz, Child(n, !b0), x, bin);
    LeafTakes(k, sz, n, p, bin, b0, k', path);
  }

  lemma {:induction false} WalkEnds(c: Trie, path: seq<bool>)
    requires LeafWalk(c, path) && Sub(c, path).left.Empty? && Sub(c, path).right.Empty?
    ensures LastLeaf(c) == Sub(c, path)
  {
  }

  lemma {:induction false} LeafTakes(k: Links, sz: map<int, int>, n: Trie, p: int, bin: int, b0: bool, k': Links,
        path: seq<bool>)
    requires n.Node? && Distinct(n) && Rep(k, sz, n, p, bin) && |n.ring| == 1
    requires b0 == n.right.Node? && Child(n, b0).Node?
    requires var c := Child(n, b0);
             && LeafWalk(c, path) && Sub(c, path).left.Empty? && Sub(c, path).right.Empty?
             && Rep(k', sz, DropLastLeaf(c), Ptr(n), bin)
             && Kid(k', Ptr(n), b0) == Ptr(DropLastLeaf(c)) && Kid(k', Ptr(n), !b0) == Kid(k, Ptr(n), !b0)
             && SameOn(k, k', Members(LastLeaf(c).ring)) && Rep(k', sz, Child(n, !b0), Ptr(n), bin)
    ensures Detached(k', sz, RemoveRoot(n), Ptr(n), bin)
    ensures Ptr(RemoveRoot(n)) == Ptr(Sub(Child(n, b0), path)) && RemoveRoot(n).Node?
  {
    var c := Child(n, b0);
    var leaf := Sub(c, path);
    WalkEnds(c, path);
    SubRep(k, sz, c, Ptr(n), bin, path);
    RemoveRootAddrs(n);
    NodeFrame(k, sz, k', sz, leaf, ParentAt(c, Ptr(n), path), bin);
    assert RemoveRoot(n) == Node(leaf.ring, leaf.size, if b0 then n.left else DropLastLeaf(c),
                                                       if b0 then DropLastLeaf(c) else Empty);
  }

  // ----- putting the replacement in place ---------------------------------------------------------

  function AdoptIf(k: Links, x: int, r: int, xp: int): Links {
    if r != 0 then Adopt(k, x, r, xp) else k
  }

  lemma {:induction false} AdoptIfRep(k: Links, sz: map<int, int>, n: Trie, x: int, xp: int, bin: int)
    requires Detached(k, sz, n, x, bin)
    ensures var k' := AdoptIf(k, x, Ptr(n), xp); Rep(k', sz, n, xp, bin) && Only(k, k', Addrs(n))
  {
    if n.Node? {
      DetachedAdopt(k, sz, n, x, xp, bin);
      assert Tagged(k, sz, n.ring[0], n.size, bin);
    }
  }

  // The removed chunk was the root of its bin.
  lemma {:induction false} PlaceRoot(k: Links, sz: map<int, int>, t: Trie, i: nat, k1: Links)
    requires TreeBin(k, sz, t, i) && t.Node? && Only(k, k1, Addrs(t))
    requires Detached(k1, sz, RemoveRoot(t), Ptr(t), i)
    ensures var k' := AdoptIf(k1, Ptr(t), Ptr(RemoveRoot(t)), TreeBinAt(i));
            Rep(k', sz, RemoveRoot(t), TreeBinAt(i), i) && Only(k, k', Addrs(t))
  {
    hide Detached, Rep, AdoptIf;
    AdoptIfRep(k1, sz, RemoveRoot(t), Ptr(t), TreeBinAt(i), i);
    RemoveRootAddrs(t);
  }

  // The removed chunk was child `b` of an inner node.
  lemma {:induction false} PlaceInner(k: Links, sz: map<int, int>, t: Trie, i: nat, q: seq<bool>, b: bool, k1: Links)
    requires TreeBin(k, sz, t, i) && ValidPath(t, q) && Sub(t, q).Node? && Child(Sub(t, q), b).Node?
    requires var n := Child(Sub(t, q), b);
             |n.ring| > 0 && Only(k, k1, Addrs(n)) && Detached(k1, sz, RemoveRoot(n), Ptr(n), i)
    ensures var n := Child(Sub(t, q), b); var xp := Ptr(Sub(t, q)); var r := Ptr(RemoveRoot(n));
            var k' := AdoptIf(SetKid(k1, xp, b, r), Ptr(n), r, xp);
            && Rep(k', sz, Replace(t, q, WithChild(Sub(t, q), b, RemoveRoot(n))), TreeBinAt(i), i)
            && Ptr(Replace(t, q, WithChild(Sub(t, q), b, RemoveRoot(n)))) == Ptr(t)
            && Only(k, k', Addrs(t))
  {
    hide Detached, Rep, Distinct, Addrs, SetKid, AdoptIf, RemoveRoot, Only, TreeBin, Replace, ParentAt;
    var m := Sub(t, q);
    var n := Child(m, b);
    var u := RemoveRoot(n);
    var k2 := SetKid(k1, Ptr(m), b, Ptr(u));
    var k' := AdoptIf(k2, Ptr(n), Ptr(u), Ptr(m));
    InnerFacts(k, sz, t, i, q, b);
    RemoveRootAddrs(n);
    StepOnly(k, k1, Addrs(n), Ptr(m), b, Ptr(u));
    DetachedFrame(k1, sz, k2, u, Ptr(n), i);
    AdoptIfRep(k2, sz, u, Ptr(n), Ptr(m), i);
    StepLast(k, k1, Addrs(n), Ptr(m), b, Ptr(u), Addrs(u), k');
    InnerNode(k, sz, m, ParentAt(t, TreeBinAt(i), q), i, b, k', u);
    InnerRest(k, sz, t, i, q, b, k');
    ReplaceRep(k, sz, k', t, TreeBinAt(i), i, q, WithChild(m, b, u));
  }

  lemma {:induction false} InnerFacts(k: Links, sz: map<int, int>, t: Trie, i: nat, q: seq<bool>, b: bool)
    requires TreeBin(k, sz, t, i) && ValidPath(t, q) && Sub(t, q).Node? && Child(Sub(t, q), b).Node?
    ensures var m := Sub(t, q); var n := Child(m, b);
            && Distinct(t) && Rep(k, sz, t, TreeBinAt(i), i)
            && Distinct(m) && Rep(k, sz, m, ParentAt(t, TreeBinAt(i), q), i) && Distinct(n)
            && |n.ring| > 0 && |m.ring| > 0
            && Ptr(m) !in Addrs(n) && Ptr(n) in Addrs(n) && Ptr(n) != Ptr(m)
  {
    SubRep(k, sz, t, TreeBinAt(i), i, q);
    var m := Sub(t, q);
    var n := Child(m, b);
    assert Ptr(m) in m.ring && Ptr(n) in n.ring;
  }

  lemma {:induction false} InnerRest(k: Links, sz: map<int, int>, t: Trie, i: nat, q: seq<bool>, b: bool, k': Links)
    requires TreeBin(k, sz, t, i) && ValidPath(t, q) && Sub(t, q).Node? && Child(Sub(t, q), b).Node?
    requires Only(k, k', Addrs(Child(Sub(t, q), b)) + {Ptr(Sub(t, q))})
    ensures SameOn(k, k', Addrs(t) - Addrs(Sub(t, q))) && Only(k, k', Addrs(t))
  {
    SubRep(k, sz, t, TreeBinAt(i), i, q);
    assert Ptr(Sub(t, q)) in Sub(t, q).ring;
    assert Addrs(Child(Sub(t, q), b)) <= Addrs(Sub(t, q));
  }

  // One child field of node `a` changed, its other fields did not.
  ghost predicate KidChange(k: Links, k': Links, a: int, b: bool, v: int) {
    && Rd(k'.fd, a) == Rd(k.fd, a) && Rd(k'.bk, a) == Rd(k.bk, a)
    && Rd(k'.parent, a) == Rd(k.parent, a) && Rd(k'.index, a) == Rd(k.index, a)
    && Kid(k', a, b) == v && Kid(k', a, !b) == Kid(k, a, !b)
  }

  lemma StepOnly(k: Links, k1: Links, s: set<int>, a: int, b: bool, v: int)
    requires Only(k, k1, s) && a !in s
    ensures var k2 := SetKid(k1, a, b, v); Only(k, k2, s + {a}) && Only(k1, k2, {a})
  {
    SetKidOnly(k1, a, b, v);
  }

  lemma StepLast(k: Links, k1: Links, s: set<int>, a: int, b: bool, v: int, s': set<int>, k': Links)
    requires Only(k, k1, s) && a !in s && s' <= s && Only(SetKid(k1, a, b, v), k', s')
    ensures KidChange(k, k', a, b, v) && Only(k, k', s + {a})
  {
    var k2 := SetKid(k1, a, b, v);
    StepOnly(k, k1, s, a, b, v);
    SetKidOnly(k1, a, b, v);
    assert Same(k, k1, a) && Same(k2, k', a);
    forall c | c !in s + {a} ensures Same(k, k', c) {
      assert Same(k, k2, c) && Same(k2, k', c);
    }
  }

  lemma {:induction false} InnerNode(k: Links, sz: map<int, int>, m: Trie, p: int, bin: int, b: bool, k': Links,
        u: Trie)
    requires m.Node? && Distinct(m) && Rep(k, sz, m, p, bin) && |m.ring| > 0
    requires Only(k, k', Addrs(Child(m, b)) + {Ptr(m)}) && KidChange(k, k', Ptr(m), b, Ptr(u))
    requires Rep(k', sz, u, Ptr(m), bin)
    ensures Rep(k', sz, WithChild(m, b, u), p, bin) && Ptr(WithChild(m, b, u)) == Ptr(m)
  {
    assert Ptr(m) in m.ring;
    forall j | 0 < j < |m.ring| ensures Same(k, k', m.ring[j]) {
      assert m.ring[j] in m.ring;
    }
    KidNode(k, sz, k', m, p, bin, b, u);
    RepFrame(k, sz, k', sz, Child(m, !b), Ptr(m), bin);
    RepOfNode(k', sz, WithChild(m, b, u), p, bin);
  }
}

// The bins of the user heap: 32 rings of small chunks and 32 tries of large
// ones, each with a bit map of the bins that are not empty.
module Bins {
  import opened Words
  import opened TreeIndex
  import opened Tries
  import opened Links
  import opened Paths

  const NSMALLBINS: nat := 32

  // Bin headers live in the allocator's own record, outside the segment: their
  // addresses are negative here.
  function TreeBinAt(i: nat): int { i - 64 }

  function SmallBinAt(i: nat): int { i - 32 }

  // The links of a chunk outside `s` did not change; the bin headers, at negative
  // addresses, may have.
  ghost predicate OnlyChunks(k: Links, k': Links, s: set<int>) {
    forall a | a > 0 && a !in s :: Same(k, k', a)
  }

  lemma OnlyIsChunks(k: Links, k': Links, s: set<int>, u: set<int>)
    requires Only(k, k', s) && (forall a | a in s && a > 0 :: a in u)
    ensures OnlyChunks(k, k', u)
  {
  }

  lemma ChunksTwice(k: Links, k1: Links, k2: Links, s: set<int>, u: set<int>)
    requires OnlyChunks(k, k1, s) && OnlyChunks(k1, k2, u)
    ensures OnlyChunks(k, k2, s + u)
  {
    forall a | a > 0 && a !in s + u ensures Same(k, k2, a) {
      assert Same(k, k1, a) && Same(k1, k2, a);
    }
  }

  // ----- one tree bin -----------------------------------------------------------------

  ghost predicate TreeBin(k: Links, sz: map<int, int>, t: Trie, i: nat) {
    && i < NTREEBINS
    && Shape(t, Base(i), Width(i))
    && Distinct(t)
    && Rep(k, sz, t, TreeBinAt(i), i)
    && (forall s | s in Sizes(t) :: MIN_LARGE_SIZE <= s < MODULUS && ComputeTreeIndex(s) == i)
  }

  lemma {:induction false} AddrSize(k: Links, sz: map<int, int>, t: Trie, p: int, bin: int, a: int)
    requires Rep(k, sz, t, p, bin) && a in Addrs(t)
    ensures a > 0 && Rd(sz, a) in Sizes(t) && Rd(k.index, a) == bin
    decreases t
  {
    if a !in t.ring {
      if a in Addrs(t.left) {
        AddrSize(k, sz, t.left, t.ring[0], bin, a);
      } else {
        AddrSize(k, sz, t.right, t.ring[0], bin, a);
      }
    }
  }

  lemma {:induction false} SizeAddr(k: Links, sz: map<int, int>, t: Trie, p: int, bin: int, s: nat) returns (a: int)
    requires Rep(k, sz, t, p, bin) && s in Sizes(t)
    ensures a in Addrs(t) && Rd(sz, a) == s
    decreases t
  {
    if s == t.size {
      a := t.ring[0];
    } else if s in Sizes(t.left) {
      a := SizeAddr(k, sz, t.left, t.ring[0], bin, s);
    } else {
      a := SizeAddr(k, sz, t.right, t.ring[0], bin, s);
    }
  }

  // The memory after `x` was given fresh child and index fields.
  function Prepared(k: Links, x: int, i: int): Links {
    k.(index := k.index[x := i], c0 := k.c0[x := 0], c1 := k.c1[x := 0])
  }

  // `x` as a new leaf under pointer field (t, b).
  function AttachLeaf(k: Links, t: int, b: bool, x: int): Links {
    var k1 := SetKid(k, t, b, x);
    k1.(parent := k1.parent[x := t], fd := k1.fd[x := x], bk := k1.bk[x := x])
  }

  // `x` as a new member of the ring of tree node `t`.
  function AttachRing(k: Links, t: int, x: int): Links {
    var k1 := LinkAfter(k, t, x);
    k1.(parent := k1.parent[x := 0])
  }

  lemma {:induction false} LeafRep(k: Links, sz: map<int, int>, p: int, x: int, s: nat, bin: int)
    requires Tagged(k, sz, x, s, bin) && Hooks(k, x, p, 0, 0) && Linked(k, x, x)
    ensures Rep(k, sz, Node([x], s, Empty, Empty), p, bin)
  {
    assert NodeRep(k, sz, Node([x], s, Empty, Empty), p, bin);
  }

  lemma {:induction false} AttachLeafOnly(k: Links, t: int, b: bool, x: int, bin: int)
    requires t != x
    ensures var k' := AttachLeaf(Prepared(k, x, bin), t, b, x);
            && Only(k, k', {x, t})
            && Rd(k'.fd, t) == Rd(k.fd, t) && Rd(k'.bk, t) == Rd(k.bk, t)
            && Rd(k'.parent, t) == Rd(k.parent, t) && Rd(k'.index, t) == Rd(k.index, t)
            && Kid(k', t, b) == x && Kid(k', t, !b) == Kid(k, t, !b)
  {
    hide AttachLeaf, Prepared, Same;
    AttachLeafAt(k, t, b, x, bin);
    forall a | a !in {x, t} ensures Same(k, AttachLeaf(Prepared(k, x, bin), t, b, x), a) {
      AttachLeafElsewhere(k, t, b, x, bin, a);
    }
  }

  lemma AttachLeafAt(k: Links, t: int, b: bool, x: int, bin: int)
    requires t != x
    ensures var k' := AttachLeaf(Prepared(k, x, bin), t, b, x);
            && Rd(k'.fd, t) == Rd(k.fd, t) && Rd(k'.bk, t) == Rd(k.bk, t)
            && Rd(k'.parent, t) == Rd(k.parent, t) && Rd(k'.index, t) == Rd(k.index, t)
            && Kid(k', t, b) == x && Kid(k', t, !b) == Kid(k, t, !b)
  {
  }

  lemma AttachLeafElsewhere(k: Links, t: int, b: bool, x: int, bin: int, a: int)
    requires a != x && a != t
    ensures Same(k, AttachLeaf(Prepared(k, x, bin), t, b, x), a)
  {
  }

  lemma {:induction false} AttachLeafNew(k: Links, t: int, b: bool, x: int, bin: int)
    requires t != x
    ensures var k' := AttachLeaf(Prepared(k, x, bin), t, b, x);
            Linked(k', x, x) && Hooks(k', x, t, 0, 0) && Rd(k'.index, x) == bin
  {
  }

  // Changing one child field of a node.
  lemma {:induction false} KidNode(k: Links, sz: map<int, int>, k': Links, t: Trie, p: int, bin: int, b: bool, c: Trie)
    requires t.Node? && NodeRep(k, sz, t, p, bin)
    requires forall i {:trigger t.ring[i]} | 0 < i < |t.ring| :: Same(k, k', t.ring[i])
    requires Rd(k'.fd, Ptr(t)) == Rd(k.fd, Ptr(t)) && Rd(k'.bk, Ptr(t)) == Rd(k.bk, Ptr(t))
    requires Rd(k'.parent, Ptr(t)) == Rd(k.parent, Ptr(t)) && Rd(k'.index, Ptr(t)) == Rd(k.index, Ptr(t))
    requires Kid(k', Ptr(t), b) == Ptr(c) && Kid(k', Ptr(t), !b) == Kid(k, Ptr(t), !b)
    ensures NodeRep(k', sz, WithChild(t, b, c), p, bin)
  {
    hide Linked, Tagged, Succ;
    KidRing(k, k', t.ring);
    forall i | 0 <= i < |t.ring| ensures Tagged(k', sz, t.ring[i], t.size, bin) {
      assert Tagged(k, sz, t.ring[i], t.size, bin);
      TaggedSame(k, k', sz, t.ring[i], t.size, bin);
    }
  }

  lemma KidRing(k: Links, k': Links, r: seq<int>)
    requires |r| > 0 && Ring(k, r)
    requires forall i {:trigger r[i]} | 0 < i < |r| :: Same(k, k', r[i])
    requires Rd(k'.fd, r[0]) == Rd(k.fd, r[0]) && Rd(k'.bk, r[0]) == Rd(k.bk, r[0])
    ensures Ring(k', r)
  {
    forall i | 0 <= i < |r| ensures Linked(k', r[i], Succ(r, i)) {
      assert Linked(k, r[i], Succ(r, i));
    }
  }

  lemma TaggedSame(k: Links, k': Links, sz: map<int, int>, a: int, s: nat, bin: int)
    requires Tagged(k, sz, a, s, bin) && Rd(k'.index, a) == Rd(k.index, a)
    ensures Tagged(k', sz, a, s, bin)
  {
  }

  // Storing a new leaf in an empty child field of a node.
  lemma {:induction false} AttachLeafRep(k: Links, sz: map<int, int>, t: Trie, p: int, bin: int, b: bool, x: int,
        s: nat)
    requires t.Node? && Distinct(t) && Rep(k, sz, t, p, bin) && Child(t, b).Empty?
    requires x > 0 && x !in Addrs(t) && Rd(sz, x) == s
    ensures var k' := AttachLeaf(Prepared(k, x, bin), Ptr(t), b, x);
            && Rep(k', sz, WithChild(t, b, Node([x], s, Empty, Empty)), p, bin)
            && Only(k, k', {x, Ptr(t)})
  {
    var k' := AttachLeaf(Prepared(k, x, bin), Ptr(t), b, x);
    var c := Node([x], s, Empty, Empty);
    hide NodeRep, AttachLeaf, Prepared, Same;
    PtrOf(k, sz, t, p, bin);
    assert Ptr(t) in t.ring;
    AttachLeafOnly(k, Ptr(t), b, x, bin);
    AttachLeafNew(k, Ptr(t), b, x, bin);
    LeafRep(k', sz, Ptr(t), x, s, bin);
    RepFrame(k, sz, k', sz, Child(t, !b), Ptr(t), bin);
    forall i | 0 < i < |t.ring| ensures Same(k, k', t.ring[i]) {
      assert t.ring[i] in t.ring;
    }
    KidNode(k, sz, k', t, p, bin, b, c);
  }

  lemma {:induction false} AttachRingOnly(k: Links, r: seq<int>, x: int, bin: int)
    requires Ring(k, r) && x !in r
    ensures var k' := AttachRing(Prepared(k, x, bin), r[0], x);
            && Ring(k', [r[0], x] + r[1..]) && Only(k, k', Members(r) + {x})
            && Hooks(k', x, 0, 0, 0) && Rd(k'.index, x) == bin
            && k'.c0 == k.c0[x := 0] && k'.c1 == k.c1[x := 0]
            && k'.parent == k.parent[x := 0] && k'.index == k.index[x := bin]
  {
    hide Ring, Only, Same, Linked, LinkAfter;
    NonEmpty(k, r);
    var k1 := Prepared(k, x, bin);
    var k2 := LinkAfter(k1, r[0], x);
    RingLinksOnly(k, k1, r);
    LinkAfterRing(k1, r, x);
    LinkAfterOnly(k1, r, x);
    LinkAfterLinks(k1, r[0], x);
    RingLinksOnly(k2, AttachRing(k1, r[0], x), [r[0], x] + r[1..]);
    PreparedOnly(k, x, bin);
    ParentOnly(k2, x, 0);
    OnlyTwice(k, k1, k2, {x}, Members(r) + {x});
    OnlyTwice(k, k2, AttachRing(k1, r[0], x), {x} + (Members(r) + {x}), {x});
    assert {x} + (Members(r) + {x}) + {x} == Members(r) + {x};
  }

  lemma LinkAfterLinks(k: Links, t: int, x: int)
    ensures var k' := LinkAfter(k, t, x);
            k'.c0 == k.c0 && k'.c1 == k.c1 && k'.parent == k.parent && k'.index == k.index
  {
  }

  lemma PreparedOnly(k: Links, x: int, bin: int)
    ensures Only(k, Prepared(k, x, bin), {x})
  {
  }

  lemma {:induction false} RingLinksOnly(k: Links, k': Links, r: seq<int>)
    requires Ring(k, r) && k'.fd == k.fd && k'.bk == k.bk
    ensures Ring(k', r)
  {
    forall i | 0 <= i < |r| ensures Linked(k', r[i], Succ(r, i)) {
      assert Linked(k, r[i], Succ(r, i));
    }
  }

  // Adding a chunk to the ring of a node.
  lemma {:induction false} AttachRingRep(k: Links, sz: map<int, int>, t: Trie, p: int, bin: int, x: int)
    requires t.Node? && Distinct(t) && Rep(k, sz, t, p, bin)
    requires x > 0 && x !in Addrs(t) && Rd(sz, x) == t.size
    ensures var k' := AttachRing(Prepared(k, x, bin), Ptr(t), x);
            && Rep(k', sz, t.(ring := [t.ring[0], x] + t.ring[1..]), p, bin)
            && Only(k, k', {x} + Members(t.ring))
  {
    var k' := AttachRing(Prepared(k, x, bin), Ptr(t), x);
    assert x !in t.ring;
    AttachRingOnly(k, t.ring, x, bin);
    AttachRingNode(k, sz, k', t, p, bin, x);
    RepFrame(k, sz, k', sz, t.left, Ptr(t), bin);
    RepFrame(k, sz, k', sz, t.right, Ptr(t), bin);
  }

  lemma {:induction false} AttachRingNode(k: Links, sz: map<int, int>, k': Links, t: Trie, p: int, bin: int, x: int)
    requires t.Node? && NodeRep(k, sz, t, p, bin) && x !in t.ring && Tagged(k', sz, x, t.size, bin)
    requires Ring(k', [t.ring[0], x] + t.ring[1..]) && Hooks(k', x, 0, 0, 0)
    requires k'.c0 == k.c0[x := 0] && k'.c1 == k.c1[x := 0]
    requires k'.parent == k.parent[x := 0] && k'.index == k.index[x := bin]
    ensures NodeRep(k', sz, t.(ring := [t.ring[0], x] + t.ring[1..]), p, bin)
  {
    hide Ring, Tagged, Hooks;
    NonEmpty(k, t.ring);
    var q := [t.ring[0], x] + t.ring[1..];
    forall i | 0 <= i < |q|
      ensures Tagged(k', sz, q[i], t.size, bin) && (i > 0 ==> Hooks(k', q[i], 0, 0, 0))
    {
      if i != 1 {
        var n := if i == 0 then 0 else i - 1;
        assert q[i] == t.ring[n] && q[i] != x;
        assert Tagged(k, sz, t.ring[n], t.size, bin);
        KeepsMember(k, sz, k', q[i], x, t.size, bin);
      }
    }
    KeepsMember(k, sz, k', t.ring[0], x, t.size, bin);
  }

  lemma KeepsMember(k: Links, sz: map<int, int>, k': Links, a: int, x: int, s: nat, bin: int)
    requires a != x && Tagged(k, sz, a, s, bin)
    requires k'.c0 == k.c0[x := 0] && k'.c1 == k.c1[x := 0]
    requires k'.parent == k.parent[x := 0] && k'.index == k.index[x := bin]
    ensures Tagged(k', sz, a, s, bin)
    ensures forall p, l, r | Hooks(k, a, p, l, r) :: Hooks(k', a, p, l, r)
  {
  }

  // ----- memory steps of unlink_large_chunk ---------------------------------------------

  // The last field reached on the way to the last leaf below `x`'s child `c`:
  // clearing it removes that leaf.
  lemma {:induction false} ClearLeafField(k: Links, sz: map<int, int>, c: Trie, x: int, bin: int, path: seq<bool>,
        b: bool)
    requires c.Node? && Distinct(c) && Rep(k, sz, c, x, bin) && x !in Addrs(c)
    requires ValidPath(c, path) && Sub(c, path).Node? && Child(Sub(c, path), b).Node?
    ensures var k' := SetKid(k, Ptr(Sub(c, path)), b, 0);
            && Rep(k', sz, Replace(c, path, WithChild(Sub(c, path), b, Empty)), x, bin)
            && Ptr(Replace(c, path, WithChild(Sub(c, path), b, Empty))) == Ptr(c)
            && Only(k, k', {Ptr(Sub(c, path))}) && Ptr(Sub(c, path)) in Addrs(c)
  {
    SubRep(k, sz, c, x, bin, path);
    ClearField(k, sz, Sub(c, path), ParentAt(c, x, path), bin, b);
    ReplaceRep(k, sz, SetKid(k, Ptr(Sub(c, path)), b, 0), c, x, bin, path, WithChild(Sub(c, path), b, Empty));
  }

  lemma {:induction false} ClearField(k: Links, sz: map<int, int>, n: Trie, p: int, bin: int, b: bool)
    requires n.Node? && Distinct(n) && Rep(k, sz, n, p, bin)
    ensures var k' := SetKid(k, Ptr(n), b, 0);
            && Rep(k', sz, WithChild(n, b, Empty), p, bin) && Ptr(WithChild(n, b, Empty)) == Ptr(n)
            && Only(k, k', {Ptr(n)}) && Ptr(n) in Addrs(n)
  {
    hide NodeRep, SetKid, Only, SameOn, Same;
    PtrOf(k, sz, n, p, bin);
    var k' := SetKid(k, Ptr(n), b, 0);
    assert Ptr(n) in n.ring;
    SetKidOnly(k, Ptr(n), b, 0);
    forall i | 0 < i < |n.ring| ensures Same(k, k', n.ring[i]) {
      OnlyAt(k, k', Ptr(n), n.ring[i]);
    }
    KidNode(k, sz, k', n, p, bin, b, Empty);
    OnlyOthers(k, k', {Ptr(n)}, Addrs(Child(n, !b)));
    RepFrame(k, sz, k', sz, Child(n, !b), Ptr(n), bin);
    RepOfNode(k', sz, WithChild(n, b, Empty), p, bin);
  }

  lemma SetKidOnly(k: Links, a: int, b: bool, v: int)
    ensures var k' := SetKid(k, a, b, v);
            && Only(k, k', {a}) && k'.fd == k.fd && k'.bk == k.bk && k'.parent == k.parent && k'.index == k.index
            && Kid(k', a, b) == v && Kid(k', a, !b) == Kid(k, a, !b)
  {
  }

  lemma OnlyAt(k: Links, k': Links, a: int, c: int)
    requires Only(k, k', {a}) && c != a
    ensures Same(k, k', c)
  {
  }

  // Give `r` the parent and the children of `x`, as the tail of the macro does.
  function AdoptKid(k: Links, x: int, r: int, b: bool): Links {
    var c := Kid(k, x, b);
    if c != 0 then
      var k1 := SetKid(k, r, b, c);
      k1.(parent := k1.parent[c := r])
    else k
  }

  function Adopt(k: Links, x: int, r: int, xp: int): Links {
    AdoptKid(AdoptKid(k.(parent := k.parent[r := xp]), x, r, false), x, r, true)
  }

  lemma {:induction false} ReparentNode(k: Links, sz: map<int, int>, k': Links, t: Trie, p: int, p': int, bin: int)
    requires t.Node? && NodeRep(k, sz, t, p, bin)
    requires forall i {:trigger t.ring[i]} | 0 < i < |t.ring| :: Same(k, k', t.ring[i])
    requires k'.fd == k.fd && k'.bk == k.bk && Rd(k'.index, Ptr(t)) == Rd(k.index, Ptr(t))
    requires Hooks(k', Ptr(t), p', Rd(k.c0, Ptr(t)), Rd(k.c1, Ptr(t)))
    ensures NodeRep(k', sz, t, p', bin)
  {
    hide Linked, Succ, Tagged, Hooks;
    RingLinksOnly(k, k', t.ring);
    forall i | 0 <= i < |t.ring|
      ensures Tagged(k', sz, t.ring[i], t.size, bin) && (i > 0 ==> Hooks(k', t.ring[i], 0, 0, 0))
    {
      assert Tagged(k, sz, t.ring[i], t.size, bin);
      TaggedSame(k, k', sz, t.ring[i], t.size, bin);
      if i > 0 { HooksSame(k, k', t.ring[i]); }
    }
    HooksAt(k, k', t.ring[0], p, p', Ptr(t.left), Ptr(t.right));
  }

  lemma HooksSame(k: Links, k': Links, a: int)
    requires Same(k, k', a)
    ensures forall p, l, r | Hooks(k, a, p, l, r) :: Hooks(k', a, p, l, r)
  {
  }

  lemma HooksAt(k: Links, k': Links, a: int, p: int, p': int, l: int, r: int)
    requires Hooks(k, a, p, l, r) && Hooks(k', a, p', Rd(k.c0, a), Rd(k.c1, a))
    ensures Hooks(k', a, p', l, r)
  {
  }

  lemma {:induction false} ReparentRep(k: Links, sz: map<int, int>, k': Links, t: Trie, p: int, p': int, bin: int)
    requires Distinct(t) && Rep(k, sz, t, p, bin)
    requires SameOn(k, k', Addrs(t) - {Ptr(t)})
    requires t.Node? ==> k'.fd == k.fd && k'.bk == k.bk && Rd(k'.index, Ptr(t)) == Rd(k.index, Ptr(t))
    requires t.Node? ==> Hooks(k', Ptr(t), p', Rd(k.c0, Ptr(t)), Rd(k.c1, Ptr(t)))
    ensures Rep(k', sz, t, p', bin)
  {
    if t.Node? {
      assert Ptr(t) in t.ring;
      forall i | 0 < i < |t.ring| ensures Same(k, k', t.ring[i]) {
        assert t.ring[i] in t.ring;
      }
      ReparentNode(k, sz, k', t, p, p', bin);
      RepFrame(k, sz, k', sz, t.left, Ptr(t), bin);
      RepFrame(k, sz, k', sz, t.right, Ptr(t), bin);
    }
  }

  // One child of `x` moves below `r`.
  lemma {:induction false} AdoptKidRep(k: Links, sz: map<int, int>, t: Trie, x: int, r: int, b: bool, bin: int)
    requires Distinct(t) && Rep(k, sz, t, x, bin) && Kid(k, x, b) == Ptr(t)
    requires x !in Addrs(t) && r !in Addrs(t) && x != r && Kid(k, r, b) == 0
    ensures var k' := AdoptKid(k, x, r, b);
            && Rep(k', sz, t, r, bin) && Kid(k', r, b) == Ptr(t)
            && k'.fd == k.fd && k'.bk == k.bk && k'.index == k.index
            && Only(k, k', {r} + Addrs(t))
            && Kid(k', r, !b) == Kid(k, r, !b) && Rd(k'.parent, r) == Rd(k.parent, r)
  {
    hide NodeRep, Distinct;
    var k' := AdoptKid(k, x, r, b);
    PtrOf(k, sz, t, x, bin);
    if t.Node? {
      assert Ptr(t) in t.ring;
      AdoptKidReads(k, x, r, b);
      ReparentRep(k, sz, k', t, x, r, bin);
    }
  }

  lemma AdoptKidReads(k: Links, x: int, r: int, b: bool)
    requires Kid(k, x, b) != 0 && Kid(k, x, b) != r
    ensures var k' := AdoptKid(k, x, r, b); var c := Kid(k, x, b);
            && k'.fd == k.fd && k'.bk == k.bk && k'.index == k.index && Only(k, k', {r, c})
            && Rd(k'.parent, c) == r && Rd(k'.c0, c) == Rd(k.c0, c) && Rd(k'.c1, c) == Rd(k.c1, c)
            && Rd(k'.parent, r) == Rd(k.parent, r) && Kid(k', r, b) == c && Kid(k', r, !b) == Kid(k, r, !b)
  {
  }

  // The chunks of `ring`, hanging free, take over the place of `x`.
  lemma {:induction false} AdoptRep(k: Links, sz: map<int, int>, ring: seq<int>, size: nat, l: Trie, r: Trie, x: int,
        xp: int, bin: int)
    requires |ring| > 0
    requires Ring(k, ring) && (forall i | 0 <= i < |ring| :: Tagged(k, sz, ring[i], size, bin))
    requires Rd(k.c0, ring[0]) == 0 && Rd(k.c1, ring[0]) == 0
    requires forall i | 0 < i < |ring| :: Hooks(k, ring[i], 0, 0, 0)
    requires Distinct(l) && Distinct(r) && Members(ring) !! Addrs(l) !! Addrs(r)
    requires x !in ring && x !in Addrs(l) && x !in Addrs(r)
    requires Rep(k, sz, l, x, bin) && Rep(k, sz, r, x, bin) && Rd(k.c0, x) == Ptr(l) && Rd(k.c1, x) == Ptr(r)
    ensures var k' := Adopt(k, x, ring[0], xp);
            && Rep(k', sz, Node(ring, size, l, r), xp, bin)
            && Only(k, k', {ring[0]} + Addrs(l) + Addrs(r))
  {
    hide Rep, AdoptKid, Distinct, Ring, Tagged, NodeRep, Addrs, Only, SameOn, Same;
    var h := ring[0];
    assert h in ring;
    var k1 := k.(parent := k.parent[h := xp]);
    ParentOnly(k, h, xp);
    OnlyOthers(k, k1, {h}, Addrs(l));
    OnlyOthers(k, k1, {h}, Addrs(r));
    RepFrame(k, sz, k1, sz, l, x, bin);
    RepFrame(k, sz, k1, sz, r, x, bin);
    var k2 := AdoptKid(k1, x, h, false);
    AdoptKidRep(k1, sz, l, x, h, false, bin);
    OnlyOthers(k1, k2, {h} + Addrs(l), Addrs(r) + {x});
    RepFrame(k1, sz, k2, sz, r, x, bin);
    var k' := AdoptKid(k2, x, h, true);
    AdoptKidRep(k2, sz, r, x, h, true, bin);
    OnlyOthers(k2, k', {h} + Addrs(r), Addrs(l));
    RepFrame(k2, sz, k', sz, l, h, bin);
    OnlyTwice(k, k1, k2, {h}, {h} + Addrs(l));
    OnlyTwice(k, k2, k', {h} + ({h} + Addrs(l)), {h} + Addrs(r));
    assert {h} + ({h} + Addrs(l)) + ({h} + Addrs(r)) == {h} + Addrs(l) + Addrs(r);
    AdoptNode(k, sz, k', ring, size, l, r, xp, bin);
    RepOfNode(k', sz, Node(ring, size, l, r), xp, bin);
  }

  lemma ParentOnly(k: Links, h: int, xp: int)
    ensures Only(k, k.(parent := k.parent[h := xp]), {h})
  {
  }

  lemma OnlyTwice(k: Links, k1: Links, k2: Links, s: set<int>, u: set<int>)
    requires Only(k, k1, s) && Only(k1, k2, u)
    ensures Only(k, k2, s + u)
  {
    forall a | a !in s + u ensures Same(k, k2, a) {
      assert Same(k, k1, a) && Same(k1, k2, a);
    }
  }

  lemma OnlyOthers(k: Links, k': Links, s: set<int>, d: set<int>)
    requires Only(k, k', s) && s !! d
    ensures SameOn(k, k', d)
    ensures forall a | a in d :: Rd(k'.c0, a) == Rd(k.c0, a) && Rd(k'.c1, a) == Rd(k.c1, a)
  {
  }

  lemma {:induction false} AdoptNode(k: Links, sz: map<int, int>, k': Links, ring: seq<int>, size: nat, l: Trie,
        r: Trie, xp: int, bin: int)
    requires Ring(k, ring) && (forall i | 0 <= i < |ring| :: Tagged(k, sz, ring[i], size, bin))
    requires forall i | 0 < i < |ring| :: Hooks(k, ring[i], 0, 0, 0)
    requires Members(ring) !! Addrs(l) !! Addrs(r)
    requires k'.fd == k.fd && k'.bk == k.bk && k'.index == k.index
    requires Only(k, k', {ring[0]} + Addrs(l) + Addrs(r))
    requires Hooks(k', ring[0], xp, Ptr(l), Ptr(r))
    ensures NodeRep(k', sz, Node(ring, size, l, r), xp, bin)
  {
    RingLinksOnly(k, k', ring);
    forall i | 0 <= i < |ring|
      ensures Tagged(k', sz, ring[i], size, bin) && (i > 0 ==> Hooks(k', ring[i], 0, 0, 0))
    {
      assert ring[i] in Members(ring);
      assert Tagged(k, sz, ring[i], size, bin);
      if i > 0 { assert Same(k, k', ring[i]); }
    }
  }

  // ----- all bins ----------------------------------------------------------------------

  ghost predicate TreesOK(k: Links, sz: map<int, int>, treemap: Word, treebins: seq<int>, trees: seq<Trie>) {
    && |treebins| == NTREEBINS && |trees| == NTREEBINS
    && (forall i | 0 <= i < NTREEBINS :: TreeSlot(k, sz, treemap, treebins[i], trees[i], i))
  }

  // The bin's pointer and its map bit agree with the trie stored there.
  ghost predicate TreeSlot(k: Links, sz: map<int, int>, treemap: Word, ptr: int, t: Trie, i: nat) {
    TreeBin(k, sz, t, i) && ptr == Ptr(t) && (i in Bits(treemap) <==> t.Node?)
  }

  // One small bin: a ring through its header, all chunks of size 8 i.  The
  // header's own links mean nothing while the bin is empty.
  ghost predicate SmallBin(k: Links, sz: map<int, int>, list: seq<int>, i: nat) {
    && (forall j {:trigger list[j]} | 0 <= j < |list| :: list[j] > 0 && Rd(sz, list[j]) == 8 * i)
    && (list != [] ==> Ring(k, [SmallBinAt(i)] + list))
  }

  ghost predicate SmallsOK(k: Links, sz: map<int, int>, smallmap: Word, small: seq<seq<int>>) {
    && |small| == NSMALLBINS
    && (forall i | 0 <= i < NSMALLBINS :: SmallSlot(k, sz, smallmap, small[i], i))
  }

  ghost predicate SmallSlot(k: Links, sz: map<int, int>, smallmap: Word, list: seq<int>, i: nat) {
    SmallBin(k, sz, list, i) && (i in Bits(smallmap) <==> list != [])
  }

  ghost function InTrees(trees: seq<Trie>): set<int> {
    set i, a | 0 <= i < |trees| && a in Addrs(trees[i]) :: a
  }

  ghost function InSmalls(small: seq<seq<int>>): set<int> {
    set i, a | 0 <= i < |small| && a in small[i] :: a
  }

  // A chunk in a tree bin is in the bin of its size.
  lemma TreeMember(k: Links, sz: map<int, int>, t: Trie, i: nat, a: int)
    requires TreeBin(k, sz, t, i) && a in Addrs(t)
    ensures a > 0 && MIN_LARGE_SIZE <= Rd(sz, a) < MODULUS && ComputeTreeIndex(Rd(sz, a)) == i
  {
    AddrSize(k, sz, t, TreeBinAt(i), i, a);
  }

  // Changing links of chunks of one tree bin leaves the other bins alone.
  lemma TreesUpdate(k: Links, sz: map<int, int>, treemap: Word, treebins: seq<int>, trees: seq<Trie>, k': Links,
        treemap': Word, treebins': seq<int>, i: nat, t: Trie, x: int)
    requires TreesOK(k, sz, treemap, treebins, trees) && i < NTREEBINS
    requires MIN_LARGE_SIZE <= Rd(sz, x) < MODULUS && ComputeTreeIndex(Rd(sz, x)) == i
    requires Only(k, k', Addrs(trees[i]) + {x})
    requires TreeBin(k', sz, t, i)
    requires treebins' == treebins[i := Ptr(t)]
    requires Bits(treemap') == if t.Node? then Bits(treemap) + {i} else Bits(treemap) - {i}
    ensures TreesOK(k', sz, treemap', treebins', trees[i := t])
  {
    hide TreeBin, Only, Bits, Ptr, ComputeTreeIndex, Addrs;
    var bins', trees' := treebins[i := Ptr(t)], trees[i := t];
    forall j: nat | j < NTREEBINS
      ensures TreeSlot(k', sz, treemap', bins'[j], trees'[j], j)
    {
      if j != i {
        assert TreeSlot(k, sz, treemap, treebins[i], trees[i], i);
        assert TreeSlot(k, sz, treemap, treebins[j], trees[j], j);
        OtherTree(k, sz, trees[i], i, trees[j], j, k', x);
      }
    }
  }

  lemma OtherTree(k: Links, sz: map<int, int>, t: Trie, i: nat, u: Trie, j: nat, k': Links, x: int)
    requires TreeBin(k, sz, t, i) && TreeBin(k, sz, u, j) && i != j
    requires MIN_LARGE_SIZE <= Rd(sz, x) < MODULUS && ComputeTreeIndex(Rd(sz, x)) == i
    requires Only(k, k', Addrs(t) + {x})
    ensures TreeBin(k', sz, u, j)
  {
    forall a | a in Addrs(u) ensures Same(k, k', a) {
      TreeMember(k, sz, u, j, a);
      if a in Addrs(t) { TreeMember(k, sz, t, i, a); }
    }
    RepFrame(k, sz, k', sz, u, TreeBinAt(j), j);
  }

  // Changing links of large chunks leaves the small bins alone.
  lemma SmallsFrame(k: Links, sz: map<int, int>, smallmap: Word, small: seq<seq<int>>, k': Links, s: set<int>)
    requires SmallsOK(k, sz, smallmap, small) && Only(k, k', s)
    requires forall a | a in s :: a > 0 && Rd(sz, a) >= MIN_LARGE_SIZE
    ensures SmallsOK(k', sz, smallmap, small)
  {
    forall i: nat | i < NSMALLBINS ensures SmallSlot(k', sz, smallmap, small[i], i) {
      assert SmallSlot(k, sz, smallmap, small[i], i);
      if small[i] != [] {
        var r := [SmallBinAt(i)] + small[i];
        forall a | a in Members(r) ensures Same(k, k', a) {
          if a != SmallBinAt(i) {
            var j :| 0 <= j < |small[i]| && small[i][j] == a;
          }
        }
        RingFrame(k, k', r);
      }
    }
  }

  lemma {:induction false} NotElsewhere(trees: seq<Trie>, i: nat, x: int, k: Links, sz: map<int, int>)
    requires i < |trees| == NTREEBINS
    requires forall j | 0 <= j < NTREEBINS :: TreeBin(k, sz, trees[j], j)
    requires MIN_LARGE_SIZE <= Rd(sz, x) < MODULUS && ComputeTreeIndex(Rd(sz, x)) == i
    ensures !InOther(trees, i, x)
  {
    if InOther(trees, i, x) {
      var j :| 0 <= j < |trees| && j != i && x in Addrs(trees[j]);
      TreeMember(k, sz, trees[j], j, x);
    }
  }

  lemma {:induction false} InTreesUpdate(trees: seq<Trie>, i: nat, t: Trie, x: int)
    requires i < |trees| && !InOther(trees, i, x)
    ensures Addrs(t) == Addrs(trees[i]) + {x} ==> InTrees(trees[i := t]) == InTrees(trees) + {x}
    ensures Addrs(t) == Addrs(trees[i]) - {x} ==> InTrees(trees[i := t]) == InTrees(trees) - {x}
  {
    SplitTrees(trees, i);
    SplitTrees(trees[i := t], i);
    OthersUpdate(trees, i, t);
  }

  lemma {:induction false} OthersUpdate(trees: seq<Trie>, i: nat, t: Trie)
    requires i < |trees|
    ensures Others(trees[i := t], i) == Others(trees, i)
  {
    var ts := trees[i := t];
    forall a ensures InOther(ts, i, a) <==> InOther(trees, i, a) {
      if InOther(trees, i, a) {
        var j :| 0 <= j < |trees| && j != i && a in Addrs(trees[j]);
        assert a in Addrs(ts[j]);
      }
    }
    forall a | InOther(ts, i, a) ensures a in InTrees(ts) && a in InTrees(trees) {
      var j :| 0 <= j < |trees| && j != i && a in Addrs(ts[j]);
      assert a in Addrs(trees[j]);
    }
  }

  ghost function Others(trees: seq<Trie>, i: nat): set<int> {
    set a | a in InTrees(trees) && InOther(trees, i, a)
  }

  ghost predicate InOther(trees: seq<Trie>, i: nat, a: int) {
    exists j | 0 <= j < |trees| && j != i :: a in Addrs(trees[j])
  }

  lemma {:induction false} SplitTrees(trees: seq<Trie>, i: nat)
    requires i < |trees|
    ensures InTrees(trees) == Others(trees, i) + Addrs(trees[i])
  {
    forall a ensures a in InTrees(trees) <==> a in Others(trees, i) || a in Addrs(trees[i]) {
      if a in InTrees(trees) {
        var j :| 0 <= j < |trees| && a in Addrs(trees[j]);
        if j != i { assert InOther(trees, i, a); }
      }
    }
  }

  // ----- the two ends of the insertion walk --------------------------------------------------

  ghost predicate Inserted(k: Links, sz: map<int, int>, t: Trie, i: nat, x: int, s: nat, k': Links) {
    var u := Insert(t, x, s, Width(i));
    && Rep(k', sz, u, TreeBinAt(i), i)
    && Ptr(u) == (if t.Empty? then x else Ptr(t))
    && Only(k, k', Addrs(t) + {x})
  }

  // Where the walk stands: at node `Sub(t, path)`, with the rest of the insertion to do below.
  ghost predicate Walking(t: Trie, i: nat, path: seq<bool>, lo: nat, w: nat, x: int, s: nat) {
    && Walk(t, path, lo, w, s) && w + |path| == Width(i)
    && Insert(t, x, s, Width(i)) == Replace(t, path, Insert(Sub(t, path), x, s, w))
  }

  lemma {:induction false} EndAtLeaf(k: Links, sz: map<int, int>, t: Trie, i: nat, path: seq<bool>, lo: nat, w: nat,
        x: int, s: nat)
    requires i < NTREEBINS && TreeBin(k, sz, t, i) && x > 0 && x !in Addrs(t) && Rd(sz, x) == s
    requires Walking(t, i, path, lo, w, x, s) && w > 0 && Sub(t, path).size != s
    requires Child(Sub(t, path), HasBit(s, w - 1)).Empty?
    ensures Inserted(k, sz, t, i, x, s, AttachLeaf(Prepared(k, x, i), Ptr(Sub(t, path)), HasBit(s, w - 1), x))
  {
    var b := HasBit(s, w - 1);
    var sub := Sub(t, path);
    SubRep(k, sz, t, TreeBinAt(i), i, path);
    AttachLeafRep(k, sz, sub, ParentAt(t, TreeBinAt(i), path), i, b, x, s);
    assert Insert(sub, x, s, w) == WithChild(sub, b, Node([x], s, Empty, Empty));
    assert Ptr(sub) in sub.ring;
    ReplaceRep(k, sz, AttachLeaf(Prepared(k, x, i), Ptr(sub), b, x), t, TreeBinAt(i), i, path, Insert(sub, x, s, w));
  }

  lemma {:induction false} EndAtRing(k: Links, sz: map<int, int>, t: Trie, i: nat, path: seq<bool>, lo: nat, w: nat,
        x: int, s: nat)
    requires i < NTREEBINS && TreeBin(k, sz, t, i) && x > 0 && x !in Addrs(t) && Rd(sz, x) == s
    requires Walking(t, i, path, lo, w, x, s) && Sub(t, path).size == s
    ensures Inserted(k, sz, t, i, x, s, AttachRing(Prepared(k, x, i), Ptr(Sub(t, path)), x))
  {
    var sub := Sub(t, path);
    SubRep(k, sz, t, TreeBinAt(i), i, path);
    AttachRingRep(k, sz, sub, ParentAt(t, TreeBinAt(i), path), i, x);
    ReplaceRep(k, sz, AttachRing(Prepared(k, x, i), Ptr(sub), x), t, TreeBinAt(i), i, path, Insert(sub, x, s, w));
  }

  lemma {:induction false} WalkOn(t: Trie, i: nat, path: seq<bool>, lo: nat, w: nat, x: int, s: Word)
    requires i < NTREEBINS && Walking(t, i, path, lo, w, x, s) && Sub(t, path).size != s
    ensures 0 < w && w + |path| == Width(i)
    ensures TopBit(Shl(s, LeftShift(i) + |path|)) == (if HasBit(s, w - 1) then 1 else 0)
    ensures var b := HasBit(s, w - 1);
            Child(Sub(t, path), b).Node? ==>
              && ValidPath(t, path + [b])
              && Walking(t, i, path + [b], if b then lo + Pow2(w - 1) else lo, w - 1, x, s)
              && Sub(t, path + [b]) == Child(Sub(t, path), b)
  {
    WalkStep(t, path, lo, w, s);
    LevelDigit(s, i, w);
    WalkInsert(t, path, lo, w, x, s);
  }

  lemma {:induction false} WalkStart(k: Links, sz: map<int, int>, t: Trie, i: nat, x: int, s: nat)
    requires i < NTREEBINS && TreeBin(k, sz, t, i) && t.Node?
    requires Aligned(Base(i), Width(i)) && Base(i) <= s < Base(i) + Pow2(Width(i))
    ensures ValidPath(t, []) && Sub(t, []) == t && Walking(t, i, [], Base(i), Width(i), x, s)
  {
  }

  // What the fields of a tree node say about the node.
  lemma {:induction false} NodePtrs(k: Links, sz: map<int, int>, t: Trie, i: nat, path: seq<bool>)
    requires TreeBin(k, sz, t, i) && ValidPath(t, path) && Sub(t, path).Node?
    ensures var n := Sub(t, path);
            && Ptr(n) > 0 && Ptr(n) in Addrs(t) && Rd(sz, Ptr(n)) == n.size
            && Kid(k, Ptr(n), false) == Ptr(n.left) && Kid(k, Ptr(n), true) == Ptr(n.right)
            && (n.left.Empty? <==> Ptr(n.left) == 0) && (n.right.Empty? <==> Ptr(n.right) == 0)
  {
    SubRep(k, sz, t, TreeBinAt(i), i, path);
    var n := Sub(t, path);
    PtrOf(k, sz, n.left, Ptr(n), i);
    PtrOf(k, sz, n.right, Ptr(n), i);
    assert Ptr(n) in n.ring;
  }
}

// Positions inside a tree bin.  A path is the list of child choices from the
// root; the loops of the allocator walk down one path and then rewrite the
// memory at its end.
module Paths {
  import opened Words
  import opened TreeIndex
  import opened Tries
  import opened Links

  ghost predicate ValidPath(t: Trie, path: seq<bool>)
    decreases path
  {
    path == [] || (t.Node? && ValidPath(Child(t, path[0]), path[1..]))
  }

  ghost function Sub(t: Trie, path: seq<bool>): Trie
    requires ValidPath(t, path)
    decreases path
  {
    if path == [] then t else Sub(Child(t, path[0]), path[1..])
  }

  ghost function Replace(t: Trie, path: seq<bool>, u: Trie): Trie
    requires ValidPath(t, path)
    decreases path
  {
    if path == [] then u
    else WithChild(t, path[0], Replace(Child(t, path[0]), path[1..], u))
  }

  // The parent pointer of the node at the end of the path.
  ghost function ParentAt(t: Trie, p: int, path: seq<bool>): int
    requires ValidPath(t, path)
    decreases path
  {
    if path == [] then p else ParentAt(Child(t, path[0]), Ptr(t), path[1..])
  }

  lemma {:induction false} SubSnoc(t: Trie, p: int, path: seq<bool>, b: bool)
    requires ValidPath(t, path) && Sub(t, path).Node?
    ensures ValidPath(t, path + [b])
    ensures Sub(t, path + [b]) == Child(Sub(t, path), b)
    ensures ParentAt(t, p, path + [b]) == Ptr(Sub(t, path))
    decreases path
  {
    if path == [] {
      assert (path + [b])[1..] == [];
    } else {
      assert (path + [b])[1..] == path[1..] + [b];
      SubSnoc(Child(t, path[0]), Ptr(t), path[1..], b);
    }
  }

  lemma {:induction false} ReplaceSnoc(t: Trie, path: seq<bool>, b: bool, u: Trie)
    requires ValidPath(t, path) && Sub(t, path).Node?
    ensures ValidPath(t, path + [b])
    ensures Replace(t, path + [b], u) == Replace(t, path, WithChild(Sub(t, path), b, u))
    decreases path
  {
    SubSnoc(t, 0, path, b);
    if path == [] {
      assert (path + [b])[1..] == [];
    } else {
      assert (path + [b])[1..] == path[1..] + [b];
      ReplaceSnoc(Child(t, path[0]), path[1..], b, u);
    }
  }

  lemma {:induction false} ReplaceSub(t: Trie, path: seq<bool>)
    requires ValidPath(t, path)
    ensures Replace(t, path, Sub(t, path)) == t
    decreases path
  {
    if path != [] { ReplaceSub(Child(t, path[0]), path[1..]); }
  }

  // What holds of the whole memory tree holds of the part below a path.
  lemma {:induction false} SubRep(k: Links, sz: map<int, int>, t: Trie, p: int, bin: int, path: seq<bool>)
    requires ValidPath(t, path) && Rep(k, sz, t, p, bin)
    ensures Rep(k, sz, Sub(t, path), ParentAt(t, p, path), bin)
    ensures Addrs(Sub(t, path)) <= Addrs(t)
    ensures Distinct(t) ==> Distinct(Sub(t, path))
    decreases path
  {
    if path != [] {
      SubRep(k, sz, Child(t, path[0]), Ptr(t), bin, path[1..]);
    }
  }

  lemma {:induction false} SubSizes(t: Trie, path: seq<bool>, s: nat)
    requires ValidPath(t, path) && s in Sizes(Sub(t, path))
    ensures s in Sizes(t)
    decreases path
  {
    if path != [] {
      SubSizes(Child(t, path[0]), path[1..], s);
    }
  }

  lemma {:induction false} WithChildRep(k: Links, sz: map<int, int>, k': Links, t: Trie, p: int, bin: int, b: bool,
        c: Trie)
    requires t.Node? && Distinct(t) && Rep(k, sz, t, p, bin)
    requires SameOn(k, k', Members(t.ring)) && SameOn(k, k', Addrs(Child(t, !b)))
    requires Ptr(c) == Ptr(Child(t, b)) && Rep(k', sz, c, Ptr(t), bin)
    ensures Rep(k', sz, WithChild(t, b, c), p, bin)
  {
    NodeFrame(k, sz, k', sz, t, p, bin);
    RepFrame(k, sz, k', sz, Child(t, !b), Ptr(t), bin);
    var r := WithChild(t, b, c);
    assert NodeRep(k', sz, r, p, bin);
  }

  // Rewriting the memory of one subtree, root pointer kept, rewrites the tree.
  lemma {:induction false} ReplaceRep(k: Links, sz: map<int, int>, k': Links, t: Trie, p: int, bin: int,
        path: seq<bool>, u: Trie)
    requires ValidPath(t, path) && Distinct(t) && Rep(k, sz, t, p, bin)
    requires SameOn(k, k', Addrs(t) - Addrs(Sub(t, path)))
    requires Ptr(u) == Ptr(Sub(t, path)) && Rep(k', sz, u, ParentAt(t, p, path), bin)
    ensures Rep(k', sz, Replace(t, path, u), p, bin)
    ensures Ptr(Replace(t, path, u)) == Ptr(t)
    decreases path
  {
    if path != [] {
      var b := path[0];
      var c := Child(t, b);
      SubRep(k, sz, c, Ptr(t), bin, path[1..]);
      ReplaceRep(k, sz, k', c, Ptr(t), bin, path[1..], u);
      WithChildRep(k, sz, k', t, p, bin, b, Replace(c, path[1..], u));
    }
  }

  // ----- values: replacing a subtree by one with fewer chunks ------------------------------

  lemma NodeHasSize(t: Trie)
    ensures t.Node? ==> t.size in Sizes(t)
  {
  }

  lemma {:induction false} ReplaceShape(t: Trie, path: seq<bool>, u: Trie, lo: nat, w: nat)
    requires ValidPath(t, path) && Shape(t, lo, w) && Sizes(u) <= Sizes(Sub(t, path))
    requires forall lo', w' | Shape(Sub(t, path), lo', w') :: Shape(u, lo', w')
    ensures Shape(Replace(t, path, u), lo, w)
    ensures Sizes(Replace(t, path, u)) <= Sizes(t)
    decreases path
  {
    if path != [] {
      if w == 0 {
        assert path[1..] == [] && Sub(t, path).Empty?;
        NodeHasSize(u);
      } else {
        var lo' := if path[0] then lo + Pow2(w - 1) else lo;
        ReplaceShape(Child(t, path[0]), path[1..], u, lo', w - 1);
      }
    }
  }

  lemma {:induction false} ReplaceAddrs(t: Trie, path: seq<bool>, u: Trie)
    requires ValidPath(t, path) && Distinct(t) && Distinct(u) && Addrs(u) <= Addrs(Sub(t, path))
    ensures Distinct(Replace(t, path, u))
    ensures Addrs(Sub(t, path)) <= Addrs(t)
    ensures Addrs(Replace(t, path, u)) == Addrs(t) - (Addrs(Sub(t, path)) - Addrs(u))
    decreases path
  {
    if path != [] {
      var c := Child(t, path[0]);
      ReplaceAddrs(c, path[1..], u);
      DistinctWithChild(t, path[0], Replace(c, path[1..], u), {});
    }
  }

  // Every chunk of a tree is on the ring of one of its nodes; `q` and `b` are the
  // path of that node's parent and the side it hangs on.
  lemma {:induction false} FindPath(t: Trie, x: int) returns (path: seq<bool>, q: seq<bool>, b: bool)
    requires x in Addrs(t)
    ensures ValidPath(t, path) && Sub(t, path).Node? && x in Sub(t, path).ring
    ensures path != [] ==> path == q + [b] && ValidPath(t, q) && Sub(t, q).Node?
    decreases t
  {
    if x in t.ring {
      path, q, b := [], [], false;
    } else {
      var b0 := x in Addrs(t.right);
      var rest, q', b' := FindPath(Child(t, b0), x);
      path := [b0] + rest;
      assert path[1..] == rest;
      if rest == [] {
        q, b := [], b0;
        assert Sub(t, q) == t;
      } else {
        q, b := [b0] + q', b';
        assert q[1..] == q';
      }
    }
  }

  // ----- removing one chunk ----------------------------------------------------------------

  function IndexOf(r: seq<int>, x: int): (j: nat)
    requires x in r
    ensures j < |r| && r[j] == x
  {
    if r[0] == x then 0 else IndexOf(r[1..], x) + 1
  }

  // The node without the chunk `x` of its ring.
  function RemoveNode(t: Trie, x: int): Trie
    requires t.Node? && x in t.ring
  {
    if t.ring[0] == x then RemoveRoot(t)
    else t.(ring := DropAt(t.ring, IndexOf(t.ring, x)))
  }

  lemma {:induction false} RemoveNodeShape(t: Trie, x: int, lo: nat, w: nat)
    requires t.Node? && x in t.ring && Shape(t, lo, w)
    ensures Shape(RemoveNode(t, x), lo, w)
  {
    if t.ring[0] == x { RemoveRootShape(t, lo, w); }
  }

  lemma {:induction false} DropAtMembers(r: seq<int>, j: nat)
    requires j < |r| && NoDup(r)
    ensures NoDup(DropAt(r, j)) && Members(DropAt(r, j)) == Members(r) - {r[j]}
  {
    assert r == r[..j] + [r[j]] + r[j + 1..];
  }

  lemma {:induction false} RemoveNodeAddrs(t: Trie, x: int)
    requires t.Node? && x in t.ring && Distinct(t)
    ensures Distinct(RemoveNode(t, x)) && Addrs(RemoveNode(t, x)) == Addrs(t) - {x}
  {
    if t.ring[0] == x {
      RemoveRootAddrs(t);
    } else {
      DropAtMembers(t.ring, IndexOf(t.ring, x));
    }
  }

  lemma {:induction false} LastLeafSizes(t: Trie)
    requires t.Node?
    ensures Sizes(DropLastLeaf(t)) <= Sizes(t) && LastLeaf(t).size in Sizes(t)
    decreases t
  {
    if t.right.Node? {
      LastLeafSizes(t.right);
    } else if t.left.Node? {
      LastLeafSizes(t.left);
    }
  }

  lemma {:induction false} RemoveNodeSizes(t: Trie, x: int)
    requires t.Node? && x in t.ring
    ensures Sizes(RemoveNode(t, x)) <= Sizes(t)
  {
    if t.ring[0] == x && |t.ring| == 1 {
      if t.right.Node? {
        LastLeafSizes(t.right);
      } else if t.left.Node? {
        LastLeafSizes(t.left);
      }
    }
  }

  // Removing a chunk keeps the trie invariant and takes out exactly that chunk.
  lemma {:induction false} RemoveCorrect(t: Trie, path: seq<bool>, x: int, lo: nat, w: nat)
    requires ValidPath(t, path) && Sub(t, path).Node? && x in Sub(t, path).ring
    requires Shape(t, lo, w) && Distinct(t)
    ensures var r := Replace(t, path, RemoveNode(Sub(t, path), x));
            && Shape(r, lo, w) && Distinct(r)
            && Sizes(r) <= Sizes(t) && Addrs(r) == Addrs(t) - {x}
  {
    var sub := Sub(t, path);
    SubDistinct(t, path);
    RemoveNodeAddrs(sub, x);
    RemoveNodeSizes(sub, x);
    forall lo', w' | Shape(sub, lo', w') ensures Shape(RemoveNode(sub, x), lo', w') {
      RemoveNodeShape(sub, x, lo', w');
    }
    ReplaceShape(t, path, RemoveNode(sub, x), lo, w);
    ReplaceAddrs(t, path, RemoveNode(sub, x));
    assert x in Addrs(sub);
  }

  lemma {:induction false} SubDistinct(t: Trie, path: seq<bool>)
    requires ValidPath(t, path) && Distinct(t)
    ensures Distinct(Sub(t, path)) && Addrs(Sub(t, path)) <= Addrs(t)
    decreases path
  {
    if path != [] { SubDistinct(Child(t, path[0]), path[1..]); }
  }

  // ----- the walk of insert_large_chunk ------------------------------------------------------

  // The node at the end of `path` covers the 2^w sizes from `lo`, among them `s`.
  ghost predicate Walk(t: Trie, path: seq<bool>, lo: nat, w: nat, s: nat) {
    && ValidPath(t, path) && Sub(t, path).Node?
    && Shape(Sub(t, path), lo, w) && Aligned(lo, w) && lo <= s < lo + Pow2(w)
  }

  lemma {:induction false} WalkStep(t: Trie, path: seq<bool>, lo: nat, w: nat, s: nat)
    requires Walk(t, path, lo, w, s) && Sub(t, path).size != s
    ensures w > 0
    ensures var b := HasBit(s, w - 1);
            && ValidPath(t, path + [b]) && Sub(t, path + [b]) == Child(Sub(t, path), b)
            && (Sub(t, path + [b]).Node? ==>
                  Walk(t, path + [b], if b then lo + Pow2(w - 1) else lo, w - 1, s))
  {
    if w > 0 {
      DigitSplits(s, lo, w);
      HalvesAligned(lo, w);
      SubSnoc(t, 0, path, HasBit(s, w - 1));
    }
  }

  lemma {:induction false} WalkInsert(t: Trie, path: seq<bool>, lo: nat, w: nat, x: int, s: nat)
    requires Walk(t, path, lo, w, s) && Sub(t, path).size != s && w > 0
    ensures var b := HasBit(s, w - 1);
            && ValidPath(t, path + [b])
            && Replace(t, path, Insert(Sub(t, path), x, s, w))
               == Replace(t, path + [b], Insert(Child(Sub(t, path), b), x, s, w - 1))
  {
    var b := HasBit(s, w - 1);
    ReplaceSnoc(t, path, b, Insert(Child(Sub(t, path), b), x, s, w - 1));
  }
}

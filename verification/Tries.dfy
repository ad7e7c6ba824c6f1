// The value of one tree bin: a bitwise trie keyed on chunk sizes.  Chunks of
// one size form a ring whose first element is the tree node; the others hang
// off it.
module Tries {
  import opened Words
  import opened TreeIndex

  datatype Trie = Empty | Node(ring: seq<int>, size: nat, left: Trie, right: Trie)

  // The pointer held in a bin or a child field.
  function Ptr(t: Trie): int {
    if t.Node? && |t.ring| > 0 then t.ring[0] else 0
  }

  function Child(t: Trie, b: bool): Trie
    requires t.Node?
  {
    if b then t.right else t.left
  }

  function WithChild(t: Trie, b: bool, c: Trie): Trie
    requires t.Node?
  {
    if b then t.(right := c) else t.(left := c)
  }

  ghost function Sizes(t: Trie): set<nat> {
    if t.Empty? then {} else {t.size} + Sizes(t.left) + Sizes(t.right)
  }

  ghost function Members(s: seq<int>): set<int> {
    set a | a in s
  }

  ghost function Addrs(t: Trie): set<int> {
    if t.Empty? then {} else Members(t.ring) + Addrs(t.left) + Addrs(t.right)
  }

  // The tree members of all sizes.
  ghost function Tops(t: Trie): set<int> {
    if t.Empty? then {} else (if |t.ring| > 0 then {t.ring[0]} else {}) + Tops(t.left) + Tops(t.right)
  }

  ghost predicate NoDup(s: seq<int>) {
    forall i, j | 0 <= i < j < |s| :: s[i] != s[j]
  }

  // The trie invariant: sizes lie in [lo, lo + 2^w), the next digit of a size
  // chooses the subtree, and no size occurs twice.
  ghost predicate Shape(t: Trie, lo: nat, w: nat)
    decreases t
  {
    t.Node? ==>
      && |t.ring| > 0
      && lo <= t.size < lo + Pow2(w)
      && t.size !in Sizes(t.left)
      && t.size !in Sizes(t.right)
      && (if w == 0 then t.left.Empty? && t.right.Empty?
          else Shape(t.left, lo, w - 1) && Shape(t.right, lo + Pow2(w - 1), w - 1))
  }

  // No chunk occurs twice.
  ghost predicate Distinct(t: Trie) {
    t.Node? ==>
      && NoDup(t.ring)
      && Members(t.ring) !! Addrs(t.left) !! Addrs(t.right)
      && Distinct(t.left) && Distinct(t.right)
  }

  // One level of the trie invariant, taken apart and put together.
  lemma {:induction false} ShapeTop(t: Trie, lo: nat, w: nat)
    requires t.Node? && Shape(t, lo, w)
    ensures |t.ring| > 0 && lo <= t.size < lo + Pow2(w) && t.size !in Sizes(t.left) && t.size !in Sizes(t.right)
    ensures w > 0 ==> Shape(t.left, lo, w - 1) && Shape(t.right, lo + Pow2(w - 1), w - 1)
    ensures w == 0 ==> t.left.Empty? && t.right.Empty? && Pow2(w) == 1
  {
  }

  lemma {:induction false} ShapeOf(t: Trie, lo: nat, w: nat)
    requires t.Node? && |t.ring| > 0 && lo <= t.size < lo + Pow2(w) && w > 0
    requires t.size !in Sizes(t.left) && t.size !in Sizes(t.right)
    requires Shape(t.left, lo, w - 1) && Shape(t.right, lo + Pow2(w - 1), w - 1)
    ensures Shape(t, lo, w)
  {
    hide Pow2, Sizes;
  }

  // ----- ranges ------------------------------------------------------------------

  lemma {:induction false} SizesInRange(t: Trie, lo: nat, w: nat, s: nat)
    requires Shape(t, lo, w) && s in Sizes(t)
    ensures lo <= s < lo + Pow2(w)
    decreases t
  {
    if s != t.size {
      if s in Sizes(t.left) {
        SizesInRange(t.left, lo, w - 1, s);
      } else {
        SizesInRange(t.right, lo + Pow2(w - 1), w - 1, s);
      }
    }
  }

  // Every left size is below every right size.
  lemma {:induction false} LeftBelowRight(t: Trie, lo: nat, w: nat, a: nat, b: nat)
    requires t.Node? && Shape(t, lo, w) && a in Sizes(t.left) && b in Sizes(t.right)
    ensures a < b
  {
    SizesInRange(t.left, lo, w - 1, a);
    SizesInRange(t.right, lo + Pow2(w - 1), w - 1, b);
  }

  // ----- insertion ------------------------------------------------------------------

  // `x` joins the ring of its size behind the tree node, or becomes a new leaf
  // where the digits of its size lead.
  function Insert(t: Trie, x: int, s: nat, w: nat): (r: Trie)
    decreases t
  {
    if t.Empty? then Node([x], s, Empty, Empty)
    else if t.size == s then
      if |t.ring| == 0 then t.(ring := [x]) else t.(ring := [t.ring[0], x] + t.ring[1..])
    else if w == 0 then t
    else
      var b := HasBit(s, w - 1);
      WithChild(t, b, Insert(Child(t, b), x, s, w - 1))
  }

  // Insertion keeps the trie invariant and adds exactly the size `s`.
  lemma {:induction false} InsertShape(t: Trie, x: int, s: nat, lo: nat, w: nat)
    requires Shape(t, lo, w) && Aligned(lo, w) && lo <= s < lo + Pow2(w)
    ensures Shape(Insert(t, x, s, w), lo, w)
    ensures Sizes(Insert(t, x, s, w)) == Sizes(t) + {s}
    decreases t
  {
    if t.Node? && t.size != s {
      DigitSplits(s, lo, w);
      HalvesAligned(lo, w);
      if HasBit(s, w - 1) {
        InsertShape(t.right, x, s, lo + Pow2(w - 1), w - 1);
        assert Insert(t, x, s, w) == t.(right := Insert(t.right, x, s, w - 1));
      } else {
        InsertShape(t.left, x, s, lo, w - 1);
        assert Insert(t, x, s, w) == t.(left := Insert(t.left, x, s, w - 1));
      }
    }
  }

  // Insertion adds exactly the chunk `x`.
  lemma {:induction false} InsertAddrs(t: Trie, x: int, s: nat, lo: nat, w: nat)
    requires Shape(t, lo, w) && Aligned(lo, w) && lo <= s < lo + Pow2(w)
    ensures Addrs(Insert(t, x, s, w)) == Addrs(t) + {x}
    decreases t
  {
    if t.Empty? {
      assert Members([x]) == {x};
    } else if t.size == s {
      RingInsertMembers(t.ring, x);
    } else {
      DigitSplits(s, lo, w);
      HalvesAligned(lo, w);
      if HasBit(s, w - 1) {
        InsertAddrs(t.right, x, s, lo + Pow2(w - 1), w - 1);
        assert Insert(t, x, s, w) == t.(right := Insert(t.right, x, s, w - 1));
      } else {
        InsertAddrs(t.left, x, s, lo, w - 1);
        assert Insert(t, x, s, w) == t.(left := Insert(t.left, x, s, w - 1));
      }
    }
  }

  lemma RingInsertMembers(r: seq<int>, x: int)
    requires |r| > 0
    ensures Members([r[0], x] + r[1..]) == Members(r) + {x}
  {
    assert r == [r[0]] + r[1..];
  }

  lemma RingInsertNoDup(r: seq<int>, x: int)
    requires |r| > 0 && NoDup(r) && x !in r
    ensures NoDup([r[0], x] + r[1..])
  {
    var q := [r[0], x] + r[1..];
    forall i, j | 0 <= i < j < |q| ensures q[i] != q[j] {
      assert q[j] == x || q[j] == r[j - 1];
    }
  }

  lemma {:induction false} DistinctWithChild(t: Trie, b: bool, c: Trie, added: set<int>)
    requires t.Node? && Distinct(t) && Distinct(c)
    requires added !! Addrs(t) && Addrs(c) <= Addrs(Child(t, b)) + added
    ensures Distinct(WithChild(t, b, c))
  {
  }

  lemma {:induction false} DistinctRing(t: Trie, x: int)
    requires t.Node? && |t.ring| > 0 && Distinct(t) && x !in Addrs(t)
    ensures Distinct(t.(ring := [t.ring[0], x] + t.ring[1..]))
  {
    hide NoDup;
    assert x !in t.ring;
    RingInsertMembers(t.ring, x);
    RingInsertNoDup(t.ring, x);
  }

  lemma SingleDistinct(x: int, s: nat)
    ensures Distinct(Node([x], s, Empty, Empty))
  {
  }

  lemma {:induction false} InsertDistinct(t: Trie, x: int, s: nat, lo: nat, w: nat)
    requires Shape(t, lo, w) && Aligned(lo, w) && lo <= s < lo + Pow2(w)
    requires Distinct(t) && x !in Addrs(t)
    ensures Distinct(Insert(t, x, s, w))
    decreases t
  {
    hide Shape, Aligned, HasBit, Pow2, NoDup;
    if t.Node? { ShapeTop(t, lo, w); }
    if t.Empty? {
      SingleDistinct(x, s);
    } else if t.size == s {
      DistinctRing(t, x);
    } else {
      var b := HasBit(s, w - 1);
      var lo' := if b then lo + Pow2(w - 1) else lo;
      DigitSplits(s, lo, w);
      HalvesAligned(lo, w);
      InsertAddrs(Child(t, b), x, s, lo', w - 1);
      InsertDistinct(Child(t, b), x, s, lo', w - 1);
      DistinctWithChild(t, b, Insert(Child(t, b), x, s, w - 1), {x});
    }
  }

  // ----- removal ----------------------------------------------------------------------

  // The leaf reached by following `child[1]`, or `child[0]` when that is null.
  function LastLeaf(t: Trie): (leaf: Trie)
    requires t.Node?
    ensures leaf.Node? && leaf.left.Empty? && leaf.right.Empty?
  {
    if t.right.Node? then LastLeaf(t.right)
    else if t.left.Node? then LastLeaf(t.left)
    else t
  }

  function DropLastLeaf(t: Trie): Trie
    requires t.Node?
  {
    if t.right.Node? then t.(right := DropLastLeaf(t.right))
    else if t.left.Node? then t.(left := DropLastLeaf(t.left))
    else Empty
  }

  // The node with its tree member removed: another chunk of the same size takes
  // its place, else the last leaf below it, else nothing.
  function RemoveRoot(t: Trie): Trie
    requires t.Node? && |t.ring| > 0
  {
    var n := |t.ring|;
    if n > 1 then t.(ring := [t.ring[n - 1]] + t.ring[1..n - 1])
    else if t.right.Node? then
      var leaf := LastLeaf(t.right);
      Node(leaf.ring, leaf.size, t.left, DropLastLeaf(t.right))
    else if t.left.Node? then
      var leaf := LastLeaf(t.left);
      Node(leaf.ring, leaf.size, DropLastLeaf(t.left), Empty)
    else Empty
  }

  // No size is on both sides of a node.
  lemma {:induction false} SidesApart(t: Trie, lo: nat, w: nat)
    requires t.Node? && Shape(t, lo, w)
    ensures Sizes(t.left) !! Sizes(t.right)
  {
    hide Shape, Pow2;
    forall s | s in Sizes(t.left) && s in Sizes(t.right) ensures false {
      LeftBelowRight(t, lo, w, s, s);
    }
  }

  lemma {:induction false} LastLeafCorrect(t: Trie, lo: nat, w: nat)
    requires t.Node? && Shape(t, lo, w)
    ensures LastLeaf(t).size in Sizes(t) && |LastLeaf(t).ring| > 0
    ensures Shape(DropLastLeaf(t), lo, w)
    ensures Sizes(DropLastLeaf(t)) == Sizes(t) - {LastLeaf(t).size}
    decreases t
  {
    hide Pow2, Shape;
    ShapeTop(t, lo, w);
    if t.right.Node? {
      LastLeafCorrect(t.right, lo + Pow2(w - 1), w - 1);
      SidesApart(t, lo, w);
      ShapeOf(DropLastLeaf(t), lo, w);
    } else if t.left.Node? {
      LastLeafCorrect(t.left, lo, w - 1);
      ShapeOf(DropLastLeaf(t), lo, w);
    } else {
      ShapeEmpty(lo, w);
    }
  }

  lemma ShapeEmpty(lo: nat, w: nat)
    ensures Shape(Empty, lo, w)
  {
  }

  lemma {:induction false} LastLeafAddrs(t: Trie)
    requires t.Node? && Distinct(t)
    ensures Distinct(DropLastLeaf(t)) && NoDup(LastLeaf(t).ring)
    ensures Members(LastLeaf(t).ring) !! Addrs(DropLastLeaf(t))
    ensures Addrs(t) == Members(LastLeaf(t).ring) + Addrs(DropLastLeaf(t))
    decreases t
  {
    if t.right.Node? {
      LastLeafAddrs(t.right);
    } else if t.left.Node? {
      LastLeafAddrs(t.left);
    }
  }

  lemma {:induction false} RemoveRootShape(t: Trie, lo: nat, w: nat)
    requires t.Node? && Shape(t, lo, w)
    ensures Shape(RemoveRoot(t), lo, w)
    ensures Sizes(RemoveRoot(t)) == if |t.ring| > 1 then Sizes(t) else Sizes(t) - {t.size}
  {
    hide Pow2, Shape, LastLeaf, DropLastLeaf;
    ShapeTop(t, lo, w);
    if |t.ring| > 1 {
      RingShape(t, RemoveRoot(t).ring, lo, w);
    } else if t.right.Node? {
      LastLeafCorrect(t.right, lo + Pow2(w - 1), w - 1);
      SizesInRange(t, lo, w, LastLeaf(t.right).size);
      SidesApart(t, lo, w);
      ShapeOf(RemoveRoot(t), lo, w);
    } else if t.left.Node? {
      LastLeafCorrect(t.left, lo, w - 1);
      SizesInRange(t, lo, w, LastLeaf(t.left).size);
      ShapeEmpty(lo + Pow2(w - 1), w - 1);
      ShapeOf(RemoveRoot(t), lo, w);
    } else {
      ShapeEmpty(lo, w);
    }
  }

  lemma {:induction false} RingShape(t: Trie, r: seq<int>, lo: nat, w: nat)
    requires t.Node? && Shape(t, lo, w) && |r| > 0
    ensures Shape(t.(ring := r), lo, w)
  {
    hide Pow2, Sizes;
  }

  // The last chunk of a ring moves to the front, the first one leaves.
  lemma RotateMembers(r: seq<int>)
    requires |r| > 0 && NoDup(r)
    ensures r[0] in Members(r) && (|r| == 1 ==> Members(r) == {r[0]})
    ensures |r| > 1 ==> Members([r[|r| - 1]] + r[1..|r| - 1]) == Members(r) - {r[0]}
    ensures |r| > 1 ==> NoDup([r[|r| - 1]] + r[1..|r| - 1])
  {
    if |r| > 1 {
      assert r == [r[0]] + r[1..|r| - 1] + [r[|r| - 1]];
    } else {
      assert r == [r[0]];
    }
  }

  lemma {:induction false} RemoveRootAddrs(t: Trie)
    requires t.Node? && |t.ring| > 0 && Distinct(t)
    ensures Distinct(RemoveRoot(t))
    ensures Addrs(RemoveRoot(t)) == Addrs(t) - {t.ring[0]}
  {
    hide NoDup, Members, LastLeaf, DropLastLeaf;
    var n := |t.ring|;
    RotateMembers(t.ring);
    if n == 1 {
      if t.right.Node? {
        LastLeafAddrs(t.right);
      } else if t.left.Node? {
        LastLeafAddrs(t.left);
      }
    }
  }
}

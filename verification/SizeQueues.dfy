// The chunks of one size in the tree bins, oldest first. The tree holds the oldest; a new
// one joins its ring right behind it, and the one before it in the ring takes its place,
// so that chunks of a size are served in the order in which they came.
module SizeQueues {
  import opened Words
  import opened TreeIndex
  import opened Tries
  import opened Links
  import opened Paths
  import opened Bins
  import opened BestFit

  function Reversed(r: seq<int>): (q: seq<int>)
    ensures |q| == |r|
  {
    if r == [] then [] else Reversed(r[1..]) + [r[0]]
  }

  // The ring by age: the tree member, then the others from the last to the first.
  function ByAge(ring: seq<int>): (q: seq<int>)
    ensures |q| == |ring|
  {
    if ring == [] then [] else [ring[0]] + Reversed(ring[1..])
  }

  lemma {:induction false} ReversedAt(r: seq<int>, j: nat)
    requires j < |r|
    ensures Reversed(r)[|r| - 1 - j] == r[j]
  {
    if j > 0 {
      ReversedAt(r[1..], j - 1);
    }
  }

  lemma {:induction false} ByAgeAt(ring: seq<int>, j: nat)
    requires j < |ring|
    ensures ByAge(ring)[if j == 0 then 0 else |ring| - j] == ring[j]
  {
    if j > 0 {
      ReversedAt(ring[1..], j - 1);
    }
  }

  // A new chunk is the youngest.
  lemma {:induction false} JoinsLast(ring: seq<int>, x: int)
    requires ring != []
    ensures ByAge([ring[0], x] + ring[1..]) == ByAge(ring) + [x]
  {
    var r := [ring[0], x] + ring[1..];
    assert r[1..] == [x] + ring[1..];
    assert r[1..][1..] == ring[1..];
  }

  // When the tree member leaves, the next oldest takes its place.
  lemma {:induction false} NextLeads(ring: seq<int>)
    requires |ring| > 1
    ensures ByAge([ring[|ring| - 1]] + ring[1..|ring| - 1]) == ByAge(ring)[1..]
  {
    var n := |ring|;
    var r := [ring[n - 1]] + ring[1..n - 1];
    assert r[1..] == ring[1..n - 1];
    ReversedSnoc(ring[1..n - 1], ring[n - 1]);
    assert ring[1..] == ring[1..n - 1] + [ring[n - 1]];
  }

  lemma {:induction false} ReversedSnoc(r: seq<int>, x: int)
    ensures Reversed(r + [x]) == [x] + Reversed(r)
  {
    if r != [] {
      ReversedSnoc(r[1..], x);
      assert (r + [x])[1..] == r[1..] + [x];
    }
  }

  // Taking another one out leaves the order of the rest.
  lemma {:induction false} OtherLeaves(ring: seq<int>, j: nat)
    requires 0 < j < |ring|
    ensures ByAge(DropAt(ring, j)) == DropAt(ByAge(ring), |ring| - j) && ByAge(ring)[|ring| - j] == ring[j]
  {
    var d, q := DropAt(ring, j), ByAge(ring);
    var n := |ring|;
    ByAgeAt(ring, j);
    forall i | 0 <= i < n - 1 ensures ByAge(d)[i] == DropAt(q, n - j)[i] {
      if i == 0 {
        assert d[0] == ring[0];
      } else {
        var k := n - 1 - i;
        ByAgeAt(d, k);
        assert d[k] == if k < j then ring[k] else ring[k + 1];
        ByAgeAt(ring, if k < j then k else k + 1);
      }
    }
  }

  // ----- in a trie ---------------------------------------------------------------------------

  function Queue(t: Trie, s: nat): seq<int> {
    if t.Empty? then [] else (if t.size == s then ByAge(t.ring) else []) + Queue(t.left, s) + Queue(t.right, s)
  }

  lemma {:induction false} NoQueue(t: Trie, s: nat)
    requires s !in Sizes(t)
    ensures Queue(t, s) == []
  {
    if t.Node? {
      NoQueue(t.left, s);
      NoQueue(t.right, s);
    }
  }

  // The size of a node is nowhere else, and a size is on one side only.
  lemma {:induction false} OnePlace(t: Trie, lo: nat, w: nat, s: nat)
    requires t.Node? && Shape(t, lo, w)
    ensures t.size == s ==> Queue(t.left, s) == [] && Queue(t.right, s) == [] && Queue(t, s) == ByAge(t.ring)
    ensures t.size != s ==> Queue(t, s) == Queue(t.left, s) + Queue(t.right, s)
    ensures s in Sizes(t.left) ==> Queue(t.right, s) == [] && t.size != s
    ensures s in Sizes(t.right) ==> Queue(t.left, s) == [] && t.size != s
  {
    hide Shape;
    ShapeTop(t, lo, w);
    SidesApart(t, lo, w);
    if s !in Sizes(t.left) { NoQueue(t.left, s); }
    if s !in Sizes(t.right) { NoQueue(t.right, s); }
  }

  lemma ChildQueue(t: Trie, b: bool, c: Trie, q: nat, added: seq<int>)
    requires t.Node? && Queue(c, q) == Queue(Child(t, b), q) + added
    requires added == [] || b || Queue(t.right, q) == []
    ensures Queue(WithChild(t, b, c), q) == Queue(t, q) + added
  {
    hide ByAge;
    var own := if t.size == q then ByAge(t.ring) else [];
    if b {
      assert Queue(WithChild(t, b, c), q) == own + Queue(t.left, q) + (Queue(t.right, q) + added);
    } else {
      assert Queue(WithChild(t, b, c), q) == own + (Queue(t.left, q) + added) + Queue(t.right, q);
    }
  }

  lemma ChildIs(t: Trie, b: bool)
    requires t.Node?
    ensures Child(t, b) == if b then t.right else t.left
  {
  }

  lemma SingleQueue(x: int, s: nat, q: nat)
    ensures Queue(Node([x], s, Empty, Empty), q) == Queue(Empty, q) + if q == s then [x] else []
  {
    assert [x][1..] == [] && ByAge([x]) == [x];
  }

  // Another ring for the same size.
  lemma {:induction false} RingQueue(t: Trie, r: seq<int>, lo: nat, w: nat, q: nat)
    requires t.Node? && Shape(t, lo, w)
    ensures Queue(t.(ring := r), q) == if q == t.size then ByAge(r) else Queue(t, q)
    ensures q == t.size ==> Queue(t, q) == ByAge(t.ring)
  {
    hide Shape, ByAge;
    OnePlace(t, lo, w, q);
  }

  // Insertion puts the chunk last among those of its size.
  lemma {:induction false} InsertQueue(t: Trie, x: int, s: nat, lo: nat, w: nat, q: nat)
    requires Shape(t, lo, w) && Aligned(lo, w) && lo <= s < lo + Pow2(w)
    ensures Queue(Insert(t, x, s, w), q) == Queue(t, q) + if q == s then [x] else []
    decreases t
  {
    hide Shape, Aligned, HasBit, Pow2, Queue, ByAge, WithChild, Child;
    if t.Empty? {
      SingleQueue(x, s, q);
    } else {
      ShapeTop(t, lo, w);
      if t.size == s {
        RingQueue(t, [t.ring[0], x] + t.ring[1..], lo, w, q);
        JoinsLast(t.ring, x);
      } else {
        var b := HasBit(s, w - 1);
        DigitSplits(s, lo, w);
        HalvesAligned(lo, w);
        var c := if b then t.right else t.left;
        assert c == Child(t, b) by { ChildIs(t, b); }
        InsertQueue(c, x, s, if b then lo + Pow2(w - 1) else lo, w - 1, q);
        if !b {
          NotRight(t, lo, w, s);
        }
        ChildQueue(t, b, Insert(c, x, s, w - 1), q, if q == s then [x] else []);
      }
    }
  }

  lemma {:induction false} NotRight(t: Trie, lo: nat, w: nat, s: nat)
    requires t.Node? && w > 0 && Shape(t, lo, w) && s < lo + Pow2(w - 1)
    ensures Queue(t.right, s) == []
  {
    if s in Sizes(t.right) {
      SizesInRange(t.right, lo + Pow2(w - 1), w - 1, s);
    }
    NoQueue(t.right, s);
  }

  lemma {:induction false} LastLeafQueue(t: Trie, lo: nat, w: nat, q: nat)
    requires t.Node? && Shape(t, lo, w)
    ensures Queue(DropLastLeaf(t), q) == if q == LastLeaf(t).size then [] else Queue(t, q)
    ensures Queue(t, LastLeaf(t).size) == ByAge(LastLeaf(t).ring)
    decreases t
  {
    hide Shape, Pow2, ByAge;
    ShapeTop(t, lo, w);
    OnePlace(t, lo, w, q);
    OnePlace(t, lo, w, LastLeaf(t).size);
    if t.right.Node? {
      LastLeafCorrect(t.right, lo + Pow2(w - 1), w - 1);
      LastLeafQueue(t.right, lo + Pow2(w - 1), w - 1, q);
    } else if t.left.Node? {
      LastLeafCorrect(t.left, lo, w - 1);
      LastLeafQueue(t.left, lo, w - 1, q);
    }
  }

  // The oldest of its size leaves the tree: the next oldest of that size leads, and the
  // other sizes are not touched, though one of them may have moved up.
  lemma {:induction false} RemoveRootQueue(t: Trie, lo: nat, w: nat, q: nat)
    requires t.Node? && Shape(t, lo, w)
    ensures Queue(t, t.size) != [] && Queue(t, t.size)[0] == t.ring[0]
    ensures Queue(RemoveRoot(t), q) == if q == t.size then Queue(t, q)[1..] else Queue(t, q)
  {
    hide Shape, Pow2, ByAge, LastLeaf, DropLastLeaf;
    ShapeTop(t, lo, w);
    RingQueue(t, t.ring, lo, w, q);
    RingQueue(t, t.ring, lo, w, t.size);
    ByAgeAt(t.ring, 0);
    if |t.ring| > 1 {
      RingQueue(t, RemoveRoot(t).ring, lo, w, q);
      NextLeads(t.ring);
    } else if t.right.Node? || t.left.Node? {
      LeafMovesUp(t, lo, w, q);
    }
  }

  lemma {:induction false} LeafMovesUp(t: Trie, lo: nat, w: nat, q: nat)
    requires t.Node? && Shape(t, lo, w) && |t.ring| == 1 && (t.right.Node? || t.left.Node?)
    ensures Queue(RemoveRoot(t), q) == if q == t.size then [] else Queue(t, q)
  {
    hide Shape, Pow2, ByAge, LastLeaf, DropLastLeaf;
    ShapeTop(t, lo, w);
    OnePlace(t, lo, w, q);
    if t.right.Node? {
      LastLeafCorrect(t.right, lo + Pow2(w - 1), w - 1);
      LastLeafQueue(t.right, lo + Pow2(w - 1), w - 1, q);
      OnePlace(t, lo, w, LastLeaf(t.right).size);
    } else {
      LastLeafCorrect(t.left, lo, w - 1);
      LastLeafQueue(t.left, lo, w - 1, q);
      OnePlace(t, lo, w, LastLeaf(t.left).size);
    }
  }

  // Chunk x left queue q, wherever it stood.
  ghost predicate Leaves(q: seq<int>, after: seq<int>, x: int) {
    exists j :: 0 <= j < |q| && q[j] == x && after == DropAt(q, j) && (q[0] == x ==> j == 0)
  }

  lemma FrontLeaves(q: seq<int>, after: seq<int>, x: int)
    requires Leaves(q, after, x) && q[0] == x
    ensures after == q[1..]
  {
  }

  lemma {:induction false} RemoveNodeQueue(t: Trie, x: int, lo: nat, w: nat, q: nat)
    requires t.Node? && Shape(t, lo, w) && x in t.ring
    ensures if q == t.size then Leaves(Queue(t, q), Queue(RemoveNode(t, x), q), x)
            else Queue(RemoveNode(t, x), q) == Queue(t, q)
  {
    hide Shape, Pow2, ByAge, Queue, RemoveRoot;
    if t.ring[0] == x {
      RemoveRootQueue(t, lo, w, q);
      if q == t.size {
        assert DropAt(Queue(t, q), 0) == Queue(t, q)[1..];
      }
    } else {
      var j := IndexOf(t.ring, x);
      OtherLeaves(t.ring, j);
      ByAgeAt(t.ring, 0);
      RingQueue(t, DropAt(t.ring, j), lo, w, q);
    }
  }

  // Down the path to a node: only that node's size is touched.
  lemma {:induction false} ReplaceQueue(t: Trie, path: seq<bool>, u: Trie, lo: nat, w: nat, q: nat)
    requires ValidPath(t, path) && Shape(t, lo, w) && Sub(t, path).Node? && Sizes(u) <= Sizes(Sub(t, path))
    requires q != Sub(t, path).size ==> Queue(u, q) == Queue(Sub(t, path), q)
    ensures if q == Sub(t, path).size
            then Queue(t, q) == Queue(Sub(t, path), q) && Queue(Replace(t, path, u), q) == Queue(u, q)
            else Queue(Replace(t, path, u), q) == Queue(t, q)
    decreases path
  {
    hide Shape, Pow2, ByAge;
    if path != [] {
      var b := path[0];
      ShapeTop(t, lo, w);
      OnePlace(t, lo, w, q);
      SubSizes(Child(t, b), path[1..]);
      ReplaceQueue(Child(t, b), path[1..], u, if b then lo + Pow2(w - 1) else lo, w - 1, q);
    }
  }

  lemma {:induction false} SubSizes(t: Trie, path: seq<bool>)
    requires ValidPath(t, path) && Sub(t, path).Node?
    ensures Sub(t, path).size in Sizes(t) && t.Node?
    decreases path
  {
    if path != [] {
      SubSizes(Child(t, path[0]), path[1..]);
    }
  }

  lemma {:induction false} RemovedQueue(t: Trie, path: seq<bool>, x: int, lo: nat, w: nat, q: nat)
    requires ValidPath(t, path) && Shape(t, lo, w) && Sub(t, path).Node? && x in Sub(t, path).ring
    ensures var n := Sub(t, path);
            if q == n.size then Leaves(Queue(n, q), Queue(RemoveNode(n, x), q), x)
            else Queue(RemoveNode(n, x), q) == Queue(n, q)
    decreases path
  {
    hide Shape, Pow2, Queue, RemoveNode;
    if path == [] {
      RemoveNodeQueue(t, x, lo, w, q);
    } else {
      SubSizes(Child(t, path[0]), path[1..]);
      ShapeTop(t, lo, w);
      RemovedQueue(Child(t, path[0]), path[1..], x, if path[0] then lo + Pow2(w - 1) else lo, w - 1, q);
    }
  }

  function Rest(q: seq<int>): seq<int> {
    if q == [] then [] else q[1..]
  }

  // ----- over all tree bins ----------------------------------------------------------------------

  // The free chunks of size s that wait in the tree bins, the oldest in front.
  ghost function WaitingIn(trees: seq<Trie>, s: Word): seq<int> {
    var i := ComputeTreeIndex(s);
    if i < |trees| then Queue(trees[i], s) else []
  }

  lemma {:induction false} InsertWaiting(k: Links, sz: map<int, int>, trees: seq<Trie>, x: int, s: Word, q: Word)
    requires s >= MIN_LARGE_SIZE && ComputeTreeIndex(s) < |trees|
    requires TreeBin(k, sz, trees[ComputeTreeIndex(s)], ComputeTreeIndex(s))
    ensures var i := ComputeTreeIndex(s);
            WaitingIn(trees[i := Insert(trees[i], x, s, Width(i))], q)
            == WaitingIn(trees, q) + if q == s then [x] else []
  {
    hide ComputeTreeIndex, Shape, Rep, Distinct, Queue;
    var i := ComputeTreeIndex(s);
    BinRange(s);
    InsertQueue(trees[i], x, s, Base(i), Width(i), q);
  }

  lemma {:induction false} RemoveWaiting(k: Links, sz: map<int, int>, trees: seq<Trie>, i: nat, path: seq<bool>,
        x: int, q: Word)
    requires i < |trees| && TreeBin(k, sz, trees[i], i)
    requires ValidPath(trees[i], path) && Sub(trees[i], path).Node? && x in Sub(trees[i], path).ring
    ensures var ts := trees[i := Replace(trees[i], path, RemoveNode(Sub(trees[i], path), x))];
            if q == Sub(trees[i], path).size then Leaves(WaitingIn(trees, q), WaitingIn(ts, q), x)
            else WaitingIn(ts, q) == WaitingIn(trees, q)
  {
    hide ComputeTreeIndex, Shape, Rep, Distinct, Queue, RemoveNode, Leaves, Replace, Sub, ValidPath;
    var n := Sub(trees[i], path);
    RemovedQueue(trees[i], path, x, Base(i), Width(i), q);
    RemoveNodeSizes(n, x);
    ReplaceQueue(trees[i], path, RemoveNode(n, x), Base(i), Width(i), q);
    SubSizes(trees[i], path);
  }

  // Chunks wait in the queue of their size.
  lemma {:induction false} QueueSizes(k: Links, sz: map<int, int>, t: Trie, p: int, bin: int, s: nat, a: int)
    requires Rep(k, sz, t, p, bin) && a in Queue(t, s)
    ensures Rd(sz, a) == s
  {
    if t.size == s && a in ByAge(t.ring) {
      AgedMember(t.ring, a);
    } else if a in Queue(t.left, s) {
      QueueSizes(k, sz, t.left, Ptr(t), bin, s, a);
    } else {
      QueueSizes(k, sz, t.right, Ptr(t), bin, s, a);
    }
  }

  lemma {:induction false} AgedMember(ring: seq<int>, a: int)
    requires a in ByAge(ring)
    ensures a in ring
  {
    if a != ring[0] {
      ReversedMember(ring[1..], a);
    }
  }

  lemma {:induction false} ReversedMember(r: seq<int>, a: int)
    requires a in Reversed(r)
    ensures a in r
  {
    if a != r[0] {
      ReversedMember(r[1..], a);
    }
  }

  // The tree member of a size is the oldest of that size.
  lemma {:induction false} TopLeads(t: Trie, lo: nat, w: nat, v: int) returns (s: nat)
    requires Shape(t, lo, w) && v in Tops(t)
    ensures s in Sizes(t) && Queue(t, s) != [] && Queue(t, s)[0] == v
  {
    hide Shape, Pow2, ByAge;
    ShapeTop(t, lo, w);
    if v == t.ring[0] {
      s := t.size;
      OnePlace(t, lo, w, s);
      ByAgeAt(t.ring, 0);
    } else if v in Tops(t.left) {
      s := TopLeads(t.left, lo, w - 1, v);
      OnePlace(t, lo, w, s);
    } else {
      s := TopLeads(t.right, lo + Pow2(w - 1), w - 1, v);
      OnePlace(t, lo, w, s);
    }
  }

  lemma {:induction false} OldestLeads(k: Links, sz: map<int, int>, trees: seq<Trie>, v: int)
    requires Trees(k, sz, trees) && v in AllTops(trees)
    ensures 0 <= Rd(sz, v) < MODULUS
    ensures WaitingIn(trees, Rd(sz, v)) != [] && WaitingIn(trees, Rd(sz, v))[0] == v && v in InTrees(trees)
  {
    hide ComputeTreeIndex, Shape, Queue, Tops, Addrs;
    var i :| 0 <= i < |trees| && v in Tops(trees[i]);
    assert TreeBin(k, sz, trees[i], i);
    var s := TopLeads(trees[i], Base(i), Width(i), v);
    QueueSizes(k, sz, trees[i], TreeBinAt(i), i, s, v);
    TopsAreMembers(trees[i]);
  }

  lemma TopsAreMembers(t: Trie)
    ensures Tops(t) <= Addrs(t)
  {
  }

  lemma {:induction false} NodeSize(k: Links, sz: map<int, int>, t: Trie, i: nat, path: seq<bool>, x: int)
    requires TreeBin(k, sz, t, i) && ValidPath(t, path) && Sub(t, path).Node? && x in Sub(t, path).ring
    ensures Rd(sz, x) == Sub(t, path).size < MODULUS
  {
    hide ComputeTreeIndex, Shape, Distinct;
    SubRep(k, sz, t, TreeBinAt(i), i, path);
    SubSizes(t, path);
    var n := Sub(t, path);
    var j :| 0 <= j < |n.ring| && n.ring[j] == x;
  }
}

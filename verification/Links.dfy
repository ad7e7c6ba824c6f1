// The link fields of free chunks, as memory: each field is a map from chunk
// addresses to pointers.  `Ring` says that the fd/bk fields of some chunks form
// one circular doubly linked list, `Rep` that the fields below a pointer store
// a trie.
module Links {
  import opened Words
  import opened Tries

  datatype Links = Links(fd: map<int, int>, bk: map<int, int>,
                         c0: map<int, int>, c1: map<int, int>,
                         parent: map<int, int>, index: map<int, int>)

  // A field that was never written holds an unknown value, here 0.
  function Rd(m: map<int, int>, a: int): int {
    if a in m then m[a] else 0
  }

  function Kid(k: Links, a: int, b: bool): int {
    if b then Rd(k.c1, a) else Rd(k.c0, a)
  }

  function SetKid(k: Links, a: int, b: bool, v: int): Links {
    if b then k.(c1 := k.c1[a := v]) else k.(c0 := k.c0[a := v])
  }

  // Two memories hold the same links at `a`.
  ghost predicate Same(k: Links, k': Links, a: int) {
    && Rd(k'.fd, a) == Rd(k.fd, a) && Rd(k'.bk, a) == Rd(k.bk, a)
    && Rd(k'.c0, a) == Rd(k.c0, a) && Rd(k'.c1, a) == Rd(k.c1, a)
    && Rd(k'.parent, a) == Rd(k.parent, a) && Rd(k'.index, a) == Rd(k.index, a)
  }

  ghost predicate SameOn(k: Links, k': Links, s: set<int>) {
    forall a | a in s :: Same(k, k', a)
  }

  // The two memories differ at most on `s`.
  ghost predicate Only(k: Links, k': Links, s: set<int>) {
    forall a | a !in s :: Same(k, k', a)
  }

  // ----- rings ---------------------------------------------------------------------

  ghost predicate Linked(k: Links, a: int, b: int) {
    Rd(k.fd, a) == b && Rd(k.bk, b) == a
  }

  // The element after position `i`, the first one after the last.
  function Succ(r: seq<int>, i: nat): int
    requires i < |r|
  {
    if i + 1 < |r| then r[i + 1] else r[0]
  }

  ghost predicate Ring(k: Links, r: seq<int>) {
    && |r| > 0
    && NoDup(r)
    && (forall i {:trigger Succ(r, i)} {:trigger r[i]} | 0 <= i < |r| :: Linked(k, r[i], Succ(r, i)))
  }

  // Insert `x` behind `t`.
  function LinkAfter(k: Links, t: int, x: int): Links {
    var f := Rd(k.fd, t);
    k.(fd := k.fd[t := x][x := f], bk := k.bk[f := x][x := t])
  }

  // Take `x` out of its ring.
  function Unlink(k: Links, x: int): Links {
    var f, b := Rd(k.fd, x), Rd(k.bk, x);
    k.(bk := k.bk[f := b], fd := k.fd[b := f])
  }

  function DropAt(r: seq<int>, j: nat): seq<int>
    requires j < |r|
  {
    r[..j] + r[j + 1..]
  }

  lemma {:induction false} SuccInjective(r: seq<int>, i: nat, j: nat)
    requires NoDup(r) && i < |r| && j < |r| && i != j
    ensures r[i] != r[j] && Succ(r, i) != Succ(r, j)
  {
  }

  // What inserting `x` behind `t` links, and what it leaves linked.
  lemma LinkAfterNew(k: Links, t: int, x: int)
    requires x != t && x != Rd(k.fd, t)
    ensures Linked(LinkAfter(k, t, x), t, x) && Linked(LinkAfter(k, t, x), x, Rd(k.fd, t))
  {
  }

  lemma LinkAfterKeeps(k: Links, t: int, x: int, a: int, b: int)
    requires Linked(k, a, b) && a != t && a != x && b != x && b != Rd(k.fd, t)
    ensures Linked(LinkAfter(k, t, x), a, b)
  {
  }

  lemma InsertSucc(r: seq<int>, x: int, i: nat)
    requires |r| > 0 && i < |r| + 1
    ensures var q := [r[0], x] + r[1..];
            && q[i] == (if i == 0 then r[0] else if i == 1 then x else r[i - 1])
            && Succ(q, i) == (if i == 0 then x else Succ(r, i - 1))
  {
  }

  lemma {:induction false} RingLink(k: Links, r: seq<int>, i: nat)
    requires Ring(k, r) && i < |r|
    ensures NoDup(r) && Linked(k, r[i], Succ(r, i)) && Succ(r, i) in r
  {
    assert Linked(k, r[i], Succ(r, i));
  }

  lemma {:induction false} LinkAfterAt(k: Links, r: seq<int>, x: int, i: nat)
    requires Ring(k, r) && x !in r && i < |r| + 1
    ensures var q := [r[0], x] + r[1..]; Linked(LinkAfter(k, r[0], x), q[i], Succ(q, i))
  {
    hide Ring, LinkAfter, Succ, NoDup;
    NonEmpty(k, r);
    RingLink(k, r, 0);
    InsertSucc(r, x, i);
    if i >= 2 {
      RingLink(k, r, i - 1);
      SuccInjective(r, i - 1, 0);
      LinkAfterKeeps(k, r[0], x, r[i - 1], Succ(r, i - 1));
    } else {
      LinkAfterNew(k, r[0], x);
    }
  }

  lemma NonEmpty(k: Links, r: seq<int>)
    requires Ring(k, r)
    ensures |r| > 0
  {
  }

  // Inserting behind the first element of a ring.
  lemma {:induction false} LinkAfterRing(k: Links, r: seq<int>, x: int)
    requires Ring(k, r) && x !in r
    ensures Ring(LinkAfter(k, r[0], x), [r[0], x] + r[1..])
  {
    RingInsertNoDup(r, x);
    forall i | 0 <= i < |r| + 1
      ensures var q := [r[0], x] + r[1..]; Linked(LinkAfter(k, r[0], x), q[i], Succ(q, i))
    {
      LinkAfterAt(k, r, x, i);
    }
  }

  lemma {:induction false} LinkAfterOnly(k: Links, r: seq<int>, x: int)
    requires Ring(k, r)
    ensures Only(k, LinkAfter(k, r[0], x), Members(r) + {x})
  {
    assert Linked(k, r[0], Succ(r, 0));
  }

  // The position before `j`.
  function Before(r: seq<int>, j: nat): (p: nat)
    requires j < |r|
    ensures p < |r| && Succ(r, p) == r[j]
  {
    if j == 0 then |r| - 1 else j - 1
  }

  lemma UnlinkJoins(k: Links, a: int, x: int, b: int)
    requires Linked(k, a, x) && Linked(k, x, b)
    ensures Linked(Unlink(k, x), a, b)
  {
  }

  lemma UnlinkKeepsLink(k: Links, x: int, a: int, b: int)
    requires Linked(k, a, b) && a != Rd(k.bk, x) && b != Rd(k.fd, x)
    ensures Linked(Unlink(k, x), a, b)
  {
  }

  lemma {:induction false} UnlinkAt(k: Links, r: seq<int>, j: nat, i: nat)
    requires Ring(k, r) && j < |r| && |r| > 1 && i < |r| - 1
    ensures var q := DropAt(r, j); Linked(Unlink(k, r[j]), q[i], Succ(q, i))
  {
    hide Ring, Unlink, Succ, NoDup;
    var q := DropAt(r, j);
    var n := if i < j then i else i + 1;
    var m := Before(r, j);
    RingLink(k, r, m);
    RingLink(k, r, j);
    RingLink(k, r, n);
    DropSucc(r, j, i);
    if n != m {
      SuccInjective(r, n, j);
      SuccInjective(r, n, m);
      UnlinkKeepsLink(k, r[j], r[n], Succ(r, n));
    } else {
      UnlinkJoins(k, r[m], r[j], Succ(r, j));
    }
  }

  lemma {:induction false} DropSucc(r: seq<int>, j: nat, i: nat)
    requires j < |r| && |r| > 1 && i < |r| - 1
    ensures var n := if i < j then i else i + 1;
            Succ(DropAt(r, j), i) == if n == Before(r, j) then Succ(r, j) else Succ(r, n)
  {
  }

  // Taking one element out of a ring of at least two.
  lemma {:induction false} UnlinkRing(k: Links, r: seq<int>, j: nat)
    requires Ring(k, r) && j < |r| && |r| > 1
    ensures Ring(Unlink(k, r[j]), DropAt(r, j))
  {
    forall i | 0 <= i < |r| - 1
      ensures var q := DropAt(r, j); Linked(Unlink(k, r[j]), q[i], Succ(q, i))
    {
      UnlinkAt(k, r, j, i);
    }
  }

  lemma {:induction false} UnlinkOnly(k: Links, r: seq<int>, j: nat)
    requires Ring(k, r) && j < |r| && |r| > 1
    ensures Only(k, Unlink(k, r[j]), Members(r) - {r[j]})
  {
    var m := Before(r, j);
    assert Linked(k, r[m], Succ(r, m)) && Linked(k, r[j], Succ(r, j));
  }

  lemma {:induction false} RotateRing(k: Links, r: seq<int>)
    requires Ring(k, r)
    ensures Ring(k, [r[|r| - 1]] + r[..|r| - 1])
  {
    var q := [r[|r| - 1]] + r[..|r| - 1];
    forall i | 0 <= i < |q| ensures Linked(k, q[i], Succ(q, i)) {
      var n := if i == 0 then |r| - 1 else i - 1;
      assert q[i] == r[n] && Succ(q, i) == Succ(r, n);
    }
  }

  lemma {:induction false} RingFrame(k: Links, k': Links, r: seq<int>)
    requires Ring(k, r) && SameOn(k, k', Members(r))
    ensures Ring(k', r)
  {
    forall i | 0 <= i < |r| ensures Linked(k', r[i], Succ(r, i)) {
      assert Linked(k, r[i], Succ(r, i));
      assert r[i] in Members(r) && Succ(r, i) in Members(r);
    }
  }

  // ----- tries in memory -----------------------------------------------------------------

  // A chunk of the given size and bin number.
  ghost predicate Tagged(k: Links, sz: map<int, int>, a: int, size: int, bin: int) {
    a > 0 && Rd(sz, a) == size && Rd(k.index, a) == bin
  }

  // The parent and child fields of a chunk.
  ghost predicate Hooks(k: Links, a: int, p: int, l: int, r: int) {
    Rd(k.parent, a) == p && Rd(k.c0, a) == l && Rd(k.c1, a) == r
  }

  // One tree node and the chunks on its ring, without its subtrees.
  ghost predicate NodeRep(k: Links, sz: map<int, int>, t: Trie, p: int, bin: int)
    requires t.Node?
  {
    && Ring(k, t.ring)
    && (forall i {:trigger t.ring[i]} | 0 <= i < |t.ring| :: Tagged(k, sz, t.ring[i], t.size, bin))
    && Hooks(k, t.ring[0], p, Ptr(t.left), Ptr(t.right))
    && (forall i {:trigger t.ring[i]} | 0 < i < |t.ring| :: Hooks(k, t.ring[i], 0, 0, 0))
  }

  // The memory below pointer `Ptr(t)` stores `t`; the parent pointer of its root
  // is `p` and every chunk carries bin number `bin`.
  ghost predicate Rep(k: Links, sz: map<int, int>, t: Trie, p: int, bin: int)
    decreases t
  {
    t.Node? ==>
      && NodeRep(k, sz, t, p, bin)
      && Rep(k, sz, t.left, t.ring[0], bin)
      && Rep(k, sz, t.right, t.ring[0], bin)
  }

  lemma NodeFrame(k: Links, sz: map<int, int>, k': Links, sz': map<int, int>, t: Trie, p: int, bin: int)
    requires t.Node? && NodeRep(k, sz, t, p, bin)
    requires SameOn(k, k', Members(t.ring))
    requires forall a | a in Members(t.ring) :: Rd(sz', a) == Rd(sz, a)
    ensures NodeRep(k', sz', t, p, bin)
  {
    hide Ring, Tagged, Hooks;
    NonEmpty(k, t.ring);
    RingFrame(k, k', t.ring);
    forall i | 0 <= i < |t.ring| ensures Tagged(k', sz', t.ring[i], t.size, bin) {
      assert t.ring[i] in Members(t.ring);
      MemberFrame(k, sz, k', sz', t.ring[i], t.size, bin);
    }
    forall i | 0 < i < |t.ring| ensures Hooks(k', t.ring[i], 0, 0, 0) {
      assert t.ring[i] in Members(t.ring);
      MemberFrame(k, sz, k', sz', t.ring[i], t.size, bin);
    }
    MemberFrame(k, sz, k', sz', t.ring[0], t.size, bin);
  }

  lemma MemberFrame(k: Links, sz: map<int, int>, k': Links, sz': map<int, int>, a: int, s: int, bin: int)
    requires Same(k, k', a) && Rd(sz', a) == Rd(sz, a)
    ensures Tagged(k, sz, a, s, bin) ==> Tagged(k', sz', a, s, bin)
    ensures forall p, l, r | Hooks(k, a, p, l, r) :: Hooks(k', a, p, l, r)
  {
  }

  lemma {:induction false} RepFrame(k: Links, sz: map<int, int>, k': Links, sz': map<int, int>, t: Trie, p: int,
        bin: int)
    requires Rep(k, sz, t, p, bin)
    requires SameOn(k, k', Addrs(t))
    requires forall a | a in Addrs(t) :: Rd(sz', a) == Rd(sz, a)
    ensures Rep(k', sz', t, p, bin)
    decreases t
  {
    if t.Node? {
      NodeFrame(k, sz, k', sz', t, p, bin);
      RepFrame(k, sz, k', sz', t.left, t.ring[0], bin);
      RepFrame(k, sz, k', sz', t.right, t.ring[0], bin);
    }
  }

  lemma PtrOf(k: Links, sz: map<int, int>, t: Trie, p: int, bin: int)
    requires Rep(k, sz, t, p, bin)
    ensures Ptr(t) == 0 <==> t.Empty?
    ensures t.Node? ==> |t.ring| > 0 && Ptr(t) == t.ring[0] && t.ring[0] > 0 && Rd(sz, t.ring[0]) == t.size
  {
  }

  lemma {:induction false} RepOfNode(k: Links, sz: map<int, int>, t: Trie, p: int, bin: int)
    requires t.Node? && NodeRep(k, sz, t, p, bin)
    requires Rep(k, sz, t.left, t.ring[0], bin) && Rep(k, sz, t.right, t.ring[0], bin)
    ensures Rep(k, sz, t, p, bin)
  {
  }
}

// Rings of small chunks: inserting behind the bin header and taking chunks out.
module SmallBins {
  import opened Words
  import opened TreeIndex
  import opened Tries
  import opened Links
  import opened Paths
  import opened Bins
  import opened Removal

  // The four assignments of `insert_small_chunk`, `f` being the old first chunk or the header.
  function LinkSmall(k: Links, b: int, f: int, p: int): Links {
    k.(fd := k.fd[b := p][p := f], bk := k.bk[f := p][p := b])
  }

  lemma {:induction false} InsertSmall(k: Links, sz: map<int, int>, list: seq<int>, i: nat, p: int)
    requires i < NSMALLBINS && SmallBin(k, sz, list, i) && p > 0 && p !in list && Rd(sz, p) == 8 * i
    ensures var f := if list == [] then SmallBinAt(i) else Rd(k.fd, SmallBinAt(i));
            var k' := LinkSmall(k, SmallBinAt(i), f, p);
            && SmallBin(k', sz, [p] + list, i) && Only(k, k', Members(list) + {p, SmallBinAt(i)})
            && k'.c0 == k.c0 && k'.c1 == k.c1 && k'.parent == k.parent && k'.index == k.index
  {
    hide Ring, LinkAfter, Only;
    var b := SmallBinAt(i);
    var r := [b] + list;
    if list == [] {
      FirstSmall(k, b, p);
      assert [b] + ([p] + list) == [b, p];
      OnlyMore(k, LinkSmall(k, b, b, p), {b, p}, Members(list) + {p, b});
    } else {
      assert r[0] == b && r[1..] == list;
      LinkAfterRing(k, r, p);
      LinkAfterOnly(k, r, p);
      LinkAfterIs(k, b, p);
      assert [b] + ([p] + list) == [b, p] + list;
      assert Members(r) == Members(list) + {b};
      OnlyMore(k, LinkAfter(k, b, p), Members(r) + {p}, Members(list) + {p, b});
    }
  }

  lemma LinkAfterIs(k: Links, b: int, p: int)
    ensures LinkSmall(k, b, Rd(k.fd, b), p) == LinkAfter(k, b, p)
  {
  }

  lemma {:induction false} FirstSmall(k: Links, b: int, p: int)
    requires b != p
    ensures var k' := LinkSmall(k, b, b, p); Ring(k', [b, p]) && Only(k, k', {b, p})
  {
    var k' := LinkSmall(k, b, b, p);
    forall j | 0 <= j < 2 ensures Linked(k', [b, p][j], Succ([b, p], j)) {
    }
  }

  // First and last links of a bin with chunks.
  lemma {:induction false} SmallEnds(k: Links, sz: map<int, int>, list: seq<int>, i: nat, j: nat)
    requires i < NSMALLBINS && SmallBin(k, sz, list, i) && j < |list|
    ensures Rd(k.fd, SmallBinAt(i)) == list[0]
    ensures Rd(k.fd, list[j]) == Rd(k.bk, list[j]) <==> |list| == 1
    ensures j == 0 ==> Rd(k.bk, list[j]) == SmallBinAt(i)
    ensures list[j] > 0 && Rd(sz, list[j]) == 8 * i
  {
    var r := [SmallBinAt(i)] + list;
    assert Linked(k, r[0], Succ(r, 0));
    assert Linked(k, r[j], Succ(r, j)) && Linked(k, r[j + 1], Succ(r, j + 1));
    assert list[j] == r[j + 1];
    if |list| > 1 && j + 2 < |r| {
      assert r[j] != r[j + 2];
    }
  }

  lemma OnlyMore(k: Links, k': Links, s: set<int>, s': set<int>)
    requires Only(k, k', s) && s <= s'
    ensures Only(k, k', s')
  {
  }

  lemma {:induction false} UnlinkSmall(k: Links, sz: map<int, int>, list: seq<int>, i: nat, j: nat)
    requires i < NSMALLBINS && SmallBin(k, sz, list, i) && j < |list| && |list| > 1
    ensures var k' := Unlink(k, list[j]);
            && SmallBin(k', sz, DropAt(list, j), i) && Only(k, k', Members(list) + {SmallBinAt(i)})
            && k'.c0 == k.c0 && k'.c1 == k.c1 && k'.parent == k.parent && k'.index == k.index
  {
    hide Ring, Unlink, Only;
    var r := [SmallBinAt(i)] + list;
    assert r[j + 1] == list[j];
    UnlinkRing(k, r, j + 1);
    UnlinkOnly(k, r, j + 1);
    UnlinkKeeps(k, list[j]);
    OnlyMore(k, Unlink(k, list[j]), Members(r) - {r[j + 1]}, Members(list) + {SmallBinAt(i)});
    assert DropAt(r, j + 1) == [SmallBinAt(i)] + DropAt(list, j);
    forall n | 0 <= n < |list| - 1 ensures DropAt(list, j)[n] > 0 && Rd(sz, DropAt(list, j)[n]) == 8 * i {
      assert DropAt(list, j)[n] == if n < j then list[n] else list[n + 1];
    }
  }

  lemma SmallMember(k: Links, sz: map<int, int>, list: seq<int>, i: nat, a: int)
    requires SmallBin(k, sz, list, i) && a in list
    ensures a > 0 && Rd(sz, a) == 8 * i
  {
  }

  // Changing one small bin leaves the other bins alone.
  lemma {:induction false} SmallsUpdate(k: Links, sz: map<int, int>, smallmap: Word, small: seq<seq<int>>, k': Links,
        smallmap': Word, i: nat, list: seq<int>, p: int)
    requires SmallsOK(k, sz, smallmap, small) && i < NSMALLBINS && p > 0 && Rd(sz, p) == 8 * i
    requires Only(k, k', Members(small[i]) + {p, SmallBinAt(i)})
    requires SmallBin(k', sz, list, i)
    requires Bits(smallmap') == if list != [] then Bits(smallmap) + {i} else Bits(smallmap) - {i}
    ensures SmallsOK(k', sz, smallmap', small[i := list])
  {
    hide Bits, Only;
    var small' := small[i := list];
    forall j: nat | j < NSMALLBINS ensures SmallSlot(k', sz, smallmap', small'[j], j) {
      assert SmallSlot(k, sz, smallmap, small[j], j);
      assert SmallSlot(k, sz, smallmap, small[i], i);
      if j != i {
        OtherSmall(k, sz, small[i], i, small[j], j, k', p);
      }
    }
  }

  lemma {:induction false} OtherSmall(k: Links, sz: map<int, int>, list: seq<int>, i: nat, other: seq<int>, j: nat,
        k': Links, p: int)
    requires i != j && i < NSMALLBINS && j < NSMALLBINS && SmallBin(k, sz, list, i) && SmallBin(k, sz, other, j)
    requires p > 0 && Rd(sz, p) == 8 * i && Only(k, k', Members(list) + {p, SmallBinAt(i)})
    ensures SmallBin(k', sz, other, j)
  {
    if other != [] {
      var r := [SmallBinAt(j)] + other;
      forall a | a in Members(r) ensures Same(k, k', a) {
        if a != SmallBinAt(j) {
          assert a in other;
          SmallMember(k, sz, other, j, a);
          if a in list { SmallMember(k, sz, list, i, a); }
        } else if a in list {
          SmallMember(k, sz, list, i, a);
        }
      }
      RingFrame(k, k', r);
    }
  }

  // Changing links of small chunks leaves the tree bins alone.
  lemma {:induction false} TreesFrame(k: Links, sz: map<int, int>, treemap: Word, treebins: seq<int>,
        trees: seq<Trie>, k': Links, s: set<int>)
    requires TreesOK(k, sz, treemap, treebins, trees) && Only(k, k', s)
    requires forall a | a in s :: a < 0 || Rd(sz, a) < MIN_LARGE_SIZE
    ensures TreesOK(k', sz, treemap, treebins, trees)
  {
    hide Bits;
    forall i: nat | i < NTREEBINS ensures TreeSlot(k', sz, treemap, treebins[i], trees[i], i) {
      assert TreeSlot(k, sz, treemap, treebins[i], trees[i], i);
      TreeFrame(k, sz, trees[i], i, k', s);
    }
  }

  lemma {:induction false} TreeFrame(k: Links, sz: map<int, int>, t: Trie, i: nat, k': Links, s: set<int>)
    requires TreeBin(k, sz, t, i) && Only(k, k', s)
    requires forall a | a in s :: a < 0 || Rd(sz, a) < MIN_LARGE_SIZE
    ensures TreeBin(k', sz, t, i)
  {
    forall a | a in Addrs(t) ensures Same(k, k', a) {
      TreeMember(k, sz, t, i, a);
    }
    RepFrame(k, sz, k', sz, t, TreeBinAt(i), i);
  }

  lemma {:induction false} SmallSet(k: Links, sz: map<int, int>, list: seq<int>, i: nat, p: int)
    requires SmallBin(k, sz, list, i) && i < NSMALLBINS && p > 0 && Rd(sz, p) == 8 * i
    ensures forall a | a in Members(list) + {p, SmallBinAt(i)} :: a < 0 || Rd(sz, a) < MIN_LARGE_SIZE
  {
  }

  // ----- the union of the small bins ------------------------------------------------------

  ghost predicate InOtherSmall(small: seq<seq<int>>, i: nat, a: int) {
    exists j | 0 <= j < |small| && j != i :: a in small[j]
  }

  lemma {:induction false} NotInOtherSmall(k: Links, sz: map<int, int>, smallmap: Word, small: seq<seq<int>>, i: nat,
        p: int)
    requires SmallsOK(k, sz, smallmap, small) && i < NSMALLBINS && Rd(sz, p) == 8 * i
    ensures !InOtherSmall(small, i, p)
  {
    forall j: nat | j < |small| && j != i ensures p !in small[j] {
      assert SmallSlot(k, sz, smallmap, small[j], j);
      SmallNonMember(k, sz, small[j], j, p);
    }
  }

  lemma SmallNonMember(k: Links, sz: map<int, int>, list: seq<int>, i: nat, a: int)
    requires SmallBin(k, sz, list, i) && Rd(sz, a) != 8 * i
    ensures a !in list
  {
  }

  lemma {:induction false} InSmallsUpdate(small: seq<seq<int>>, i: nat, list: seq<int>, p: int)
    requires i < |small| && !InOtherSmall(small, i, p)
    ensures Members(list) == Members(small[i]) + {p} ==> InSmalls(small[i := list]) == InSmalls(small) + {p}
    ensures Members(list) == Members(small[i]) - {p} ==> InSmalls(small[i := list]) == InSmalls(small) - {p}
  {
    var small' := small[i := list];
    forall a
      ensures a in InSmalls(small) <==> InOtherSmall(small, i, a) || a in Members(small[i])
      ensures a in InSmalls(small') <==> InOtherSmall(small, i, a) || a in Members(list)
    {
      SmallSplit(small, i, a);
      SmallSplit(small', i, a);
      OtherSmallSame(small, i, list, a);
    }
  }

  lemma {:induction false} SmallSplit(small: seq<seq<int>>, i: nat, a: int)
    requires i < |small|
    ensures a in InSmalls(small) <==> InOtherSmall(small, i, a) || a in small[i]
  {
  }

  lemma {:induction false} OtherSmallSame(small: seq<seq<int>>, i: nat, list: seq<int>, a: int)
    requires i < |small|
    ensures InOtherSmall(small[i := list], i, a) <==> InOtherSmall(small, i, a)
  {
    var small' := small[i := list];
    assert forall j | 0 <= j < |small| && j != i :: small'[j] == small[j];
    if InOtherSmall(small, i, a) {
      var j :| 0 <= j < |small| && j != i && a in small[j];
      assert a in small'[j];
    }
  }

  // ----- headers written outside the bins ------------------------------------------------------

  // The sizes of binned chunks did not change.
  lemma {:induction false} SizesFrame(k: Links, sz: map<int, int>, sz': map<int, int>, smallmap: Word,
        small: seq<seq<int>>, treemap: Word, treebins: seq<int>, trees: seq<Trie>)
    requires TreesOK(k, sz, treemap, treebins, trees) && SmallsOK(k, sz, smallmap, small)
    requires forall a | a in InSmalls(small) + InTrees(trees) :: Rd(sz', a) == Rd(sz, a)
    ensures TreesOK(k, sz', treemap, treebins, trees) && SmallsOK(k, sz', smallmap, small)
  {
    hide Bits;
    forall i: nat | i < NTREEBINS ensures TreeSlot(k, sz', treemap, treebins[i], trees[i], i) {
      assert TreeSlot(k, sz, treemap, treebins[i], trees[i], i);
      TreeSizes(k, sz, sz', trees, i);
    }
    forall i: nat | i < NSMALLBINS ensures SmallSlot(k, sz', smallmap, small[i], i) {
      assert SmallSlot(k, sz, smallmap, small[i], i);
      SmallSizes(k, sz, sz', small, i);
    }
  }

  lemma {:induction false} TreeSizes(k: Links, sz: map<int, int>, sz': map<int, int>, trees: seq<Trie>, i: nat)
    requires i < |trees| && TreeBin(k, sz, trees[i], i)
    requires forall a | a in InTrees(trees) :: Rd(sz', a) == Rd(sz, a)
    ensures TreeBin(k, sz', trees[i], i)
  {
    forall a | a in Addrs(trees[i]) ensures Rd(sz', a) == Rd(sz, a) {
      assert a in InTrees(trees);
    }
    RepFrame(k, sz, k, sz', trees[i], TreeBinAt(i), i);
  }

  lemma {:induction false} SmallSizes(k: Links, sz: map<int, int>, sz': map<int, int>, small: seq<seq<int>>, i: nat)
    requires i < |small| && SmallBin(k, sz, small[i], i)
    requires forall a | a in InSmalls(small) :: Rd(sz', a) == Rd(sz, a)
    ensures SmallBin(k, sz', small[i], i)
  {
    forall j | 0 <= j < |small[i]| ensures Rd(sz', small[i][j]) == Rd(sz, small[i][j]) {
      assert small[i][j] in small[i];
      assert small[i][j] in InSmalls(small);
    }
  }

  // ----- members of the small bins ---------------------------------------------------------------

  lemma {:induction false} FindSmall(k: Links, sz: map<int, int>, smallmap: Word, small: seq<seq<int>>, p: int)
    returns (j: nat)
    requires SmallsOK(k, sz, smallmap, small) && p in InSmalls(small)
    ensures var i := Rd(sz, p) / 8;
            && 0 <= i < NSMALLBINS == |small| && Rd(sz, p) == 8 * i && p > 0 && SmallBin(k, sz, small[i], i)
            && j < |small[i]| && small[i][j] == p && i in Bits(smallmap)
  {
    hide Bits;
    var i :| 0 <= i < |small| && p in small[i];
    assert SmallSlot(k, sz, smallmap, small[i], i);
    SmallMember(k, sz, small[i], i, p);
    j :| 0 <= j < |small[i]| && small[i][j] == p;
  }

  lemma {:induction false} SmallOfSize(k: Links, sz: map<int, int>, smallmap: Word, small: seq<seq<int>>, i: nat)
    requires SmallsOK(k, sz, smallmap, small) && i < NSMALLBINS
    ensures |small| == NSMALLBINS && SmallBin(k, sz, small[i], i) && (i in Bits(smallmap) <==> small[i] != [])
  {
    assert SmallSlot(k, sz, smallmap, small[i], i);
  }

  lemma {:induction false} InBin(small: seq<seq<int>>, i: nat, p: int)
    requires i < |small| && p in small[i]
    ensures p in InSmalls(small)
  {
  }

  lemma {:induction false} NoDupList(k: Links, sz: map<int, int>, list: seq<int>, i: nat)
    requires SmallBin(k, sz, list, i)
    ensures NoDup(list)
  {
    if list != [] {
      RingTail(k, SmallBinAt(i), list);
    }
  }

  lemma RingTail(k: Links, h: int, list: seq<int>)
    requires Ring(k, [h] + list)
    ensures NoDup(list)
  {
    hide Linked, Succ;
    var r := [h] + list;
    forall a, b | 0 <= a < b < |list| ensures list[a] != list[b] {
      assert r[a + 1] != r[b + 1];
    }
  }

  // Small bins hold no large chunk and tree bins no small one.
  lemma {:induction false} SmallNotLarge(k: Links, sz: map<int, int>, smallmap: Word, small: seq<seq<int>>,
        treemap: Word, treebins: seq<int>, trees: seq<Trie>)
    requires TreesOK(k, sz, treemap, treebins, trees) && SmallsOK(k, sz, smallmap, small)
    ensures InSmalls(small) !! InTrees(trees)
    ensures forall a | a in InSmalls(small) :: a > 0 && Rd(sz, a) < MIN_LARGE_SIZE
    ensures forall a | a in InTrees(trees) :: a > 0 && MIN_LARGE_SIZE <= Rd(sz, a)
  {
    forall a | a in InSmalls(small) ensures a > 0 && Rd(sz, a) < MIN_LARGE_SIZE {
      var j := FindSmall(k, sz, smallmap, small, a);
    }
    forall a | a in InTrees(trees) ensures a > 0 && MIN_LARGE_SIZE <= Rd(sz, a) {
      var i :| 0 <= i < |trees| && a in Addrs(trees[i]);
      assert TreeSlot(k, sz, treemap, treebins[i], trees[i], i);
      TreeMember(k, sz, trees[i], i, a);
    }
  }

  // ----- the two updates of the small bins ----------------------------------------------------------

  ghost predicate SmallChange(k: Links, sz: map<int, int>, smallmap: Word, small: seq<seq<int>>, treemap: Word,
        treebins: seq<int>, trees: seq<Trie>, k': Links, smallmap': Word, small': seq<seq<int>>, all: set<int>) {
    && SmallsOK(k', sz, smallmap', small') && TreesOK(k', sz, treemap, treebins, trees)
    && InSmalls(small') == all && OnlyChunks(k, k', InSmalls(small) + all)
  }

  lemma {:induction false} SmallInserted(k: Links, sz: map<int, int>, smallmap: Word, small: seq<seq<int>>,
        treemap: Word, treebins: seq<int>, trees: seq<Trie>, i: nat, p: int, f: int, smallmap': Word)
    requires SmallsOK(k, sz, smallmap, small) && TreesOK(k, sz, treemap, treebins, trees)
    requires i < NSMALLBINS && p > 0 && Rd(sz, p) == 8 * i && p !in InSmalls(small)
    requires f == if i in Bits(smallmap) then Rd(k.fd, SmallBinAt(i)) else SmallBinAt(i)
    requires Bits(smallmap') == Bits(smallmap) + {i}
    ensures SmallChange(k, sz, smallmap, small, treemap, treebins, trees,
                        LinkSmall(k, SmallBinAt(i), f, p), smallmap', small[i := [p] + small[i]], InSmalls(small) + {p})
  {
    hide Bits, SmallBin, InSmalls, LinkSmall, TreesOK, Only;
    var k' := LinkSmall(k, SmallBinAt(i), f, p);
    SmallOfSize(k, sz, smallmap, small, i);
    NotInBin(small, i, p);
    InsertSmall(k, sz, small[i], i, p);
    SmallsUpdate(k, sz, smallmap, small, k', smallmap', i, [p] + small[i], p);
    SmallSet(k, sz, small[i], i, p);
    TreesFrame(k, sz, treemap, treebins, trees, k', Members(small[i]) + {p, SmallBinAt(i)});
    NotInOtherSmall(k, sz, smallmap, small, i, p);
    assert Members([p] + small[i]) == Members(small[i]) + {p};
    InSmallsUpdate(small, i, [p] + small[i], p);
    MembersInSmalls(small, i);
    OnlyIsChunks(k, k', Members(small[i]) + {p, SmallBinAt(i)}, InSmalls(small) + (InSmalls(small) + {p}));
  }

  lemma MembersInSmalls(small: seq<seq<int>>, i: nat)
    requires i < |small|
    ensures Members(small[i]) <= InSmalls(small)
  {
    forall a | a in Members(small[i]) ensures a in InSmalls(small) {
      assert a in small[i];
    }
  }

  lemma NotInBin(small: seq<seq<int>>, i: nat, p: int)
    requires i < |small| && p !in InSmalls(small)
    ensures p !in small[i]
  {
  }

  lemma {:induction false} SmallRemoved(k: Links, sz: map<int, int>, smallmap: Word, small: seq<seq<int>>,
        treemap: Word, treebins: seq<int>, trees: seq<Trie>, i: nat, j: nat, k': Links, smallmap': Word)
    requires SmallsOK(k, sz, smallmap, small) && TreesOK(k, sz, treemap, treebins, trees)
    requires i < NSMALLBINS && j < |small[i]|
    requires if |small[i]| == 1 then k' == k && Bits(smallmap') == Bits(smallmap) - {i}
             else k' == Unlink(k, small[i][j]) && smallmap' == smallmap
    ensures SmallChange(k, sz, smallmap, small, treemap, treebins, trees,
                        k', smallmap', small[i := DropAt(small[i], j)], InSmalls(small) - {small[i][j]})
  {
    hide Bits, SmallBin, InSmalls, Unlink, TreesOK, Only;
    var p := small[i][j];
    SmallOfSize(k, sz, smallmap, small, i);
    SmallEnds(k, sz, small[i], i, j);
    NoDupList(k, sz, small[i], i);
    DropAtMembers(small[i], j);
    NotInOtherSmall(k, sz, smallmap, small, i, p);
    InSmallsUpdate(small, i, DropAt(small[i], j), p);
    SmallSet(k, sz, small[i], i, p);
    if |small[i]| == 1 {
      assert DropAt(small[i], j) == [];
      EmptySmall(k, sz, i);
      SameOnly(k, Members(small[i]) + {p, SmallBinAt(i)});
    } else {
      UnlinkSmall(k, sz, small[i], i, j);
      OnlyMore(k, k', Members(small[i]) + {SmallBinAt(i)}, Members(small[i]) + {p, SmallBinAt(i)});
    }
    SmallsUpdate(k, sz, smallmap, small, k', smallmap', i, DropAt(small[i], j), p);
    TreesFrame(k, sz, treemap, treebins, trees, k', Members(small[i]) + {p, SmallBinAt(i)});
    MembersInSmalls(small, i);
    OnlyIsChunks(k, k', Members(small[i]) + {p, SmallBinAt(i)}, InSmalls(small) + (InSmalls(small) - {p}));
  }

  lemma EmptySmall(k: Links, sz: map<int, int>, i: nat)
    ensures SmallBin(k, sz, [], i)
  {
  }

  lemma SameOnly(k: Links, s: set<int>)
    ensures Only(k, k, s)
  {
  }
}

// The kernel heap seen as a list of blocks that tile an arena, and the law
// that makes kmalloc.c predictable: the list is determined by the live blocks.
module Blocks {

  // sizeof(struct kmalloc_chunk)
  const KUNIT := 16
  const INT_MAX := 0x7fff_ffff
  // The largest request whose rounded size is still a positive int.
  const MAX_REQUEST := 0x7fff_ffe0

  datatype Block = Block(addr: int, len: int, used: bool)

  // The value of a C int, given the mathematical result of the arithmetic.
  function Signed(n: int): (r: int)
    ensures -INT_MAX - 1 <= r <= INT_MAX && (r - n) % 0x1_0000_0000 == 0
    ensures -INT_MAX - 1 <= n <= INT_MAX ==> r == n
  {
    var u := n % 0x1_0000_0000;
    if u <= INT_MAX then u else u - 0x1_0000_0000
  }

  // The size kmalloc looks for: rounded up to a multiple of the header size,
  // plus one header.
  function Request(length: int): int
  {
    Signed(Signed((length + KUNIT - 1) / KUNIT * KUNIT) + KUNIT)
  }

  // The rounding is sound exactly on these lengths: outside them the sum wraps
  // or the size does not even cover a header.
  lemma RequestCovers(length: int)
    requires -INT_MAX - 1 <= length <= INT_MAX
    ensures KUNIT <= Request(length) && length + KUNIT <= Request(length) <==> -15 <= length <= MAX_REQUEST
    ensures -15 <= length <= MAX_REQUEST ==> Request(length) < length + 2 * KUNIT && Request(length) % KUNIT == 0
  {
    var r := (length + KUNIT - 1) / KUNIT * KUNIT;
    if length > MAX_REQUEST {
      if length <= 0x7fff_fff0 {
        assert r == 0x7fff_fff0;
      } else {
        assert r == INT_MAX + 1;
      }
    } else {
      assert Signed(r) == r && Signed(r + KUNIT) == r + KUNIT;
    }
  }

  // ---------------------------------------------------------------- layouts

  ghost predicate Tiles(b: seq<Block>, lo: int, hi: int)
  {
    && |b| > 0 && b[0].addr == lo && b[|b| - 1].addr + b[|b| - 1].len == hi
    && (forall i :: 0 <= i < |b| ==> b[i].len >= KUNIT)
    && (forall i, j :: 0 <= i && j == i + 1 && j < |b| ==> b[j].addr == b[i].addr + b[i].len)
  }

  ghost predicate NoFreePair(b: seq<Block>)
  {
    forall i, j :: 0 <= i && j == i + 1 && j < |b| ==> b[i].used || b[j].used
  }

  ghost predicate Canonical(b: seq<Block>, lo: int, hi: int)
  {
    Tiles(b, lo, hi) && NoFreePair(b)
  }

  ghost function Live(b: seq<Block>): set<Block>
  {
    set x | x in b && x.used
  }

  function Total(b: seq<Block>): int
  {
    if b == [] then 0 else Total(b[..|b| - 1]) + b[|b| - 1].len
  }

  lemma {:induction false} Ordered(b: seq<Block>, lo: int, hi: int, i: nat, j: nat)
    requires Tiles(b, lo, hi) && i < j < |b|
    ensures b[i].addr + b[i].len <= b[j].addr
    decreases j
  {
    var k := j - 1;
    assert b[j].addr == b[k].addr + b[k].len;
    if i < k {
      Ordered(b, lo, hi, i, k);
    }
  }

  lemma {:induction false} InArena(b: seq<Block>, lo: int, hi: int, i: nat)
    requires Tiles(b, lo, hi) && i < |b|
    ensures lo <= b[i].addr && b[i].addr + b[i].len <= hi
  {
    if 0 < i {
      Ordered(b, lo, hi, 0, i);
    }
    if i < |b| - 1 {
      Ordered(b, lo, hi, i, |b| - 1);
    }
  }

  // A block's address finds it.
  lemma {:induction false} SameAddress(b: seq<Block>, lo: int, hi: int, i: nat, j: nat)
    requires Tiles(b, lo, hi) && i < |b| && j < |b| && b[i].addr == b[j].addr
    ensures i == j
  {
    if i < j {
      Ordered(b, lo, hi, i, j);
    } else if j < i {
      Ordered(b, lo, hi, j, i);
    }
  }

  // Live payloads lie in the arena and do not meet.
  lemma {:induction false} PayloadsDisjoint(b: seq<Block>, lo: int, hi: int, x: Block, y: Block)
    requires Tiles(b, lo, hi) && x in Live(b) && y in Live(b) && x != y
    ensures x.addr + x.len <= y.addr || y.addr + y.len <= x.addr
    ensures lo + KUNIT <= x.addr + KUNIT <= x.addr + x.len <= hi
  {
    var i: nat :| i < |b| && b[i] == x;
    var j: nat :| j < |b| && b[j] == y;
    InArena(b, lo, hi, i);
    if i < j {
      Ordered(b, lo, hi, i, j);
    } else {
      Ordered(b, lo, hi, j, i);
    }
  }

  // Chunk lengths add up to the arena.
  lemma {:induction false} TotalIsArena(b: seq<Block>, lo: int, hi: int)
    requires Tiles(b, lo, hi)
    ensures Total(b) == hi - lo
    decreases |b|
  {
    var m := |b| - 1;
    var c := b[..m];
    if m == 0 {
      assert c == [];
    } else {
      assert c[m - 1] == b[m - 1];
      assert b[m].addr == b[m - 1].addr + b[m - 1].len;
      assert Tiles(c, lo, b[m].addr);
      TotalIsArena(c, lo, b[m].addr);
    }
  }

  // ---------------------------------------------------------------- canonical form

  // If two layouts agree below k, a free block at k of the first is no shorter
  // than the one of the second.
  lemma {:induction false} FreeNotShorter(a: seq<Block>, b: seq<Block>, lo: int, hi: int, k: nat)
    requires Canonical(a, lo, hi) && Canonical(b, lo, hi) && Live(a) <= Live(b)
    requires k < |a| && k < |b| && a[k].addr == b[k].addr && !a[k].used && !b[k].used
    ensures b[k].len <= a[k].len
  {
    if a[k].len < b[k].len {
      InArena(b, lo, hi, k);
      var m := k + 1;
      assert m < |a|;
      assert a[m].used && a[m].addr == a[k].addr + a[k].len;
      assert a[m] in Live(a);
      assert a[m] in b;
      var j: nat :| j < |b| && b[j] == a[m];
      if j < k {
        Ordered(b, lo, hi, j, k);
      } else if k < j {
        Ordered(b, lo, hi, k, j);
      }
    }
  }

  lemma {:induction false} UsedAt(a: seq<Block>, b: seq<Block>, lo: int, hi: int, k: nat)
    requires Tiles(b, lo, hi) && Live(a) <= Live(b)
    requires k < |a| && k < |b| && a[k].addr == b[k].addr && a[k].used
    ensures a[k] == b[k]
  {
    assert a[k] in Live(a);
    assert a[k] in b;
    var j: nat :| j < |b| && b[j] == a[k];
    SameAddress(b, lo, hi, j, k);
  }

  lemma {:induction false} AgreeTo(a: seq<Block>, b: seq<Block>, lo: int, hi: int, k: nat)
    requires Canonical(a, lo, hi) && Canonical(b, lo, hi) && Live(a) == Live(b)
    requires k <= |a| && k <= |b|
    ensures forall i :: 0 <= i < k ==> a[i] == b[i]
    decreases k
  {
    if k > 0 {
      var m := k - 1;
      AgreeTo(a, b, lo, hi, m);
      if m > 0 {
        assert a[m - 1] == b[m - 1];
      }
      assert a[m].addr == b[m].addr;
      if a[m].used {
        UsedAt(a, b, lo, hi, m);
      } else if b[m].used {
        UsedAt(b, a, lo, hi, m);
      } else {
        FreeNotShorter(a, b, lo, hi, m);
        FreeNotShorter(b, a, lo, hi, m);
      }
    }
  }

  // Two canonical layouts of one arena with the same live blocks are the same list.
  lemma {:induction false} Determined(a: seq<Block>, b: seq<Block>, lo: int, hi: int)
    requires Canonical(a, lo, hi) && Canonical(b, lo, hi) && Live(a) == Live(b)
    ensures a == b
  {
    var k := if |a| < |b| then |a| else |b|;
    AgreeTo(a, b, lo, hi, k);
    assert a[k - 1] == b[k - 1];
    if k < |a| {
      Ordered(a, lo, hi, k - 1, |a| - 1);
    } else if k < |b| {
      Ordered(b, lo, hi, k - 1, |b| - 1);
    }
  }

  // With nothing live the layout is the one initial block.
  lemma {:induction false} NothingLive(b: seq<Block>, lo: int, hi: int)
    requires Canonical(b, lo, hi) && Live(b) == {}
    ensures b == [Block(lo, hi - lo, false)]
  {
    var one := [Block(lo, hi - lo, false)];
    InArena(b, lo, hi, 0);
    Determined(b, one, lo, hi);
  }

  // ---------------------------------------------------------------- allocation

  predicate Fits(x: Block, need: int)
  {
    !x.used && x.len >= need
  }

  // The lowest-address fit from position i on; |b| when nothing fits.
  function FirstFit(b: seq<Block>, need: int, i: nat): (k: nat)
    requires i <= |b|
    ensures i <= k <= |b| && (k < |b| ==> Fits(b[k], need))
    ensures forall j :: i <= j < k ==> !Fits(b[j], need)
    decreases |b| - i
  {
    if i == |b| || Fits(b[i], need) then i else FirstFit(b, need, i + 1)
  }

  // The block handed out, and the layout that is left.
  function Taken(x: Block, need: int): Block
  {
    if x.len - need > 2 * KUNIT then Block(x.addr, need, true) else x.(used := true)
  }

  function Carve(b: seq<Block>, i: nat, need: int): seq<Block>
    requires i < |b|
  {
    var x := b[i];
    if x.len - need > 2 * KUNIT
    then b[..i] + [Taken(x, need), Block(x.addr + need, x.len - need, false)] + b[i + 1..]
    else b[i := Taken(x, need)]
  }

  // Outside that range the size kmalloc looks for is not positive: every free block passes
  // its test, and cutting one of any length leaves a list that tiles nothing.
  lemma {:induction false} RequestFails(length: int, b: seq<Block>, lo: int, hi: int, i: nat)
    requires -INT_MAX - 1 <= length <= INT_MAX && !(-15 <= length <= MAX_REQUEST)
    requires Tiles(b, lo, hi) && i < |b| && !b[i].used
    ensures Request(length) <= 0 && Fits(b[i], Request(length))
    ensures b[i].len > 2 * KUNIT ==> !Tiles(Carve(b, i, Request(length)), lo, hi)
  {
    NotPositive(length);
    if b[i].len > 2 * KUNIT {
      CarveAt(b, i, Request(length), i);
    }
  }

  lemma NotPositive(length: int)
    requires -INT_MAX - 1 <= length <= INT_MAX && !(-15 <= length <= MAX_REQUEST)
    ensures Request(length) <= 0
  {
    var r := (length + KUNIT - 1) / KUNIT * KUNIT;
    if length > MAX_REQUEST {
      if length <= 0x7fff_fff0 {
        assert r == 0x7fff_fff0;
      } else {
        assert r == INT_MAX + 1;
      }
    } else {
      assert r <= -KUNIT && Signed(r) == r && Signed(r + KUNIT) == r + KUNIT;
    }
  }

  // Two such calls on a new heap of one megabyte: the first finds room for 2 GB, the
  // second cuts a block of no bytes.
  lemma RequestsGoneWrong()
    ensures var b := [Block(0x10_0000, 0x10_0000, false)];
            && Canonical(b, 0x10_0000, 0x20_0000)
            && Request(0x7fff_ffe1) == -0x8000_0000 && FirstFit(b, Request(0x7fff_ffe1), 0) == 0
            && !Tiles(Allocated(b, Request(0x7fff_ffe1)), 0x10_0000, 0x20_0000)
            && Request(-16) == 0 && FirstFit(b, Request(-16), 0) == 0
            && !Tiles(Allocated(b, Request(-16)), 0x10_0000, 0x20_0000)
  {
    var b := [Block(0x10_0000, 0x10_0000, false)];
    RequestFails(0x7fff_ffe1, b, 0x10_0000, 0x20_0000, 0);
    RequestFails(-16, b, 0x10_0000, 0x20_0000, 0);
  }

  function Allocated(b: seq<Block>, need: int): seq<Block>
  {
    var i := FirstFit(b, need, 0);
    if i < |b| then Carve(b, i, need) else b
  }

  lemma {:induction false} CarveCanonical(b: seq<Block>, lo: int, hi: int, i: nat, need: int)
    requires Canonical(b, lo, hi) && i < |b| && Fits(b[i], need) && need >= KUNIT
    ensures Canonical(Carve(b, i, need), lo, hi)
  {
    hide Tiles, NoFreePair;
    CarveTiles(b, lo, hi, i, need);
    CarveNoPair(b, i, need);
  }

  // Where the blocks are after a split.
  lemma CarveAt(b: seq<Block>, i: nat, need: int, j: nat)
    requires i < |b| && b[i].len - need > 2 * KUNIT && j < |b| + 1
    ensures var c := Carve(b, i, need);
            && |c| == |b| + 1
            && c[j] == if j < i then b[j] else if j == i then Taken(b[i], need)
                       else if j == i + 1 then Block(b[i].addr + need, b[i].len - need, false) else b[j - 1]
  {
  }

  lemma {:induction false} CarveStep(b: seq<Block>, lo: int, hi: int, i: nat, need: int, j: nat)
    requires Tiles(b, lo, hi) && i < |b| && need >= KUNIT && b[i].len - need > 2 * KUNIT
    requires j + 1 < |Carve(b, i, need)|
    ensures Carve(b, i, need)[j + 1].addr == Carve(b, i, need)[j].addr + Carve(b, i, need)[j].len
  {
    hide Carve;
    CarveAt(b, i, need, 0);
    CarveAt(b, i, need, j);
    CarveAt(b, i, need, j + 1);
    var k := if i < j then j - 1 else j;
    if k + 1 < |b| {
      NextAddr(b, lo, hi, k);
    }
  }

  lemma NextAddr(b: seq<Block>, lo: int, hi: int, k: nat)
    requires Tiles(b, lo, hi) && k + 1 < |b|
    ensures b[k + 1].addr == b[k].addr + b[k].len
  {
  }

  lemma {:induction false} CarveTiles(b: seq<Block>, lo: int, hi: int, i: nat, need: int)
    requires Tiles(b, lo, hi) && i < |b| && need >= KUNIT
    ensures Tiles(Carve(b, i, need), lo, hi)
  {
    var c := Carve(b, i, need);
    if b[i].len - need > 2 * KUNIT {
      forall j, m | 0 <= j && m == j + 1 && m < |c| ensures c[m].addr == c[j].addr + c[j].len {
        CarveStep(b, lo, hi, i, need, j);
      }
    }
  }

  lemma {:induction false} CarveNoPair(b: seq<Block>, i: nat, need: int)
    requires NoFreePair(b) && i < |b| && !b[i].used
    ensures NoFreePair(Carve(b, i, need))
  {
    var c := Carve(b, i, need);
    if |c| != |b| {
      forall j, m | 0 <= j && m == j + 1 && m < |c| ensures c[j].used || c[m].used {
        if i < j {
          assert c[m] == b[m - 1];
          assert b[j - 1].used || b[j].used;
        } else if j < i {
          assert b[j].used || b[m].used;
        }
      }
    }
  }

  lemma {:induction false} CarveLive(b: seq<Block>, lo: int, hi: int, i: nat, need: int)
    requires Tiles(b, lo, hi) && i < |b| && Fits(b[i], need)
    ensures Live(Carve(b, i, need)) == Live(b) + {Taken(b[i], need)}
    ensures Taken(b[i], need) !in Live(b)
  {
    var c := Carve(b, i, need);
    var t := Taken(b[i], need);
    forall x | x in Live(b) ensures x in c && x != t {
      var j: nat :| j < |b| && b[j] == x;
      if x.addr == b[i].addr {
        SameAddress(b, lo, hi, i, j);
      }
      assert x == if j < i then c[j] else if |c| == |b| then c[j] else c[j + 1];
    }
    assert c[i] == t;
    assert forall x :: x in c && x.used ==> x in b || x == t;
  }

  // What kmalloc promises: the lowest-address fit, at least as large as asked,
  // no other live block touched; nothing only when nothing fits.
  lemma {:induction false} AllocatedMeets(b: seq<Block>, lo: int, hi: int, need: int)
    requires Canonical(b, lo, hi) && need >= KUNIT
    ensures Canonical(Allocated(b, need), lo, hi)
    ensures var i := FirstFit(b, need, 0);
            if i == |b|
            then Allocated(b, need) == b && (forall x :: x in b ==> x.used || x.len < need)
            else
              && !b[i].used && b[i].len >= need
              && (forall x :: x in b && !x.used && x.len >= need ==> b[i].addr <= x.addr)
              && (var t := Taken(b[i], need);
                  && t.addr == b[i].addr && t.used && t !in Live(b)
                  && t.len == (if b[i].len - need > 2 * KUNIT then need else b[i].len)
                  && Live(Allocated(b, need)) == Live(b) + {t})
  {
    hide Tiles, NoFreePair, Carve, Live;
    var i := FirstFit(b, need, 0);
    if i < |b| {
      CarveCanonical(b, lo, hi, i, need);
      CarveLive(b, lo, hi, i, need);
    }
    LowestFit(b, lo, hi, need);
  }

  lemma {:induction false} LowestFit(b: seq<Block>, lo: int, hi: int, need: int)
    requires Tiles(b, lo, hi)
    ensures var i := FirstFit(b, need, 0);
            forall x :: x in b && Fits(x, need) ==> i < |b| && b[i].addr <= x.addr
  {
    var i := FirstFit(b, need, 0);
    forall x | x in b && Fits(x, need) ensures i < |b| && b[i].addr <= x.addr {
      var j: nat :| j < |b| && b[j] == x;
      assert i <= j;
      if i < j {
        Ordered(b, lo, hi, i, j);
      }
    }
  }

  // ---------------------------------------------------------------- release

  function MarkFree(b: seq<Block>, i: nat): seq<Block>
    requires i < |b|
  {
    b[i := b[i].(used := false)]
  }

  // Block i swallows block i + 1.
  function Join(b: seq<Block>, i: nat): seq<Block>
    requires i + 1 < |b|
  {
    b[..i] + [b[i].(len := b[i].len + b[i + 1].len)] + b[i + 2..]
  }

  function JoinNext(b: seq<Block>, i: nat): seq<Block>
    requires i < |b|
  {
    if i + 1 < |b| && !b[i + 1].used then Join(b, i) else b
  }

  function JoinPrev(b: seq<Block>, i: nat): seq<Block>
    requires i < |b|
  {
    if i > 0 && !b[i - 1].used then Join(b, i - 1) else b
  }

  function Released(b: seq<Block>, i: nat): seq<Block>
    requires i < |b|
  {
    JoinPrev(JoinNext(MarkFree(b, i), i), i)
  }

  lemma {:induction false} JoinTiles(b: seq<Block>, lo: int, hi: int, i: nat)
    requires Tiles(b, lo, hi) && i + 1 < |b| && !b[i].used && !b[i + 1].used
    ensures Tiles(Join(b, i), lo, hi) && Live(Join(b, i)) == Live(b)
    ensures forall j :: 0 <= j < i ==> Join(b, i)[j] == b[j]
    ensures forall j, m :: i + 1 < m && j == m - 1 && m < |b| ==> Join(b, i)[j] == b[m]
  {
    hide Tiles;
    var c := Join(b, i);
    JoinStep(b, lo, hi, i);
    forall x | x in Live(b) ensures x in c {
      var j: nat :| j < |b| && b[j] == x;
      assert j != i && j != i + 1;
      assert x == if j < i then c[j] else c[j - 1];
    }
    assert forall x :: x in c && x.used ==> x in b;
  }

  lemma {:induction false} JoinStep(b: seq<Block>, lo: int, hi: int, i: nat)
    requires Tiles(b, lo, hi) && i + 1 < |b|
    ensures Tiles(Join(b, i), lo, hi)
  {
    var c := Join(b, i);
    forall j, m | 0 <= j && m == j + 1 && m < |c| ensures c[m].addr == c[j].addr + c[j].len {
      if i <= j {
        assert c[m] == b[m + 1];
        assert b[m + 1].addr == b[m].addr + b[m].len;
        assert b[i + 1].addr == b[i].addr + b[i].len;
      } else {
        assert b[m].addr == b[j].addr + b[j].len;
      }
    }
  }

  lemma {:induction false} MarkFreeLive(b: seq<Block>, lo: int, hi: int, i: nat)
    requires Tiles(b, lo, hi) && i < |b| && b[i].used
    ensures Tiles(MarkFree(b, i), lo, hi) && Live(MarkFree(b, i)) == Live(b) - {b[i]}
  {
    var c := MarkFree(b, i);
    forall x | x in Live(b) && x != b[i] ensures x in c {
      var j: nat :| j < |b| && b[j] == x;
      assert c[j] == x;
    }
    if b[i] in c {
      var j: nat :| j < |c| && c[j] == b[i];
      SameAddress(b, lo, hi, i, j);
    }
    assert forall x :: x in c && x.used ==> x in b;
  }

  // Two neighbouring free blocks are found at block i alone: with the block
  // before it, or the one after.
  ghost predicate FreePairsBefore(b: seq<Block>, i: nat)
  {
    forall m, j :: 0 <= m && j == m + 1 && j < |b| && j != i ==> b[m].used || b[j].used
  }

  ghost predicate FreePairsAround(b: seq<Block>, i: nat)
  {
    forall m, j :: 0 <= m && j == m + 1 && j < |b| && j != i && m != i ==> b[m].used || b[j].used
  }

  lemma FreeOnlyAt(b: seq<Block>, i: nat)
    requires NoFreePair(b) && i < |b| && b[i].used
    ensures !MarkFree(b, i)[i].used && FreePairsAround(MarkFree(b, i), i)
  {
  }

  lemma {:induction false} JoinNextMeets(b: seq<Block>, lo: int, hi: int, i: nat)
    requires Tiles(b, lo, hi) && i < |b| && !b[i].used && FreePairsAround(b, i)
    ensures i < |JoinNext(b, i)| && !JoinNext(b, i)[i].used
    ensures Tiles(JoinNext(b, i), lo, hi) && Live(JoinNext(b, i)) == Live(b) && FreePairsBefore(JoinNext(b, i), i)
  {
    hide Tiles, Live;
    if i + 1 < |b| && !b[i + 1].used {
      JoinTiles(b, lo, hi, i);
      var c := Join(b, i);
      forall m, j | 0 <= m && j == m + 1 && j < |c| && j != i ensures c[m].used || c[j].used {
        if i <= m {
          assert c[j] == b[j + 1];
          assert b[j].used || b[j + 1].used;
        }
      }
    }
  }

  lemma {:induction false} JoinPrevMeets(b: seq<Block>, lo: int, hi: int, i: nat)
    requires Tiles(b, lo, hi) && i < |b| && !b[i].used && FreePairsBefore(b, i)
    ensures Tiles(JoinPrev(b, i), lo, hi) && Live(JoinPrev(b, i)) == Live(b) && NoFreePair(JoinPrev(b, i))
  {
    hide Tiles, Live;
    if i > 0 && !b[i - 1].used {
      JoinTiles(b, lo, hi, i - 1);
      var c := Join(b, i - 1);
      forall m, j | 0 <= m && j == m + 1 && j < |c| ensures c[m].used || c[j].used {
        if i - 1 <= m {
          assert c[j] == b[j + 1];
          assert b[j].used || b[j + 1].used;
        } else {
          assert c[m] == b[m] && c[j].used == b[j].used;
        }
      }
    }
  }

  // The two merges leave no two neighbouring free blocks, and take away exactly
  // the freed block.
  lemma {:induction false} ReleasedMeets(b: seq<Block>, lo: int, hi: int, i: nat)
    requires Canonical(b, lo, hi) && i < |b| && b[i].used
    ensures Canonical(Released(b, i), lo, hi)
    ensures Live(Released(b, i)) == Live(b) - {b[i]}
  {
    hide Tiles, Live;
    MarkFreeLive(b, lo, hi, i);
    var b1 := MarkFree(b, i);
    FreeOnlyAt(b, i);
    JoinNextMeets(b1, lo, hi, i);
    JoinPrevMeets(JoinNext(b1, i), lo, hi, i);
  }

  // ---------------------------------------------------------------- runs

  // The block whose payload starts at p; |b| when there is none.
  function Find(b: seq<Block>, p: int, i: nat): (k: nat)
    requires i <= |b|
    ensures i <= k <= |b| && (k < |b| ==> b[k].used && b[k].addr + KUNIT == p)
    ensures forall j :: i <= j < k ==> !(b[j].used && b[j].addr + KUNIT == p)
    decreases |b| - i
  {
    if i == |b| || (b[i].used && b[i].addr + KUNIT == p) then i else Find(b, p, i + 1)
  }

  function Freed(b: seq<Block>, p: int): seq<Block>
  {
    var i := Find(b, p, 0);
    if i < |b| then Released(b, i) else b
  }

  datatype Call = Malloc(length: int) | Free(p: int)

  ghost predicate Callable(calls: seq<Call>)
  {
    forall c :: c in calls && c.Malloc? ==> -15 <= c.length <= MAX_REQUEST
  }

  function Apply(b: seq<Block>, c: Call): seq<Block>
  {
    match c
    case Malloc(n) => Allocated(b, Request(n))
    case Free(p) => Freed(b, p)
  }

  function Run(b: seq<Block>, calls: seq<Call>): seq<Block>
    decreases |calls|
  {
    if calls == [] then b else Run(Apply(b, calls[0]), calls[1..])
  }

  // The block found for p is the one live block whose payload starts there.
  lemma {:induction false} FoundIsLive(b: seq<Block>, lo: int, hi: int, p: int)
    requires Tiles(b, lo, hi)
    ensures var i := Find(b, p, 0);
            && (i < |b| ==> b[i] in Live(b))
            && forall x :: x in Live(b) ==> (x.addr + KUNIT == p <==> i < |b| && x == b[i])
  {
    hide Tiles;
    var i := Find(b, p, 0);
    forall x | x in Live(b) ensures x.addr + KUNIT == p <==> i < |b| && x == b[i] {
      var j: nat :| j < |b| && b[j] == x;
      if x.addr + KUNIT == p {
        SameAddress(b, lo, hi, i, j);
      }
    }
  }

  lemma {:induction false} FreedMeets(b: seq<Block>, lo: int, hi: int, p: int)
    requires Canonical(b, lo, hi)
    ensures Canonical(Freed(b, p), lo, hi)
    ensures Live(Freed(b, p)) == set x | x in Live(b) && x.addr + KUNIT != p
  {
    hide Tiles, NoFreePair, Released, Live;
    var i := Find(b, p, 0);
    FoundIsLive(b, lo, hi, p);
    if i < |b| {
      ReleasedMeets(b, lo, hi, i);
    }
  }

  lemma {:induction false} RunCanonical(b: seq<Block>, lo: int, hi: int, calls: seq<Call>)
    requires Canonical(b, lo, hi) && Callable(calls)
    ensures Canonical(Run(b, calls), lo, hi)
    decreases |calls|
  {
    if calls != [] {
      var c := calls[0];
      assert c in calls;
      match c {
        case Malloc(n) =>
          RequestCovers(n);
          AllocatedMeets(b, lo, hi, Request(n));
        case Free(p) =>
          FreedMeets(b, lo, hi, p);
      }
      RunCanonical(Apply(b, c), lo, hi, calls[1..]);
    }
  }

  // Any two runs that leave the same blocks live leave the same list; a run
  // that leaves none restores the initial chunk.
  lemma {:induction false} RunsAgree(lo: int, hi: int, these: seq<Call>, those: seq<Call>)
    requires hi - lo >= KUNIT && Callable(these) && Callable(those)
    ensures var init := [Block(lo, hi - lo, false)];
            && (Live(Run(init, these)) == Live(Run(init, those)) ==> Run(init, these) == Run(init, those))
            && (Live(Run(init, these)) == {} ==> Run(init, these) == init)
            && Total(Run(init, these)) == hi - lo
  {
    var init := [Block(lo, hi - lo, false)];
    RunCanonical(init, lo, hi, these);
    RunCanonical(init, lo, hi, those);
    TotalIsArena(Run(init, these), lo, hi);
    if Live(Run(init, these)) == Live(Run(init, those)) {
      Determined(Run(init, these), Run(init, those), lo, hi);
    }
    if Live(Run(init, these)) == {} {
      NothingLive(Run(init, these), lo, hi);
    }
  }

  function Frees(ps: seq<int>): seq<Call>
  {
    seq(|ps|, i requires 0 <= i < |ps| => Free(ps[i]))
  }

  lemma {:induction false} FreesLive(b: seq<Block>, lo: int, hi: int, ps: seq<int>)
    requires Canonical(b, lo, hi)
    ensures Canonical(Run(b, Frees(ps)), lo, hi)
    ensures Live(Run(b, Frees(ps))) == set x | x in Live(b) && x.addr + KUNIT !in ps
    decreases |ps|
  {
    hide Canonical, Freed;
    if ps != [] {
      FreedMeets(b, lo, hi, ps[0]);
      FreesLive(Freed(b, ps[0]), lo, hi, ps[1..]);
      assert Frees(ps)[1..] == Frees(ps[1..]);
      assert forall p :: p in ps <==> p == ps[0] || p in ps[1..];
    }
  }

  // Freeing a set of pointers gives one list, whatever the order.
  lemma {:induction false} FreeOrder(b: seq<Block>, lo: int, hi: int, ps: seq<int>, qs: seq<int>)
    requires Canonical(b, lo, hi) && (forall p :: p in ps <==> p in qs)
    ensures Run(b, Frees(ps)) == Run(b, Frees(qs))
  {
    FreesLive(b, lo, hi, ps);
    FreesLive(b, lo, hi, qs);
    Determined(Run(b, Frees(ps)), Run(b, Frees(qs)), lo, hi);
  }

  lemma {:induction false} LiveElsewhere(b: seq<Block>, lo: int, hi: int, i: nat)
    requires Canonical(b, lo, hi) && i < |b| && !b[i].used
    ensures forall x :: x in Live(b) ==> x.addr != b[i].addr
  {
    forall x | x in Live(b) ensures x.addr != b[i].addr {
      var j: nat :| j < |b| && b[j] == x;
      if x.addr == b[i].addr {
        SameAddress(b, lo, hi, i, j);
      }
    }
  }

  // kfree undoes the kmalloc before it, including the split.
  lemma {:induction false} FreeUndoesMalloc(b: seq<Block>, lo: int, hi: int, n: int)
    requires Canonical(b, lo, hi) && -15 <= n <= MAX_REQUEST
    requires FirstFit(b, Request(n), 0) < |b|
    ensures var p := b[FirstFit(b, Request(n), 0)].addr + KUNIT;
            Run(b, [Malloc(n), Free(p)]) == b
  {
    hide Canonical, Freed, Allocated, Request, Live;
    var i := FirstFit(b, Request(n), 0);
    var p := b[i].addr + KUNIT;
    RequestCovers(n);
    AllocatedMeets(b, lo, hi, Request(n));
    var c := Allocated(b, Request(n));
    FreedMeets(c, lo, hi, p);
    LiveElsewhere(b, lo, hi, i);
    assert Live(Freed(c, p)) == Live(b);
    Determined(Freed(c, p), b, lo, hi);
    assert Run(b, [Malloc(n), Free(p)]) == Run(c, [Free(p)]) by {
      assert [Malloc(n), Free(p)][1..] == [Free(p)];
    }
    assert Run(c, [Free(p)]) == Run(Freed(c, p), []) by {
      assert [Free(p)][1..] == [];
    }
  }
}

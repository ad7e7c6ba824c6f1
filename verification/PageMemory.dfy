// page.c: frames handed out from a bitmap. Running out halts the machine: the
// methods then report failure and nothing after them runs.
module PageMemory {
  import opened Words
  import opened PageLedger

  // pages_total. The product is an int, so there are at most 2047 megabytes; main memory
  // starts behind the first two.
  function PageTotal(megabytes: nat): nat
    requires 2 <= megabytes
  {
    (megabytes * 0x10_0000 - 0x20_0000) / 4096
  }

  // The bits of the largest map: 2047 megabytes, and the rest of the last cell.
  const MAX_FRAMES := 523_552

  lemma PagesExact(megabytes: nat)
    requires 2 <= megabytes
    ensures PageTotal(megabytes) == 256 * (megabytes - 2)
  {
    assert megabytes * 0x10_0000 - 0x20_0000 == 4096 * (256 * (megabytes - 2));
  }

  lemma MapExact(m: nat)
    ensures ByteCount(256 * m) == 1 + 32 * m && CellCount(256 * m) == 1 + 8 * m
  {
    assert 256 * m == 8 * (32 * m) && 256 * m == WORD_BITS * (8 * m);
  }

  lemma TotalIs(megabytes: nat)
    requires 2 <= megabytes < 2048
    ensures PageTotal(megabytes) == 256 * (megabytes - 2)
    ensures ByteCount(PageTotal(megabytes)) == 1 + 32 * (megabytes - 2)
    ensures WORD_BITS * CellCount(PageTotal(megabytes)) == PageTotal(megabytes) + WORD_BITS <= MAX_FRAMES
  {
    hide PageTotal, ByteCount, CellCount;
    PagesExact(megabytes);
    MapExact(megabytes - 2);
  }

  // Sizes of the map: one bit for each page, and at least one cell, byte and page more
  // than a whole number needs.
  function CellCount(total: nat): nat { 1 + total / WORD_BITS }

  function ByteCount(total: nat): nat { 1 + total / 8 }

  function MapPages(total: nat): nat { 1 + ByteCount(total) / 4096 }

  ghost predicate FrameFree(freemap: seq<Word>, f: nat) {
    && FIRST_FRAME <= f && (f - FIRST_FRAME) / WORD_BITS < |freemap|
    && (f - FIRST_FRAME) % WORD_BITS in Bits(freemap[(f - FIRST_FRAME) / WORD_BITS])
  }

  // Every set bit stands for a frame that can be handed out, whether or not there is
  // memory behind it.
  ghost function FreeFrames(freemap: seq<Word>): set<nat> {
    set f: nat | f < FIRST_FRAME + WORD_BITS * |freemap| && FrameFree(freemap, f)
  }

  // The first n frames.
  ghost function FirstFrames(n: nat): set<nat> {
    set f: nat | f < FIRST_FRAME + n && IsFrame(f)
  }

  predicate IsFrame(f: nat) { FIRST_FRAME <= f }

  lemma {:induction false} MapSizes(total: nat)
    requires WORD_BITS * CellCount(total) + FIRST_FRAME <= PAGES
    ensures CellCount(total) > 0 && MapPages(total) <= WORD_BITS
    ensures MapPages(total) <= 8 * ByteCount(total) <= WORD_BITS * CellCount(total)
  {
    var q, s := total / WORD_BITS, total % WORD_BITS;
    EighthOf(q, s);
    assert total == WORD_BITS * q + s;
    assert ByteCount(total) <= 4 * q + 4 && q < 32752;
    FewPages(ByteCount(total));
  }

  lemma EighthOf(q: nat, s: nat)
    requires s < 32
    ensures (32 * q + s) / 8 == 4 * q + s / 8 && s / 8 <= 3
  {
  }

  lemma FewPages(bytes: nat)
    requires 0 < bytes <= 131008
    ensures 1 + bytes / 4096 <= 32 && 1 + bytes / 4096 <= 8 * bytes
  {
  }

  lemma {:induction false} CellChange(before: seq<Word>, after: seq<Word>, i: nat, j: nat, on: bool)
    requires |before| == |after| && i < |before| && j < WORD_BITS
    requires after == before[i := after[i]]
    requires Bits(after[i]) == if on then Bits(before[i]) + {j} else Bits(before[i]) - {j}
    ensures var f := FIRST_FRAME + WORD_BITS * i + j;
            FreeFrames(after) == if on then FreeFrames(before) + {f} else FreeFrames(before) - {f}
  {
    hide Bits;
    var f0 := FIRST_FRAME + WORD_BITS * i + j;
    forall f: nat | FIRST_FRAME <= f < FIRST_FRAME + WORD_BITS * |before|
      ensures f in FreeFrames(after) <==> if f == f0 then on else f in FreeFrames(before)
    {
      var n := f - FIRST_FRAME;
      assert n == WORD_BITS * (n / WORD_BITS) + n % WORD_BITS;
    }
  }

  // The first cell set to zero.
  lemma {:induction false} CellCleared(before: seq<Word>, after: seq<Word>)
    requires |before| > 0 && after == before[0 := 0]
    ensures FreeFrames(after) == FreeFrames(before) - FirstFrames(WORD_BITS)
  {
    hide Bits;
    EmptyWord(0);
    forall f: nat
      ensures f in FreeFrames(after) <==> f in FreeFrames(before) && f !in FirstFrames(WORD_BITS)
    {
      if f >= FIRST_FRAME {
        var n := f - FIRST_FRAME;
        assert n / WORD_BITS == 0 <==> n < WORD_BITS;
      }
    }
  }

  // memset(freemap, 0xff, bytes), bit by bit.
  method SetBytes(freemap: array<Word>, bytes: nat)
    requires 8 * bytes <= WORD_BITS * freemap.Length
    modifies freemap
    ensures FreeFrames(freemap[..]) == FreeFrames(old(freemap[..])) + FirstFrames(8 * bytes)
  {
    hide FreeFrames, Or, Bits;
    var n := 0;
    assert FreeFrames(freemap[..]) == FreeFrames(old(freemap[..])) + FirstFrames(0);
    while n < 8 * bytes
      invariant 0 <= n <= 8 * bytes
      invariant FreeFrames(freemap[..]) == FreeFrames(old(freemap[..])) + FirstFrames(n)
    {
      ghost var before := freemap[..];
      var i, j := n / WORD_BITS, n % WORD_BITS;
      MarkBit(freemap[i], j);
      freemap[i] := Or(freemap[i], Bit(j));
      CellChange(before, freemap[..], i, j, true);
      assert FirstFrames(n + 1) == FirstFrames(n) + {FIRST_FRAME + n};
      n := n + 1;
    }
  }

  class PageMemory {
    const total: nat
    const freemap: array<Word>
    var pagesFree: int
    var mem: map<nat, Page>
    ghost var tables: set<nat>

    ghost predicate Mapped()
      reads this, freemap
    {
      freemap.Length == CellCount(total) && WORD_BITS * freemap.Length <= MAX_FRAMES
    }

    ghost function View(): Ram
      reads this, freemap
    {
      Ram(WORD_BITS * freemap.Length, FreeFrames(freemap[..]), mem)
    }

    // The counter less the number of set bits. Initialisation clears a cell
    // without telling the counter, so this need not be zero.
    ghost function Slack(): int
      reads this, freemap
    {
      pagesFree - |View().free|
    }

    // The live page tables own what they use.
    ghost predicate Valid()
      reads this, freemap
    {
      Mapped() && Ledger(View(), tables)
    }

    // page_init: the map is filled with ones up to a whole byte more than needed, which
    // is one byte, as the pages are a multiple of 256. The pages it lies in are allocated,
    // and the first cell is cleared without telling the counter.
    constructor (map0: array<Word>, megabytes: nat, contents: map<nat, Page>)
      requires 2 <= megabytes < 2048 && map0.Length == CellCount(PageTotal(megabytes))
      modifies map0
      ensures Valid() && total == PageTotal(megabytes) == 256 * (megabytes - 2) && freemap == map0 && tables == {}
      ensures pagesFree == total - MapPages(total)
      ensures View().free == FreeFrames(old(map0[..])) + FirstFrames(total + 8) - FirstFrames(WORD_BITS)
    {
      total, freemap, mem, tables := PageTotal(megabytes), map0, contents, {};
      pagesFree := PageTotal(megabytes);
      new;
      hide FreeFrames, FirstFrames, Ledger, CellCount, ByteCount, MapPages, PageTotal;
      TotalIs(megabytes);
      MapSizes(total);
      SetBytes(freemap, ByteCount(total));
      ghost var full := FreeFrames(freemap[..]);
      FramesInRange(freemap[..]);
      NoTables(View());
      AllocateMap(full);
      ghost var before := freemap[..];
      freemap[0] := 0;
      CellCleared(before, freemap[..]);
      FramesInRange(freemap[..]);
      NoTables(View());
      FirstGrows(MapPages(total), WORD_BITS);
    }

    // The loop of page_init over the pages of the map.
    method AllocateMap(ghost full: set<nat>)
      requires Valid() && View().free == full && FirstFrames(8 * ByteCount(total)) <= full && tables == {}
      modifies this`mem, this`pagesFree, freemap
      ensures Valid() && View().free == full - FirstFrames(MapPages(total))
      ensures pagesFree == old(pagesFree) - MapPages(total)
    {
      hide FreeFrames, FirstFrames, Ledger, Loose, SameLeaves, SameDirs, ByteCount, MapPages, CellCount, Slack;
      MapSizes(total);
      FramesInRange(freemap[..]);
      NoneFirst(full);
      var i := 0;
      while i < MapPages(total)
        invariant 0 <= i <= MapPages(total) && Valid() && tables == {}
        invariant View().free == full - FirstFrames(i) && pagesFree == old(pagesFree) - i
      {
        FirstOf(full, 8 * ByteCount(total), i);
        var ok, f := PageAlloc(false);
        i := i + 1;
      }
    }

    // page_alloc: the lowest free frame.
    method PageAlloc(zeroit: bool) returns (ok: bool, f: Frame)
      requires Valid()
      modifies this`mem, this`pagesFree, freemap
      ensures Mapped()
      ensures Slack() == old(Slack()) && pagesFree == if ok then old(pagesFree) - 1 else old(pagesFree)
      ensures !ok ==> View() == old(View()) && View().free == {}
      // It lies past the end of memory exactly when the map marks no page of memory as free.
      ensures ok ==> (f >= FIRST_FRAME + total <==> old(View()).free !! FirstFrames(total))
      ensures ok ==>
                && f in old(View()).free && (forall g :: g in old(View()).free ==> f <= g)
                && View() == Ram(old(View()).total, old(View()).free - {f},
                                 old(mem)[f := if zeroit then ZeroPage() else PageAt(old(mem), f)])
      ensures Valid()
      ensures ok ==> Loose(View(), tables, f) && SameLeaves(old(mem), mem, tables) && SameDirs(old(mem), mem, tables)
                     && (forall g :: Loose(old(View()), tables, g) ==> Loose(View(), tables, g))
    {
      hide Ledger, Bits, And, Loose, SameLeaves, SameDirs;
      var i := 0;
      while i < freemap.Length
        invariant 0 <= i <= freemap.Length && unchanged(this) && unchanged(freemap)
        invariant NoneBelow(WORD_BITS * i)
      {
        if freemap[i] != 0 {
          ok, f := ScanCell(i, zeroit);
          if ok {
            return;
          }
        } else {
          EmptyWord(freemap[i]);
          BelowCell(i);
        }
        i := i + 1;
      }
      assert View().free == {};
      ok, f := false, 0;
    }

    // The inner loop: the bits of one cell.
    method ScanCell(i: nat, zeroit: bool) returns (ok: bool, f: Frame)
      requires Valid() && i < freemap.Length && NoneBelow(WORD_BITS * i)
      modifies this`mem, this`pagesFree, freemap
      ensures Valid() && Slack() == old(Slack()) && (ok ==> pagesFree == old(pagesFree) - 1)
      ensures !ok ==> unchanged(this) && unchanged(freemap) && NoneBelow(WORD_BITS * (i + 1))
      ensures ok ==>
                && f in old(View()).free && (forall g :: g in old(View()).free ==> f <= g)
                && View() == Ram(old(View()).total, old(View()).free - {f},
                                 old(mem)[f := if zeroit then ZeroPage() else PageAt(old(mem), f)])
                && Loose(View(), tables, f) && SameLeaves(old(mem), mem, tables) && SameDirs(old(mem), mem, tables)
                && (forall g :: Loose(old(View()), tables, g) ==> Loose(View(), tables, g))
    {
      hide Ledger, Bits, And, Loose, SameLeaves, SameDirs, FreeFrames;
      var j := 0;
      while j < WORD_BITS
        invariant 0 <= j <= WORD_BITS && unchanged(this) && unchanged(freemap)
        invariant NoneBelow(WORD_BITS * i + j)
      {
        BitTest(freemap[i], j);
        if And(freemap[i], Bit(j)) != 0 {
          InTail(i, j);
          f := Take(i, j, zeroit);
          return true, f;
        }
        Below(i, j);
        j := j + 1;
      }
      ok, f := false, 0;
    }

    // Bit j of cell i is set: clear it and hand out its frame.
    method Take(i: nat, j: nat, zeroit: bool) returns (f: Frame)
      requires Valid() && i < freemap.Length && j < WORD_BITS
      requires FIRST_FRAME + WORD_BITS * i + j in View().free
      modifies this`mem, this`pagesFree, freemap
      ensures Valid() && Slack() == old(Slack()) && f == FIRST_FRAME + WORD_BITS * i + j
      ensures pagesFree == old(pagesFree) - 1
      ensures View() == Ram(old(View()).total, old(View()).free - {f},
                            old(mem)[f := if zeroit then ZeroPage() else PageAt(old(mem), f)])
      ensures Loose(View(), tables, f) && SameLeaves(old(mem), mem, tables) && SameDirs(old(mem), mem, tables)
              && (forall g :: Loose(old(View()), tables, g) ==> Loose(View(), tables, g))
    {
      hide Ledger, Bits, And, Loose, SameLeaves, SameDirs, FreeFrames;
      var cellmask := Bit(j);
      ClearBit(freemap[i], j);
      freemap[i] := And(freemap[i], Not(cellmask));
      CellChange(old(freemap[..]), freemap[..], i, j, false);
      f := FIRST_FRAME + i * WORD_BITS + j;
      mem := mem[f := if zeroit then ZeroPage() else PageAt(mem, f)];
      TakeFrame(old(View()), tables, f, PageAt(mem, f));
      pagesFree := pagesFree - 1;
    }

    ghost predicate NoneBelow(n: nat)
      reads this, freemap
    {
      forall f :: f in View().free ==> FIRST_FRAME + n <= f
    }

    lemma InTail(i: nat, j: nat)
      requires Mapped() && i < freemap.Length && j in Bits(freemap[i])
      ensures FIRST_FRAME + WORD_BITS * i + j in View().free
    {
      var n := WORD_BITS * i + j;
      assert n / WORD_BITS == i && n % WORD_BITS == j;
    }

    lemma Below(i: nat, j: nat)
      requires Mapped() && i < freemap.Length && j < WORD_BITS && j !in Bits(freemap[i])
      requires NoneBelow(WORD_BITS * i + j)
      ensures NoneBelow(WORD_BITS * i + (j + 1))
    {
      var f := FIRST_FRAME + WORD_BITS * i + j;
      assert (f - FIRST_FRAME) / WORD_BITS == i && (f - FIRST_FRAME) % WORD_BITS == j;
    }

    lemma BelowCell(i: nat)
      requires Mapped() && i < freemap.Length && Bits(freemap[i]) == {} && NoneBelow(WORD_BITS * i)
      ensures NoneBelow(WORD_BITS * (i + 1))
    {
    }

    // page_free
    method PageFree(f: nat)
      requires Mapped() && InRange(View(), f)
      modifies this`pagesFree, freemap
      ensures Mapped() && View() == old(View()).(free := old(View()).free + {f})
      ensures pagesFree == old(pagesFree) + 1 && (f !in old(View()).free ==> Slack() == old(Slack()))
    {
      hide Bits, Or, FreeFrames;
      var pagenumber := f - FIRST_FRAME;
      var cellnumber := pagenumber / WORD_BITS;
      var celloffset := pagenumber % WORD_BITS;
      MarkBit(freemap[cellnumber], celloffset);
      freemap[cellnumber] := Or(freemap[cellnumber], Bit(celloffset));
      CellChange(old(freemap[..]), freemap[..], cellnumber, celloffset, true);
      pagesFree := pagesFree + 1;
    }
  }

  lemma FramesInRange(freemap: seq<Word>)
    ensures forall f :: f in FreeFrames(freemap) ==> FIRST_FRAME <= f < FIRST_FRAME + WORD_BITS * |freemap|
  {
  }

  lemma NoneFirst(full: set<nat>)
    ensures full - FirstFrames(0) == full
  {
  }

  lemma {:induction false} NoTables(r: Ram)
    requires r.total + FIRST_FRAME <= PAGES && (forall f :: f in r.free ==> InRange(r, f))
    ensures Ledger(r, {})
  {
  }

  lemma FirstGrows(n: nat, m: nat)
    requires n <= m
    ensures FirstFrames(n) <= FirstFrames(m)
  {
  }

  // With the first i frames taken, the next one is the lowest.
  lemma FirstOf(full: set<nat>, n: nat, i: nat)
    requires FirstFrames(n) <= full && i < n && (forall f :: f in full ==> FIRST_FRAME <= f)
    ensures FIRST_FRAME + i in full - FirstFrames(i)
    ensures forall f :: f in full - FirstFrames(i) ==> FIRST_FRAME + i <= f
    ensures full - FirstFrames(i) - {FIRST_FRAME + i} == full - FirstFrames(i + 1)
  {
  }

  // On a machine of any size, page_init and a request for every page that is left lead to
  // a frame with no memory behind it.
  method FramePastMemory(megabytes: nat) returns (m: PageMemory, f: Frame)
    requires 2 < megabytes < 2048
    ensures fresh(m) && m.Valid() && m.total == 256 * (megabytes - 2) && f == FIRST_FRAME + m.total
  {
    hide FreeFrames, FirstFrames, Ledger, Loose, SameLeaves, SameDirs, CellCount, PageTotal, MapPages;
    var map0 := new Word[CellCount(PageTotal(megabytes))](i => 0);
    NoneMarked(map0[..]);
    m := new PageMemory(map0, megabytes, map[]);
    ghost var full := FirstFrames(m.total + 8);
    FirstStart(m.total + 8);
    var ok;
    var n := WORD_BITS;
    while n < m.total
      invariant WORD_BITS <= n <= m.total && fresh(m) && fresh(m.freemap) && m.Valid()
      invariant m.View().free == full - FirstFrames(n)
    {
      FirstOf(full, m.total + 8, n);
      ok, f := m.PageAlloc(false);
      n := n + 1;
    }
    FirstOf(full, m.total + 8, n);
    ok, f := m.PageAlloc(false);
  }

  lemma NoneMarked(freemap: seq<Word>)
    requires forall i :: 0 <= i < |freemap| ==> freemap[i] == 0
    ensures FreeFrames(freemap) == {}
  {
    EmptyWord(0);
  }

  lemma FirstStart(n: nat)
    ensures forall f :: f in FirstFrames(n) ==> FIRST_FRAME <= f
  {
  }
}

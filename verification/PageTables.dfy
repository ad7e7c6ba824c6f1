// pagetable.c over page.c: the two-level table refines a flat map from page
// number to frame and flags, and frames are neither lost nor shared.
module PageTables {
  import opened PageLedger
  import opened PageMemory

  const PAGE_SIZE := 4096
  const ADDRESSES := 0x1_0000_0000

  // The PAGE_FLAG_ masks.
  datatype Flags = Flags(kernel: bool, alloc: bool, readwrite: bool, clear: bool)

  function PageOf(vaddr: nat): (v: nat)
    requires vaddr < ADDRESSES
    ensures v < PAGES
  {
    vaddr / PAGE_SIZE
  }

  // The second-level entry that pagetable_map writes.
  function MapEntry(frame: Frame, flags: Flags): Entry {
    Entry(true, flags.readwrite, !flags.kernel, false, false, false, false, false, flags.kernel,
          if flags.alloc then 1 else 0, frame)
  }

  // The directory entry that it writes for a second-level table.
  function DirEntry(frame: Frame, kernel: bool): Entry {
    Entry(true, true, !kernel, false, false, false, false, false, kernel, 0, frame)
  }

  // What pagetable_getmap reports about an entry.
  function FlagsOf(e: Entry): Flags {
    Flags(!e.user, e.avail % 2 == 1, e.readwrite, false)
  }

  lemma MapReports(frame: Frame, flags: Flags)
    ensures var e := MapEntry(frame, flags);
            e.present && e.addr == frame && FlagsOf(e) == flags.(clear := false)
  {
  }

  // The flat map.
  ghost function FlatMap(mem: map<nat, Page>, p: nat): map<nat, (Frame, Flags)> {
    map v: nat | v < PAGES && Mapped(mem, p, v) :: (Leaf(mem, p, v).addr, FlagsOf(Leaf(mem, p, v)))
  }

  // ---------------------------------------------------------------- relations between states

  // The pages owned by live tables keep their contents.
  ghost predicate PageKept(mem: map<nat, Page>, after: map<nat, Page>, tables: set<nat>, q: nat, w: nat) {
    q in tables && OwnedPage(mem, q, w) ==> PageAt(after, Leaf(mem, q, w).addr) == PageAt(mem, Leaf(mem, q, w).addr)
  }

  ghost predicate ContentsKept(mem: map<nat, Page>, after: map<nat, Page>, tables: set<nat>) {
    forall q: nat, w: nat :: PageKept(mem, after, tables, q, w)
  }

  // Table p and the free set together hold the same frames; other tables hold
  // what they held.
  ghost predicate Conserved(r: Ram, after: Ram, tables: set<nat>, p: nat) {
    && after.free + Held(after.mem, p) == r.free + Held(r.mem, p)
    && forall q :: q in tables && q != p ==> Held(after.mem, q) == Held(r.mem, q)
  }

  // Slot i of table p: a directory entry that is present stays as it is, an absent one may
  // become the one pagetable_map writes.
  ghost predicate SlotGrown(mem: map<nat, Page>, after: map<nat, Page>, p: nat, i: nat, kernel: bool)
    requires i < ENTRIES
  {
    if Dir(mem, p, i).present || !Dir(after, p, i).present then Dir(after, p, i) == Dir(mem, p, i)
    else Dir(after, p, i) == DirEntry(Dir(after, p, i).addr, kernel)
  }

  // That may happen to the given slots of table p; all other directory entries stay.
  ghost predicate SlotsGrown(mem: map<nat, Page>, after: map<nat, Page>, tables: set<nat>, p: nat, slots: set<nat>,
        kernel: bool)
  {
    forall q: nat, i: nat :: q in tables && i < ENTRIES ==>
      if q == p && i in slots then SlotGrown(mem, after, q, i, kernel) else DirSame(mem, after, q, i)
  }

  lemma {:induction false} SlotsThrough(mem: map<nat, Page>, mid: map<nat, Page>, after: map<nat, Page>,
        tables: set<nat>, p: nat, slots: set<nat>, more: set<nat>, kernel: bool)
    requires SlotsGrown(mem, mid, tables, p, slots, kernel) && SlotsGrown(mid, after, tables, p, more, kernel)
    ensures SlotsGrown(mem, after, tables, p, slots + more, kernel)
  {
    hide Dir, DirEntry;
    forall q: nat, i: nat | q in tables && i < ENTRIES
      ensures if q == p && i in slots + more then SlotGrown(mem, after, q, i, kernel) else DirSame(mem, after, q, i)
    {
      assert SlotGrown(mem, mid, q, i, kernel) || DirSame(mem, mid, q, i);
      assert SlotGrown(mid, after, q, i, kernel) || DirSame(mid, after, q, i);
    }
  }

  lemma NoSlots(mem: map<nat, Page>, after: map<nat, Page>, tables: set<nat>, p: nat, kernel: bool)
    requires SameDirs(mem, after, tables)
    ensures SlotsGrown(mem, after, tables, p, {}, kernel)
  {
    hide Dir;
    forall q: nat, i: nat | q in tables && i < ENTRIES ensures DirSame(mem, after, q, i) {
    }
  }

  lemma NoChange(mem: map<nat, Page>, tables: set<nat>, p: nat, slots: set<nat>, kernel: bool)
    ensures SlotsGrown(mem, mem, tables, p, slots, kernel)
  {
    forall q: nat, i: nat | q in tables && i < ENTRIES
      ensures DirSame(mem, mem, q, i) && SlotGrown(mem, mem, q, i, kernel)
    {
    }
  }

  lemma {:induction false} KeptThrough(mem: map<nat, Page>, mid: map<nat, Page>, after: map<nat, Page>,
        tables: set<nat>)
    requires ContentsKept(mem, mid, tables) && SameLeaves(mem, mid, tables) && ContentsKept(mid, after, tables)
    ensures ContentsKept(mem, after, tables)
  {
    forall q: nat, w: nat ensures PageKept(mem, after, tables, q, w) {
      assert PageKept(mem, mid, tables, q, w) && PageKept(mid, after, tables, q, w);
      assert q in tables ==> LeafSame(mem, mid, q, w);
    }
  }

  lemma {:induction false} LeavesThrough(mem: map<nat, Page>, mid: map<nat, Page>, after: map<nat, Page>,
        tables: set<nat>, p: nat, v: nat)
    requires SameLeaves(mem, mid, tables) && Elsewhere(mid, after, tables, p, v)
    ensures Elsewhere(mem, after, tables, p, v)
  {
    forall q: nat, w: nat | q in tables && (q, w) != (p, v) ensures LeafSame(mem, after, q, w) {
      assert LeafSame(mem, mid, q, w) && LeafSame(mid, after, q, w);
    }
  }

  lemma {:induction false} SameThrough(mem: map<nat, Page>, mid: map<nat, Page>, after: map<nat, Page>,
        tables: set<nat>)
    requires SameLeaves(mem, mid, tables) && SameLeaves(mid, after, tables)
    ensures SameLeaves(mem, after, tables)
  {
    forall q: nat, w: nat | q in tables ensures LeafSame(mem, after, q, w) {
      assert LeafSame(mem, mid, q, w) && LeafSame(mid, after, q, w);
    }
  }

  // A write to a frame that is no owned page keeps the contents of them all.
  lemma {:induction false} WriteKeeps(r: Ram, tables: set<nat>, f: nat, page: Page, k: Key)
    requires Ledger(r, tables)
    requires f in r.free || Loose(r, tables, f) || (IsKey(r.mem, tables, k) && !k.Data? && FrameOf(r.mem, k) == f)
    ensures ContentsKept(r.mem, r.mem[f := page], tables)
  {
    hide Leaf;
    var after := r.mem[f := page];
    forall q: nat, w: nat ensures PageKept(r.mem, after, tables, q, w) {
      var l := Data(q, w);
      if q in tables && OwnedPage(r.mem, q, w) {
        assert IsKey(r.mem, tables, l);
        assert KeyOK(r, tables, l) && Apart(r, tables, k, l) && NotAt(r.mem, tables, l, f) == (FrameOf(r.mem, l) != f);
      }
    }
  }

  // ---------------------------------------------------------------- operations

  // pagetable_create: a table that maps nothing.
  method Create(m: PageMemory) returns (ok: bool, p: Frame)
    requires m.Valid()
    modifies m, m.freemap
    ensures m.Valid() && m.Slack() == old(m.Slack())
    ensures !ok ==> m.View() == old(m.View()) && m.View().free == {} && m.tables == old(m.tables)
    ensures ok ==>
              && p !in old(m.tables) && m.tables == old(m.tables) + {p}
              && p in old(m.View()).free && m.View().free == old(m.View()).free - {p}
              && FlatMap(m.mem, p) == map[] && Held(m.mem, p) == {p}
              && PageAt(m.mem, p) == ZeroPage()
              && SameLeaves(old(m.mem), m.mem, old(m.tables)) && SameDirs(old(m.mem), m.mem, old(m.tables))
              && ContentsKept(old(m.mem), m.mem, old(m.tables))
              && (forall q :: q in old(m.tables) ==> Held(m.mem, q) == Held(old(m.mem), q))
  {
    hide Ledger, Held, Leaf, FreeFrames;
    ok, p := m.PageAlloc(true);
    if ok {
      HeldSame(old(m.mem), m.mem, m.tables);
      WriteKeeps(old(m.View()), m.tables, p, ZeroPage(), Root(p));
      AddRoot(m.View(), m.tables, p);
      m.tables := m.tables + {p};
    }
  }

  // pagetable_getmap
  method GetMap(m: PageMemory, p: nat, vaddr: nat) returns (found: bool, paddr: nat, flags: Flags)
    requires vaddr < ADDRESSES
    ensures found <==> PageOf(vaddr) in FlatMap(m.mem, p)
    ensures found ==> FlatMap(m.mem, p)[PageOf(vaddr)] == (paddr / PAGE_SIZE, flags) && paddr % PAGE_SIZE == 0
    ensures found ==> paddr < ADDRESSES && flags == FlagsOf(Leaf(m.mem, p, PageOf(vaddr)))
  {
    paddr, flags := 0, Flags(false, false, false, false);
    var i := vaddr / 0x40_0000;
    var j := vaddr / PAGE_SIZE % ENTRIES;
    assert i == PageOf(vaddr) / ENTRIES && j == PageOf(vaddr) % ENTRIES;
    var e := PageAt(m.mem, p)[i];
    if !e.present {
      return false, paddr, flags;
    }
    e := PageAt(m.mem, e.addr)[j];
    if !e.present {
      return false, paddr, flags;
    }
    paddr := e.addr * PAGE_SIZE;
    flags := Flags(!e.user, e.avail % 2 == 1, e.readwrite, false);
    found := true;
  }

  // The first half of pagetable_map: the second-level table, made on demand.
  method EnsureTable(m: PageMemory, p: nat, i: nat, kernel: bool) returns (ok: bool, q: Frame)
    requires m.Valid() && p in m.tables && i < ENTRIES
    modifies m`mem, m`pagesFree, m.freemap
    ensures m.Valid() && m.Slack() == old(m.Slack())
    ensures !ok ==> m.View() == old(m.View()) && m.View().free == {}
    ensures ok ==>
              && Dir(m.mem, p, i).present && Dir(m.mem, p, i).addr == q
              && SameLeaves(old(m.mem), m.mem, m.tables) && ContentsKept(old(m.mem), m.mem, m.tables)
              && SlotsGrown(old(m.mem), m.mem, m.tables, p, {i}, kernel)
              && Conserved(old(m.View()), m.View(), m.tables, p) && m.View().free <= old(m.View()).free
              && (forall g :: Loose(old(m.View()), m.tables, g) ==>
                                Loose(m.View(), m.tables, g) && PageAt(m.mem, g) == PageAt(old(m.mem), g))
  {
    hide Ledger, Held, Leaf, FreeFrames, ContentsKept, SameLeaves, FlagsOf, Loose, SlotsGrown;
    ghost var r0 := m.View();
    var e := PageAt(m.mem, p)[i];
    if !e.present {
      ok, q := m.PageAlloc(true);
      if !ok {
        return;
      }
      ghost var r1 := m.View();
      FreshTable(r0, r1, m.tables, p, i, q);
      var entry := DirEntry(q, kernel);
      m.mem := m.mem[p := PageAt(m.mem, p)[i := entry]];
      AddTable(r1, m.tables, p, i, q, entry);
      GrownTable(r0, r1, m.View(), m.tables, p, i, q, entry);
      NewSlot(r0.mem, r1.mem, m.mem, m.tables, p, i, kernel);
    } else {
      Unchanged(r0, m.tables);
      NoChange(m.mem, m.tables, p, {i}, kernel);
      ok, q := true, e.addr;
    }
  }

  lemma {:induction false} NewSlot(mem: map<nat, Page>, mid: map<nat, Page>, after: map<nat, Page>,
        tables: set<nat>, p: nat, i: nat, kernel: bool)
    requires SameDirs(mem, mid, tables) && i < ENTRIES && !Dir(mem, p, i).present
    requires forall x: nat, j: nat :: x in tables && (x, j) != (p, i) ==> DirSame(mid, after, x, j)
    requires Dir(after, p, i) == DirEntry(Dir(after, p, i).addr, kernel)
    ensures SlotsGrown(mem, after, tables, p, {i}, kernel)
  {
    forall q: nat, j: nat | q in tables && j < ENTRIES
      ensures if q == p && j in {i} then SlotGrown(mem, after, q, j, kernel) else DirSame(mem, after, q, j)
    {
      assert DirSame(mem, mid, q, j);
      assert (q, j) != (p, i) ==> DirSame(mid, after, q, j);
    }
  }

  lemma {:induction false} DirsThrough(mem: map<nat, Page>, mid: map<nat, Page>, after: map<nat, Page>,
        tables: set<nat>)
    requires SameDirs(mem, mid, tables) && SameDirs(mid, after, tables)
    ensures SameDirs(mem, after, tables)
  {
    forall q: nat, x: nat | q in tables ensures DirSame(mem, after, q, x) {
      assert DirSame(mem, mid, q, x) && DirSame(mid, after, q, x);
    }
  }

  lemma DirsUnchanged(mem: map<nat, Page>, tables: set<nat>)
    ensures SameDirs(mem, mem, tables)
  {
  }

  lemma Unchanged(r: Ram, tables: set<nat>)
    ensures SameLeaves(r.mem, r.mem, tables) && ContentsKept(r.mem, r.mem, tables)
  {
  }

  // The frame for the table has been taken: the directory is as before.
  lemma {:induction false} FreshTable(r0: Ram, r1: Ram, tables: set<nat>, p: nat, i: nat, q: nat)
    requires Ledger(r0, tables) && p in tables && i < ENTRIES && q in r0.free
    requires r1.mem == r0.mem[q := ZeroPage()] && SameLeaves(r0.mem, r1.mem, tables) && SameDirs(r0.mem, r1.mem, tables)
    ensures Dir(r1.mem, p, i) == Dir(r0.mem, p, i) && PageAt(r1.mem, q) == ZeroPage()
    ensures forall x :: x in tables ==> Held(r1.mem, x) == Held(r0.mem, x)
    ensures ContentsKept(r0.mem, r1.mem, tables)
  {
    hide Held, Leaf, ContentsKept;
    assert DirSame(r0.mem, r1.mem, p, i);
    HeldSame(r0.mem, r1.mem, tables);
    WriteKeeps(r0, tables, q, ZeroPage(), Root(p));
  }

  lemma {:induction false} GrownTable(r0: Ram, r1: Ram, r2: Ram, tables: set<nat>, p: nat, i: nat, q: nat, e: Entry)
    requires Ledger(r1, tables) && p in tables && i < ENTRIES && q in r0.free
    requires r1.free == r0.free - {q} && r1.mem == r0.mem[q := ZeroPage()] && e.present && e.addr == q
    requires r2 == r1.(mem := r1.mem[p := PageAt(r1.mem, p)[i := e]])
    requires SameLeaves(r0.mem, r1.mem, tables) && ContentsKept(r0.mem, r1.mem, tables)
    requires forall x :: x in tables ==> Held(r1.mem, x) == Held(r0.mem, x)
    requires SameLeaves(r1.mem, r2.mem, tables) && Dir(r2.mem, p, i) == e
    requires KeysBut(r1.mem, r2.mem, tables, tables, Table(p, i)) && !IsKey(r1.mem, tables, Table(p, i))
    ensures SameLeaves(r0.mem, r2.mem, tables) && ContentsKept(r0.mem, r2.mem, tables)
    ensures Conserved(r0, r2, tables, p)
    ensures forall g :: Loose(r0, tables, g) ==> g != q && PageAt(r2.mem, g) == PageAt(r0.mem, g)
  {
    hide Held, Leaf, ContentsKept, SameLeaves;
    WriteKeeps(r1, tables, p, PageAt(r2.mem, p), Root(p));
    HeldChange(r1, r2, tables, Table(p, i));
    SameThrough(r0.mem, r1.mem, r2.mem, tables);
    KeptThrough(r0.mem, r1.mem, r2.mem, tables);
    forall g | Loose(r0, tables, g) ensures PageAt(r2.mem, g) == PageAt(r0.mem, g) {
      assert NotAt(r0.mem, tables, Root(p), g);
    }
  }

  // pagetable_map. With the ALLOC flag the frame is a newly allocated one.
  method Map(m: PageMemory, p: nat, vaddr: nat, paddr: nat, flags: Flags) returns (ok: bool)
    requires m.Valid() && p in m.tables && vaddr < ADDRESSES && paddr < ADDRESSES
    modifies m`mem, m`pagesFree, m.freemap
    ensures m.Valid() && m.Slack() == old(m.Slack())
    ensures !ok ==> m.View().free == {}
    ensures ok ==> PageMapped(old(m.View()), m.View(), m.tables, p, PageOf(vaddr), paddr / PAGE_SIZE, flags)
    ensures ok ==> SlotsGrown(old(m.mem), m.mem, m.tables, p, {PageOf(vaddr) / ENTRIES}, flags.kernel)
  {
    hide Ledger, Held, Leaf, FreeFrames, ContentsKept, SameLeaves, FlagsOf, Loose, Elsewhere, SameDirs, Conserved,
         PageMapped, SlotsGrown;
    ghost var r0 := m.View();
    ghost var v := PageOf(vaddr);
    var frame: Frame := paddr / PAGE_SIZE;
    if flags.alloc {
      ok, frame := m.PageAlloc(flags.clear);
      if !ok {
        return;
      }
      FrameTaken(r0, m.View(), m.tables, p, frame);
    } else {
      Unchanged(r0, m.tables);
      DirsUnchanged(r0.mem, m.tables);
    }
    ghost var r1 := m.View();
    NoSlots(r0.mem, r1.mem, m.tables, p, flags.kernel);
    var q: Frame;
    ok, q := EnsureTable(m, p, vaddr / 0x40_0000, flags.kernel);
    if !ok {
      return;
    }
    ghost var r2 := m.View();
    m.mem := m.mem[q := PageAt(m.mem, q)[vaddr / PAGE_SIZE % ENTRIES := MapEntry(frame, flags)]];
    assert v / ENTRIES == vaddr / 0x40_0000;
    SetLeaf(r2, m.tables, p, v, MapEntry(frame, flags));
    NoSlots(r2.mem, m.mem, m.tables, p, flags.kernel);
    SlotsThrough(r0.mem, r1.mem, r2.mem, m.tables, p, {}, {v / ENTRIES}, flags.kernel);
    SlotsThrough(r0.mem, r2.mem, m.mem, m.tables, p, {} + {v / ENTRIES}, {}, flags.kernel);
    assert {} + {v / ENTRIES} + {} == {v / ENTRIES};
    EntryWritten(r0, r1, r2, m.View(), m.tables, p, v, frame, paddr / PAGE_SIZE, flags);
  }

  // The outcome of pagetable_map on page v.
  ghost predicate PageMapped(r: Ram, after: Ram, tables: set<nat>, p: nat, v: nat, frame: nat, flags: Flags)
    requires v < PAGES
  {
    var e := Leaf(after.mem, p, v);
    && e == MapEntry(e.addr, flags) && Elsewhere(r.mem, after.mem, tables, p, v)
    && (if flags.alloc then e.addr in r.free && (flags.clear ==> PageAt(after.mem, e.addr) == ZeroPage())
        else e.addr == frame)
    && ContentsKept(r.mem, after.mem, tables) && after.free <= r.free && after.total == r.total
    && Replaced(r, after, tables, p, v)
  }

  // Every frame is free or in a table as before, except the one page v owned: that one
  // is in no table any more, and not free either.
  ghost predicate Replaced(r: Ram, after: Ram, tables: set<nat>, p: nat, v: nat) {
    var lost := FramesAt(r.mem, tables, Data(p, v));
    && after.free + Held(after.mem, p) == r.free + Held(r.mem, p) - lost
    && (forall q :: q in tables && q != p ==> Held(after.mem, q) == Held(r.mem, q))
    && (forall g :: g in lost ==> Loose(after, tables, g))
  }

  lemma NoneReplaced(r: Ram, after: Ram, tables: set<nat>, p: nat, v: nat)
    requires Replaced(r, after, tables, p, v) && !OwnedPage(r.mem, p, v)
    ensures Conserved(r, after, tables, p)
  {
    hide Held;
    assert FramesAt(r.mem, tables, Data(p, v)) == {};
  }

  lemma {:induction false} FrameTaken(r0: Ram, r1: Ram, tables: set<nat>, p: nat, f: nat)
    requires Ledger(r0, tables) && p in tables && f in r0.free && r1.free == r0.free - {f}
    requires r1.mem == r0.mem[f := PageAt(r1.mem, f)]
    requires SameLeaves(r0.mem, r1.mem, tables) && SameDirs(r0.mem, r1.mem, tables)
    ensures ContentsKept(r0.mem, r1.mem, tables)
    ensures forall x :: x in tables ==> Held(r1.mem, x) == Held(r0.mem, x)
  {
    hide Held, Leaf, ContentsKept;
    HeldSame(r0.mem, r1.mem, tables);
    WriteKeeps(r0, tables, f, PageAt(r1.mem, f), Root(p));
  }

  lemma {:induction false} EntryWritten(r0: Ram, r1: Ram, r2: Ram, r3: Ram, tables: set<nat>, p: nat, v: nat,
        frame: Frame, frame0: nat, flags: Flags)
    requires !flags.alloc ==> frame == frame0
    requires v < PAGES && p in tables && Ledger(r2, tables) && Dir(r2.mem, p, v / ENTRIES).present
    requires if flags.alloc then frame in r0.free && r1.free == r0.free - {frame} && Loose(r2, tables, frame)
                                 && (flags.clear ==> PageAt(r2.mem, frame) == ZeroPage())
             else r1.free == r0.free
    requires SameLeaves(r0.mem, r1.mem, tables) && ContentsKept(r0.mem, r1.mem, tables)
    requires forall x :: x in tables ==> Held(r1.mem, x) == Held(r0.mem, x)
    requires SameLeaves(r1.mem, r2.mem, tables) && ContentsKept(r1.mem, r2.mem, tables)
    requires Conserved(r1, r2, tables, p) && r2.free <= r1.free && r2.total == r1.total == r0.total
    requires r3 == r2.(mem := WithLeaf(r2.mem, p, v, MapEntry(frame, flags)))
    requires Elsewhere(r2.mem, r3.mem, tables, p, v) && Leaf(r3.mem, p, v) == MapEntry(frame, flags)
    requires KeysBut(r2.mem, r3.mem, tables, tables, Data(p, v))
    requires OwnedPage(r2.mem, p, v) ==> Loose(r3, tables, Leaf(r2.mem, p, v).addr)
    ensures PageMapped(r0, r3, tables, p, v, frame0, flags)
  {
    hide Held, Leaf, ContentsKept, SameLeaves, Elsewhere, Ledger, Replaced;
    var q := Dir(r2.mem, p, v / ENTRIES).addr;
    SameThrough(r0.mem, r1.mem, r2.mem, tables);
    LeavesThrough(r0.mem, r2.mem, r3.mem, tables, p, v);
    WriteKeeps(r2, tables, q, PageAt(r3.mem, q), Table(p, v / ENTRIES));
    KeptThrough(r0.mem, r1.mem, r2.mem, tables);
    KeptThrough(r0.mem, r2.mem, r3.mem, tables);
    if flags.alloc {
      assert NotAt(r2.mem, tables, Table(p, v / ENTRIES), frame);
    }
    SamePresence(r0.mem, r2.mem, tables, p, v);
    EntryReplaces(r0, r1, r2, r3, tables, p, v, MapEntry(frame, flags));
  }

  lemma {:induction false} EntryReplaces(r0: Ram, r1: Ram, r2: Ram, r3: Ram, tables: set<nat>, p: nat, v: nat,
        e: Entry)
    requires v < PAGES && p in tables && Ledger(r2, tables) && r3.free == r2.free
    requires FramesAt(r0.mem, tables, Data(p, v)) == FramesAt(r2.mem, tables, Data(p, v))
    requires forall g :: g in FramesAt(r2.mem, tables, Data(p, v)) ==> Loose(r3, tables, g)
    requires if e.present && e.avail != 0 then e.addr in r0.free && r1.free == r0.free - {e.addr}
                                               && Loose(r2, tables, e.addr)
             else r1.free == r0.free
    requires forall x :: x in tables ==> Held(r1.mem, x) == Held(r0.mem, x)
    requires Conserved(r1, r2, tables, p)
    requires Leaf(r3.mem, p, v) == e && KeysBut(r2.mem, r3.mem, tables, tables, Data(p, v))
    ensures Replaced(r0, r3, tables, p, v)
  {
    hide Held, Leaf, Ledger, KeysBut, Loose;
    HeldChange(r2, r3, tables, Data(p, v));
    var lost, added := FramesAt(r2.mem, tables, Data(p, v)), FramesAt(r3.mem, tables, Data(p, v));
    LostApart(r2, tables, p, v, e.addr);
    assert added == if e.present && e.avail != 0 then {e.addr} else {};
    assert r3.free + Held(r3.mem, p) == (r2.free + Held(r2.mem, p)) - lost + added;
    assert r1.free + Held(r1.mem, p) + added == r0.free + Held(r0.mem, p);
    assert r3.free + Held(r3.mem, p) == r0.free + Held(r0.mem, p) - lost;
  }

  lemma LostApart(r: Ram, tables: set<nat>, p: nat, v: nat, g: nat)
    requires Ledger(r, tables)
    ensures FramesAt(r.mem, tables, Data(p, v)) !! r.free
    ensures Loose(r, tables, g) ==> g !in FramesAt(r.mem, tables, Data(p, v))
  {
    hide IsKey, FrameOf, FlagsKept;
    assert KeyOK(r, tables, Data(p, v));
    assert Loose(r, tables, g) ==> NotAt(r.mem, tables, Data(p, v), g);
  }

  lemma SamePresence(mem: map<nat, Page>, after: map<nat, Page>, tables: set<nat>, p: nat, v: nat)
    requires SameLeaves(mem, after, tables) && p in tables && v < PAGES
    ensures OwnedPage(after, p, v) == OwnedPage(mem, p, v)
    ensures FramesAt(after, tables, Data(p, v)) == FramesAt(mem, tables, Data(p, v))
  {
    assert LeafSame(mem, after, p, v);
  }

  lemma {:induction false} FlatOthers(mem: map<nat, Page>, after: map<nat, Page>, tables: set<nat>, p: nat, v: nat)
    requires Elsewhere(mem, after, tables, p, v)
    ensures forall q :: q in tables && q != p ==> FlatMap(after, q) == FlatMap(mem, q)
  {
    hide Leaf;
    forall q | q in tables && q != p ensures FlatMap(after, q) == FlatMap(mem, q) {
      forall w: nat | w < PAGES ensures Leaf(after, q, w) == Leaf(mem, q, w) {
        assert LeafSame(mem, after, q, w);
      }
    }
  }

  // Mapping page v binds it in the flat map of p, and in no other.
  lemma {:induction false} MapIsUpdate(r: Ram, after: Ram, tables: set<nat>, p: nat, v: nat, frame: nat, flags: Flags)
    requires v < PAGES && p in tables && PageMapped(r, after, tables, p, v, frame, flags)
    ensures FlatMap(after.mem, p) == FlatMap(r.mem, p)[v := (Leaf(after.mem, p, v).addr, flags.(clear := false))]
    ensures !flags.alloc ==> FlatMap(after.mem, p)[v].0 == frame
    ensures forall q :: q in tables && q != p ==> FlatMap(after.mem, q) == FlatMap(r.mem, q)
  {
    hide Leaf, Held, Elsewhere;
    FlatOthers(r.mem, after.mem, tables, p, v);
    ElsewhereAt(r.mem, after.mem, tables, p, v);
    MapReports(Leaf(after.mem, p, v).addr, flags);
  }

  lemma {:induction false} ElsewhereAt(mem: map<nat, Page>, after: map<nat, Page>, tables: set<nat>, p: nat, v: nat)
    requires Elsewhere(mem, after, tables, p, v) && p in tables
    ensures forall w: nat {:trigger Mapped(after, p, w)} :: w < PAGES && w != v ==> Leaf(after, p, w) == Leaf(mem, p, w)
  {
    forall w: nat | w < PAGES && w != v ensures Leaf(after, p, w) == Leaf(mem, p, w) {
      assert LeafSame(mem, after, p, w);
    }
  }
}

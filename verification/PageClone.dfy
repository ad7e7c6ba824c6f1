// pagetable.c, the operations on whole tables: pagetable_delete gives back
// every frame once, pagetable_duplicate copies every owned page.
module PageClone {
  import opened PageLedger
  import opened PageMemory
  import opened PageTables

  // ---------------------------------------------------------------- deleting

  // The frames freed once the first i second-level tables and the first n
  // pages have been visited.
  ghost function Visited(mem: map<nat, Page>, p: nat, i: nat, n: nat): set<nat>
    requires i <= ENTRIES && n <= PAGES
  {
    TableFrames(mem, p, i) + DataFrames(mem, p, n)
  }

  // The page behind entry j of second-level table i.
  lemma PageSplits(i: nat, j: nat)
    requires i < ENTRIES && j < ENTRIES
    ensures var v := ENTRIES * i + j; v < PAGES && v / ENTRIES == i && v % ENTRIES == j
  {
  }

  lemma EntryIs(mem: map<nat, Page>, p: nat, i: nat, j: nat)
    requires i < ENTRIES && j < ENTRIES && Dir(mem, p, i).present
    ensures var e := PageAt(mem, Dir(mem, p, i).addr)[j];
            Leaf(mem, p, ENTRIES * i + j) == e && (OwnedPage(mem, p, ENTRIES * i + j) <==> e.present && e.avail != 0)
  {
    PageSplits(i, j);
  }

  lemma {:induction false} VisitPage(r: Ram, tables: set<nat>, p: nat, i: nat, n: nat)
    requires Ledger(r, tables) && p in tables && i <= ENTRIES && n < PAGES
    ensures Visited(r.mem, p, i, n + 1)
            == Visited(r.mem, p, i, n) + if OwnedPage(r.mem, p, n) then {Leaf(r.mem, p, n).addr} else {}
    ensures OwnedPage(r.mem, p, n) ==>
              var f := Leaf(r.mem, p, n).addr; InRange(r, f) && f !in r.free + Visited(r.mem, p, i, n)
  {
    hide Leaf;
    if OwnedPage(r.mem, p, n) {
      var k := Data(p, n);
      assert KeyOK(r, tables, k);
      forall x: nat | x < i && Dir(r.mem, p, x).present ensures Dir(r.mem, p, x).addr != FrameOf(r.mem, k) {
        assert Apart(r, tables, k, Table(p, x));
      }
      forall v: nat | v < n && OwnedPage(r.mem, p, v) ensures Leaf(r.mem, p, v).addr != FrameOf(r.mem, k) {
        assert Apart(r, tables, k, Data(p, v));
      }
    }
  }

  // The same, for entry j of second-level table i.
  lemma {:induction false} VisitEntry(r: Ram, tables: set<nat>, p: nat, i: nat, j: nat)
    requires Ledger(r, tables) && p in tables && i < ENTRIES && j < ENTRIES && Dir(r.mem, p, i).present
    ensures ENTRIES * i + j < PAGES
    ensures var e, n := PageAt(r.mem, Dir(r.mem, p, i).addr)[j], ENTRIES * i + j;
            && Visited(r.mem, p, i, n + 1)
               == Visited(r.mem, p, i, n) + (if e.present && e.avail != 0 then {e.addr} else {})
            && (e.present && e.avail != 0 ==> InRange(r, e.addr) && e.addr !in r.free + Visited(r.mem, p, i, n))
  {
    hide Ledger, Visited, Leaf, OwnedPage;
    PageSplits(i, j);
    VisitPage(r, tables, p, i, ENTRIES * i + j);
    EntryIs(r.mem, p, i, j);
  }

  lemma {:induction false} VisitTable(r: Ram, tables: set<nat>, p: nat, i: nat, n: nat)
    requires Ledger(r, tables) && p in tables && i < ENTRIES && n <= PAGES
    ensures Visited(r.mem, p, i + 1, n)
            == Visited(r.mem, p, i, n) + if Dir(r.mem, p, i).present then {Dir(r.mem, p, i).addr} else {}
    ensures Dir(r.mem, p, i).present ==>
              var f := Dir(r.mem, p, i).addr; InRange(r, f) && f !in r.free + Visited(r.mem, p, i, n)
  {
    hide Leaf;
    if Dir(r.mem, p, i).present {
      var k := Table(p, i);
      assert IsKey(r.mem, tables, k);
      assert KeyOK(r, tables, k);
      forall x: nat | x < i && Dir(r.mem, p, x).present ensures Dir(r.mem, p, x).addr != FrameOf(r.mem, k) {
        assert Apart(r, tables, k, Table(p, x));
      }
      forall v: nat | v < n && OwnedPage(r.mem, p, v) ensures Leaf(r.mem, p, v).addr != FrameOf(r.mem, k) {
        assert Apart(r, tables, k, Data(p, v));
      }
    }
  }

  lemma VisitNothing(mem: map<nat, Page>, p: nat, i: nat)
    requires i < ENTRIES && !Dir(mem, p, i).present
    ensures Visited(mem, p, i, ENTRIES * (i + 1)) == Visited(mem, p, i, ENTRIES * i)
  {
    assert forall v: nat :: ENTRIES * i <= v < ENTRIES * (i + 1) ==> !Mapped(mem, p, v);
  }

  lemma {:induction false} VisitedAll(r: Ram, tables: set<nat>, p: nat)
    requires Ledger(r, tables) && p in tables
    ensures Visited(r.mem, p, ENTRIES, PAGES) + {p} == Held(r.mem, p)
    ensures InRange(r, p) && p !in r.free + Visited(r.mem, p, ENTRIES, PAGES)
    ensures Ledger(r.(free := r.free + Held(r.mem, p)), tables - {p})
  {
    hide Leaf;
    assert KeyOK(r, tables, Root(p));
    forall x: nat | x < ENTRIES && Dir(r.mem, p, x).present ensures Dir(r.mem, p, x).addr != p {
      assert Apart(r, tables, Root(p), Table(p, x));
    }
    forall v: nat | v < PAGES && OwnedPage(r.mem, p, v) ensures Leaf(r.mem, p, v).addr != p {
      assert Apart(r, tables, Root(p), Data(p, v));
    }
    RemoveTable(r, tables, p);
  }

  lemma {:induction false} RemoveTable(r: Ram, tables: set<nat>, p: nat)
    requires Ledger(r, tables) && p in tables
    ensures Ledger(r.(free := r.free + Held(r.mem, p)), tables - {p})
  {
    hide Held, FrameOf;
    var after := r.(free := r.free + Held(r.mem, p));
    forall f | f in Held(r.mem, p) ensures InRange(r, f) {
      var k := HeldIsKeyed(r.mem, p, f);
      assert KeyOK(r, tables, k);
    }
    forall k ensures KeyOK(after, tables - {p}, k) {
      assert KeyOK(r, tables, k);
      if IsKey(r.mem, tables - {p}, k) {
        HeldApart(r, tables, p, k);
      }
    }
    forall k, l ensures Apart(after, tables - {p}, k, l) {
      assert Apart(r, tables, k, l);
    }
    forall q: nat, v: nat ensures FlagOK(r.mem, tables - {p}, q, v) {
      assert FlagOK(r.mem, tables, q, v);
    }
  }

  // pagetable_delete: exactly the frames the table held become free, each
  // freed once.
  method Delete(m: PageMemory, p: nat)
    requires m.Valid() && p in m.tables
    modifies m`pagesFree, m`tables, m.freemap
    ensures m.Valid() && m.Slack() == old(m.Slack()) && m.tables == old(m.tables) - {p}
    ensures m.View() == old(m.View()).(free := old(m.View()).free + Held(m.mem, p))
  {
    hide Ledger, Held, Leaf, FreeFrames, Visited;
    ghost var r := m.View();
    VisitedNone(r.mem, p);
    var i := 0;
    while i < ENTRIES
      invariant 0 <= i <= ENTRIES && m.Mapped() && m.Slack() == old(m.Slack()) && m.tables == old(m.tables)
      invariant m.View() == r.(free := r.free + Visited(r.mem, p, i, ENTRIES * i))
    {
      var e := PageAt(m.mem, p)[i];
      VisitTable(r, m.tables, p, i, ENTRIES * (i + 1));
      if e.present {
        FreeEntries(m, r, p, i, e.addr);
      } else {
        VisitNothing(r.mem, p, i);
      }
      i := i + 1;
    }
    FreeRoot(m, r, p);
  }

  method FreeRoot(m: PageMemory, ghost r: Ram, p: nat)
    requires m.Mapped() && Ledger(r, m.tables) && p in m.tables
    requires m.View() == r.(free := r.free + Visited(r.mem, p, ENTRIES, PAGES))
    modifies m`pagesFree, m`tables, m.freemap
    ensures m.Valid() && m.Slack() == old(m.Slack()) && m.tables == old(m.tables) - {p}
    ensures m.View() == r.(free := r.free + Held(r.mem, p))
  {
    hide Ledger, Held, FreeFrames, Visited;
    VisitedAll(r, m.tables, p);
    m.PageFree(p);
    m.tables := m.tables - {p};
    assert m.View().free == r.free + Held(r.mem, p);
  }

  lemma VisitedNone(mem: map<nat, Page>, p: nat)
    ensures Visited(mem, p, 0, 0) == {}
  {
  }

  // The pages of second-level table q, then q itself.
  method FreeEntries(m: PageMemory, ghost r: Ram, p: nat, i: nat, q: nat)
    requires m.Mapped() && Ledger(r, m.tables) && p in m.tables && i < ENTRIES
    requires Dir(r.mem, p, i).present && Dir(r.mem, p, i).addr == q
    requires m.View() == r.(free := r.free + Visited(r.mem, p, i, ENTRIES * i))
    modifies m`pagesFree, m.freemap
    ensures m.Mapped() && m.Slack() == old(m.Slack())
    ensures m.View() == r.(free := r.free + Visited(r.mem, p, i + 1, ENTRIES * (i + 1)))
  {
    hide Ledger, FreeFrames, Visited, Leaf, OwnedPage;
    var j := 0;
    while j < ENTRIES
      invariant 0 <= j <= ENTRIES && m.Mapped() && m.Slack() == old(m.Slack())
      invariant m.View() == r.(free := r.free + Visited(r.mem, p, i, ENTRIES * i + j))
    {
      var e := PageAt(m.mem, q)[j];
      VisitEntry(r, m.tables, p, i, j);
      if e.present && e.avail != 0 {
        m.PageFree(e.addr);
      }
      j := j + 1;
    }
    VisitTable(r, m.tables, p, i, ENTRIES * (i + 1));
    m.PageFree(q);
  }

  // ---------------------------------------------------------------- duplicating

  // Page v of the copy: the same entry, but for the frame of an owned page,
  // which is new and holds the same contents.
  ghost predicate CopyAt(r0: Ram, mem: map<nat, Page>, sp: nat, np: nat, v: nat) {
    v < PAGES ==>
      var e := Leaf(r0.mem, sp, v);
      var c := Leaf(mem, np, v);
      if e.present && e.avail != 0
      then c == e.(addr := c.addr) && c.addr in r0.free && PageAt(mem, c.addr) == PageAt(r0.mem, e.addr)
      else c == e
  }

  ghost predicate Copied(r0: Ram, r: Ram, tables: set<nat>, sp: nat, np: nat, n: nat) {
    && (forall v: nat :: v < n ==> CopyAt(r0, r.mem, sp, np, v))
    && (forall v: nat :: n <= v ==> !Mapped(r.mem, np, v))
    && SameLeaves(r0.mem, r.mem, tables) && SameDirs(r0.mem, r.mem, tables) && ContentsKept(r0.mem, r.mem, tables)
    && r.free + Held(r.mem, np) == r0.free && r.free <= r0.free && r.total == r0.total
    && forall q :: q in tables ==> Held(r.mem, q) == Held(r0.mem, q)
  }

  // Slot i of the copy: the same directory entry, but for the frame of the table.
  ghost predicate SlotCopied(mem0: map<nat, Page>, mem: map<nat, Page>, sp: nat, np: nat, i: nat)
    requires i < ENTRIES
  {
    if Dir(mem0, sp, i).present then Dir(mem, np, i) == Dir(mem0, sp, i).(addr := Dir(mem, np, i).addr)
    else !Dir(mem, np, i).present
  }

  ghost predicate SlotsCopied(mem0: map<nat, Page>, mem: map<nat, Page>, sp: nat, np: nat) {
    forall i: nat :: i < ENTRIES ==> SlotCopied(mem0, mem, sp, np, i)
  }

  lemma SourceSlot(r0: Ram, r: Ram, tables: set<nat>, sp: nat, np: nat, n: nat, i: nat)
    requires Copied(r0, r, tables, sp, np, n) && sp in tables && i < ENTRIES
    ensures Dir(r.mem, sp, i) == Dir(r0.mem, sp, i)
  {
    assert DirSame(r0.mem, r.mem, sp, i);
  }

  lemma StillCopied(mem0: map<nat, Page>, mem: map<nat, Page>, after: map<nat, Page>, sp: nat, np: nat, n: nat)
    requires n < ENTRIES && forall x: nat :: x < n ==> SlotCopied(mem0, mem, sp, np, x)
    requires forall x: nat :: x < n ==> Dir(after, np, x) == Dir(mem, np, x)
    ensures forall x: nat :: x < n ==> SlotCopied(mem0, after, sp, np, x)
  {
    hide Dir;
    forall x: nat | x < n ensures SlotCopied(mem0, after, sp, np, x) {
      assert SlotCopied(mem0, mem, sp, np, x);
    }
  }

  // A step of the copy that may change page v of the new table only.
  ghost predicate CopyMove(r: Ram, after: Ram, tables: set<nat>, np: nat, v: nat) {
    && Elsewhere(r.mem, after.mem, tables, np, v) && SameDirs(r.mem, after.mem, tables - {np})
    && ContentsKept(r.mem, after.mem, tables) && Conserved(r, after, tables, np)
    && after.free <= r.free && after.total == r.total
  }

  lemma {:induction false} CopyMoved(r0: Ram, r: Ram, after: Ram, tables: set<nat>, sp: nat, np: nat, v: nat)
    requires Copied(r0, r, tables, sp, np, v) && sp in tables && np !in tables && v < PAGES
    requires CopyMove(r, after, tables + {np}, np, v) && CopyAt(r0, after.mem, sp, np, v)
    ensures Copied(r0, after, tables, sp, np, v + 1)
  {
    hide Leaf, Held;
    assert (tables + {np}) - {np} == tables;
    forall w: nat ensures (w < v ==> CopyAt(r0, after.mem, sp, np, w)) && (v < w ==> !Mapped(after.mem, np, w)) {
      if w != v {
        assert LeafSame(r.mem, after.mem, np, w);
        assert PageKept(r.mem, after.mem, tables + {np}, np, w);
        assert w < v ==> CopyAt(r0, r.mem, sp, np, w);
        assert v < w ==> !Mapped(r.mem, np, w);
      }
    }
    forall q: nat, w: nat | q in tables ensures LeafSame(r0.mem, after.mem, q, w) {
      assert LeafSame(r0.mem, r.mem, q, w) && LeafSame(r.mem, after.mem, q, w);
    }
    forall q: nat, i: nat | q in tables ensures DirSame(r0.mem, after.mem, q, i) {
      assert DirSame(r0.mem, r.mem, q, i) && DirSame(r.mem, after.mem, q, i);
    }
    forall q: nat, w: nat ensures PageKept(r0.mem, after.mem, tables, q, w) {
      assert PageKept(r0.mem, r.mem, tables, q, w) && PageKept(r.mem, after.mem, tables + {np}, q, w);
      assert q in tables ==> LeafSame(r0.mem, r.mem, q, w);
    }
  }

  // pagetable_duplicate: the same pages with the same flags; every owned page
  // has a frame of its own with the contents of the original.
  method Duplicate(m: PageMemory, sp: nat) returns (ok: bool, np: Frame)
    requires m.Valid() && sp in m.tables
    modifies m, m.freemap
    ensures m.Valid() && m.Slack() == old(m.Slack())
    ensures !ok ==> m.View().free == {}
    ensures ok ==> np !in old(m.tables) && m.tables == old(m.tables) + {np}
                   && Copied(old(m.View()), m.View(), old(m.tables), sp, np, PAGES)
                   && SlotsCopied(old(m.mem), m.mem, sp, np)
  {
    hide Ledger, Held, Leaf, FreeFrames, Copied, ContentsKept, SameLeaves, FlatMap;
    ghost var r0 := m.View();
    ghost var tables := m.tables;
    ok, np := Create(m);
    if !ok {
      return;
    }
    CopyNone(r0, m.View(), tables, sp, np);
    var i := 0;
    while i < ENTRIES
      invariant 0 <= i <= ENTRIES && m.Valid() && m.Slack() == old(m.Slack()) && m.tables == tables + {np}
      invariant Copied(r0, m.View(), tables, sp, np, ENTRIES * i)
      invariant forall x :: i <= x < ENTRIES ==> !Dir(m.mem, np, x).present
      invariant forall x: nat :: x < i ==> SlotCopied(r0.mem, m.mem, sp, np, x)
    {
      var e := PageAt(m.mem, sp)[i];
      SourceSlot(r0, m.View(), tables, sp, np, ENTRIES * i, i);
      ghost var mid := m.mem;
      if e.present {
        ok := CopyTable(m, r0, tables, sp, np, i);
        if !ok {
          return;
        }
        StillCopied(r0.mem, mid, m.mem, sp, np, i);
      } else {
        CopyBlank(r0, m.View(), tables, sp, np, i);
      }
      i := i + 1;
    }
    ok := true;
  }

  lemma {:induction false} CopyNone(r0: Ram, r: Ram, tables: set<nat>, sp: nat, np: nat)
    requires SameLeaves(r0.mem, r.mem, tables) && SameDirs(r0.mem, r.mem, tables) && ContentsKept(r0.mem, r.mem, tables)
    requires np in r0.free && r.free == r0.free - {np} && r.total == r0.total && Held(r.mem, np) == {np}
    requires forall q :: q in tables ==> Held(r.mem, q) == Held(r0.mem, q)
    requires PageAt(r.mem, np) == ZeroPage()
    ensures Copied(r0, r, tables, sp, np, 0)
    ensures forall x :: 0 <= x < ENTRIES ==> !Dir(r.mem, np, x).present
  {
    hide Held, ContentsKept, SameLeaves, SameDirs;
  }

  // No table on the source side, so none of its pages is mapped on either side.
  lemma {:induction false} CopyBlank(r0: Ram, r: Ram, tables: set<nat>, sp: nat, np: nat, i: nat)
    requires i < ENTRIES && Copied(r0, r, tables, sp, np, ENTRIES * i) && sp in tables
    requires !Dir(r.mem, sp, i).present && !Dir(r.mem, np, i).present
    ensures Copied(r0, r, tables, sp, np, ENTRIES * (i + 1))
  {
    hide Held, ContentsKept;
    forall v: nat | ENTRIES * i <= v < ENTRIES * (i + 1) ensures CopyAt(r0, r.mem, sp, np, v) {
      assert v / ENTRIES == i;
      assert LeafSame(r0.mem, r.mem, sp, v);
    }
  }

  // The new table gained a second-level table that maps nothing yet.
  lemma {:induction false} CopyGrown(r0: Ram, r: Ram, after: Ram, tables: set<nat>, sp: nat, np: nat, n: nat)
    requires Copied(r0, r, tables, sp, np, n) && sp in tables && np !in tables
    requires SameLeaves(r.mem, after.mem, tables + {np}) && SameDirs(r.mem, after.mem, tables)
    requires ContentsKept(r.mem, after.mem, tables + {np}) && Conserved(r, after, tables + {np}, np)
    requires after.free <= r.free && after.total == r.total
    ensures Copied(r0, after, tables, sp, np, n)
  {
    hide Leaf, Held;
    forall w: nat ensures (w < n ==> CopyAt(r0, after.mem, sp, np, w)) && (n <= w ==> !Mapped(after.mem, np, w)) {
      assert LeafSame(r.mem, after.mem, np, w);
      assert PageKept(r.mem, after.mem, tables + {np}, np, w);
      assert w < n ==> CopyAt(r0, r.mem, sp, np, w);
      assert n <= w ==> !Mapped(r.mem, np, w);
    }
    forall q: nat, w: nat | q in tables ensures LeafSame(r0.mem, after.mem, q, w) {
      assert LeafSame(r0.mem, r.mem, q, w) && LeafSame(r.mem, after.mem, q, w);
    }
    forall q: nat, i: nat | q in tables ensures DirSame(r0.mem, after.mem, q, i) {
      assert DirSame(r0.mem, r.mem, q, i) && DirSame(r.mem, after.mem, q, i);
    }
    forall q: nat, w: nat ensures PageKept(r0.mem, after.mem, tables, q, w) {
      assert PageKept(r0.mem, r.mem, tables, q, w) && PageKept(r.mem, after.mem, tables + {np}, q, w);
      assert q in tables ==> LeafSame(r0.mem, r.mem, q, w);
    }
  }

  // The body of the outer loop for a directory slot in use.
  method CopyTable(m: PageMemory, ghost r0: Ram, ghost tables: set<nat>, sp: nat, np: nat, i: nat) returns (ok: bool)
    requires m.Valid() && sp in tables && np !in tables && m.tables == tables + {np} && i < ENTRIES
    requires Copied(r0, m.View(), tables, sp, np, ENTRIES * i) && Dir(m.mem, sp, i).present
    requires forall x :: i <= x < ENTRIES ==> !Dir(m.mem, np, x).present
    modifies m`mem, m`pagesFree, m.freemap
    ensures m.Valid() && m.Slack() == old(m.Slack())
    ensures !ok ==> m.View().free == {}
    ensures ok ==> Copied(r0, m.View(), tables, sp, np, ENTRIES * (i + 1))
    ensures ok ==> forall x :: i < x < ENTRIES ==> !Dir(m.mem, np, x).present
    ensures ok ==> SlotCopied(r0.mem, m.mem, sp, np, i)
    ensures ok ==> forall x: nat :: x < i ==> Dir(m.mem, np, x) == Dir(old(m.mem), np, x)
  {
    hide Ledger, Held, Leaf, FreeFrames, Copied, ContentsKept, SameLeaves;
    var e := PageAt(m.mem, sp)[i];
    SourceSlot(r0, m.View(), tables, sp, np, ENTRIES * i, i);
    var newq: Frame;
    ok, newq := CopySlot(m, sp, np, i);
    if !ok {
      return;
    }
    forall x: nat, k: nat | x in tables ensures DirSame(old(m.mem), m.mem, x, k) {
    }
    CopyGrown(r0, old(m.View()), m.View(), tables, sp, np, ENTRIES * i);
    var j := 0;
    while j < ENTRIES
      invariant 0 <= j <= ENTRIES && m.Valid() && m.Slack() == old(m.Slack())
      invariant Dir(m.mem, sp, i) == e && Dir(m.mem, np, i) == e.(addr := newq)
      invariant Copied(r0, m.View(), tables, sp, np, ENTRIES * i + j)
      invariant forall x :: i < x < ENTRIES ==> !Dir(m.mem, np, x).present
      invariant forall x: nat :: x < i ==> Dir(m.mem, np, x) == Dir(old(m.mem), np, x)
    {
      ok := CopyPage(m, r0, tables, sp, np, i, j);
      if !ok {
        return;
      }
      j := j + 1;
    }
    ok := true;
  }

  // A second-level table for slot i of the new table, with the flags of the old.
  method CopySlot(m: PageMemory, sp: nat, np: nat, i: nat) returns (ok: bool, newq: Frame)
    requires m.Valid() && sp in m.tables && np in m.tables && sp != np && i < ENTRIES
    requires Dir(m.mem, sp, i).present && !Dir(m.mem, np, i).present
    modifies m`mem, m`pagesFree, m.freemap
    ensures m.Valid() && m.Slack() == old(m.Slack())
    ensures !ok ==> m.View().free == {}
    ensures ok ==>
              && SameLeaves(old(m.mem), m.mem, m.tables) && ContentsKept(old(m.mem), m.mem, m.tables)
              && Conserved(old(m.View()), m.View(), m.tables, np) && m.View().free <= old(m.View()).free
              && Dir(m.mem, np, i) == Dir(old(m.mem), sp, i).(addr := newq)
              && (forall x: nat, k: nat :: x in m.tables && k < ENTRIES && (x, k) != (np, i) ==>
                                             Dir(m.mem, x, k) == Dir(old(m.mem), x, k))
  {
    hide Ledger, Held, Leaf, FreeFrames, ContentsKept, SameLeaves, Loose;
    ghost var r0 := m.View();
    var e := PageAt(m.mem, sp)[i];
    ok, newq := m.PageAlloc(true);
    if !ok {
      return;
    }
    ghost var r1 := m.View();
    FreshTable(r0, r1, m.tables, np, i, newq);
    var entry := e.(addr := newq);
    m.mem := m.mem[np := PageAt(m.mem, np)[i := entry]];
    AddTable(r1, m.tables, np, i, newq, entry);
    GrownTable(r0, r1, m.View(), m.tables, np, i, newq, entry);
    forall x: nat, k: nat | x in m.tables && k < ENTRIES && (x, k) != (np, i)
      ensures Dir(m.mem, x, k) == Dir(r0.mem, x, k)
    {
      assert DirSame(r0.mem, r1.mem, x, k) && DirSame(r1.mem, m.mem, x, k);
    }
  }

  // A new frame with the contents of page v of sp.
  method CopyFrame(m: PageMemory, ghost sp: nat, ghost v: nat, g: Frame) returns (ok: bool, f: Frame)
    requires m.Valid() && sp in m.tables && OwnedPage(m.mem, sp, v) && g == Leaf(m.mem, sp, v).addr
    modifies m`mem, m`pagesFree, m.freemap
    ensures m.Valid() && m.Slack() == old(m.Slack())
    ensures !ok ==> m.View().free == {}
    ensures ok ==>
              && f in old(m.View()).free && m.View().free == old(m.View()).free - {f}
              && Loose(m.View(), m.tables, f) && PageAt(m.mem, f) == PageAt(old(m.mem), g)
              && SameLeaves(old(m.mem), m.mem, m.tables) && SameDirs(old(m.mem), m.mem, m.tables)
              && ContentsKept(old(m.mem), m.mem, m.tables)
              && (forall x :: x in m.tables ==> Held(m.mem, x) == Held(old(m.mem), x))
  {
    hide Ledger, Held, FreeFrames, ContentsKept, SameLeaves, SameDirs, Loose, Leaf;
    ghost var mid := m.View();
    ok, f := m.PageAlloc(false);
    if !ok {
      return;
    }
    m.mem := m.mem[f := PageAt(m.mem, g)];
    SourceKept(mid, m.tables, f, g, sp, v);
    TakeFrame(mid, m.tables, f, PageAt(mid.mem, g));
    FrameTaken(mid, m.View(), m.tables, sp, f);
  }

  // The body of the inner loop: page v = 1024 i + j.
  method CopyPage(m: PageMemory, ghost r0: Ram, ghost tables: set<nat>, sp: nat, np: nat, i: nat, j: nat)
    returns (ok: bool)
    requires m.Valid() && sp in tables && np !in tables && m.tables == tables + {np} && i < ENTRIES && j < ENTRIES
    requires Copied(r0, m.View(), tables, sp, np, ENTRIES * i + j)
    requires Dir(m.mem, sp, i).present && Dir(m.mem, np, i).present
    modifies m`mem, m`pagesFree, m.freemap
    ensures m.Valid() && m.Slack() == old(m.Slack())
    ensures !ok ==> m.View().free == {}
    ensures ok ==> Copied(r0, m.View(), tables, sp, np, ENTRIES * i + j + 1)
    ensures ok ==> forall q: nat, x: nat :: q in m.tables && x < ENTRIES ==> Dir(m.mem, q, x) == Dir(old(m.mem), q, x)
  {
    hide Ledger, Held, FreeFrames, Copied, ContentsKept, SameLeaves, SameDirs, Loose, Leaf, OwnedPage, WithLeaf;
    ghost var mid := m.View();
    ghost var v := ENTRIES * i + j;
    PageSplits(i, j);
    var q, newq := PageAt(m.mem, sp)[i].addr, PageAt(m.mem, np)[i].addr;
    var e := PageAt(m.mem, q)[j];
    EntryIs(m.mem, sp, i, j);
    SourceEntry(r0, mid, tables, sp, np, v);
    var newe := e;
    if e.present && e.avail != 0 {
      var f: Frame;
      ok, f := CopyFrame(m, sp, v, e.addr);
      if !ok {
        return;
      }
      newe := e.(addr := f);
    } else {
      Unchanged(mid, m.tables);
      DirsUnchanged(mid.mem, m.tables);
    }
    ghost var r1 := m.View();
    SlotStays(mid, r1, m.tables, np, i);
    m.mem := m.mem[newq := PageAt(m.mem, newq)[j := newe]];
    LeafStored(r1.mem, np, i, j, newe);
    EntryCopied(r0, mid, r1, m.View(), tables, sp, np, v, newe);
    ok := true;
  }

  lemma LeafStored(mem: map<nat, Page>, p: nat, i: nat, j: nat, e: Entry)
    requires i < ENTRIES && j < ENTRIES
    ensures ENTRIES * i + j < PAGES
    ensures var q := Dir(mem, p, i).addr;
            WithLeaf(mem, p, ENTRIES * i + j, e) == mem[q := PageAt(mem, q)[j := e]]
  {
    PageSplits(i, j);
  }

  // The entry stored, with its new frame if it owns one.
  lemma {:induction false} EntryCopied(r0: Ram, mid: Ram, r1: Ram, after: Ram, tables: set<nat>, sp: nat, np: nat,
        v: nat, newe: Entry)
    requires v < PAGES && sp in tables && np !in tables && Copied(r0, mid, tables, sp, np, v)
    requires Ledger(mid, tables + {np}) && Ledger(r1, tables + {np}) && Dir(r1.mem, np, v / ENTRIES).present
    requires var e := Leaf(r0.mem, sp, v);
             && (e.present ==> e.avail <= 1)
             && if e.present && e.avail != 0
                then && newe == e.(addr := newe.addr) && newe.addr in mid.free && r1.free == mid.free - {newe.addr}
                     && Loose(r1, tables + {np}, newe.addr) && PageAt(r1.mem, newe.addr) == PageAt(r0.mem, e.addr)
                else newe == e && r1.free == mid.free
    requires SameLeaves(mid.mem, r1.mem, tables + {np}) && SameDirs(mid.mem, r1.mem, tables + {np})
    requires ContentsKept(mid.mem, r1.mem, tables + {np}) && r1.total == mid.total
    requires forall x :: x in tables + {np} ==> Held(r1.mem, x) == Held(mid.mem, x)
    requires after == r1.(mem := WithLeaf(r1.mem, np, v, newe))
    ensures Ledger(after, tables + {np}) && Copied(r0, after, tables, sp, np, v + 1)
    ensures forall q: nat, x: nat :: q in tables + {np} && x < ENTRIES ==> Dir(after.mem, q, x) == Dir(mid.mem, q, x)
  {
    hide Ledger, Held, Copied, ContentsKept, SameLeaves, SameDirs, Loose, Leaf, OwnedPage, WithLeaf, Elsewhere,
         KeysBut, Dir;
    var all := tables + {np};
    SetLeaf(r1, all, np, v, newe);
    CopiedEntry(r0, mid, r1, after, tables, sp, np, v, newe);
    DirsThrough(mid.mem, r1.mem, after.mem, all);
    DirsAre(mid.mem, after.mem, all);
  }

  lemma DirsAre(mem: map<nat, Page>, after: map<nat, Page>, tables: set<nat>)
    requires SameDirs(mem, after, tables)
    ensures forall q: nat, x: nat :: q in tables && x < ENTRIES ==> Dir(after, q, x) == Dir(mem, q, x)
  {
    forall q: nat, x: nat | q in tables && x < ENTRIES ensures Dir(after, q, x) == Dir(mem, q, x) {
      assert DirSame(mem, after, q, x);
    }
  }

  lemma {:induction false} SourceEntry(r0: Ram, mid: Ram, tables: set<nat>, sp: nat, np: nat, v: nat)
    requires Copied(r0, mid, tables, sp, np, v) && sp in tables && v < PAGES && Ledger(mid, tables + {np})
    ensures Leaf(mid.mem, sp, v) == Leaf(r0.mem, sp, v) && !OwnedPage(mid.mem, np, v)
    ensures OwnedPage(mid.mem, sp, v) <==> OwnedPage(r0.mem, sp, v)
    ensures Leaf(mid.mem, sp, v).present ==> Leaf(mid.mem, sp, v).avail <= 1
    ensures OwnedPage(r0.mem, sp, v) ==>
              PageAt(mid.mem, Leaf(r0.mem, sp, v).addr) == PageAt(r0.mem, Leaf(r0.mem, sp, v).addr)
  {
    hide Held;
    assert LeafSame(r0.mem, mid.mem, sp, v);
    assert PageKept(r0.mem, mid.mem, tables, sp, v);
    assert FlagOK(mid.mem, tables + {np}, sp, v);
    assert !Mapped(mid.mem, np, v);
  }

  // The source page is not the frame that was just allocated.
  lemma {:induction false} SourceKept(mid: Ram, tables: set<nat>, f: nat, g: nat, sp: nat, v: nat)
    requires Ledger(mid, tables) && sp in tables && f in mid.free && OwnedPage(mid.mem, sp, v)
    requires g == Leaf(mid.mem, sp, v).addr
    ensures f != g
  {
    assert KeyOK(mid, tables, Data(sp, v));
  }

  lemma SlotStays(mid: Ram, r1: Ram, tables: set<nat>, np: nat, i: nat)
    requires SameDirs(mid.mem, r1.mem, tables) && np in tables && i < ENTRIES
    ensures Dir(r1.mem, np, i) == Dir(mid.mem, np, i)
  {
    assert DirSame(mid.mem, r1.mem, np, i);
  }

  lemma {:induction false} CopiedEntry(r0: Ram, mid: Ram, r1: Ram, after: Ram, tables: set<nat>, sp: nat, np: nat,
        v: nat, newe: Entry)
    requires v < PAGES && sp in tables && np !in tables && Copied(r0, mid, tables, sp, np, v)
    requires Ledger(mid, tables + {np}) && Ledger(r1, tables + {np}) && Dir(r1.mem, np, v / ENTRIES).present
    requires var e := Leaf(r0.mem, sp, v);
             if e.present && e.avail != 0
             then && newe == e.(addr := newe.addr) && newe.addr in mid.free && r1.free == mid.free - {newe.addr}
                  && Loose(r1, tables + {np}, newe.addr) && PageAt(r1.mem, newe.addr) == PageAt(r0.mem, e.addr)
             else newe == e && r1.free == mid.free
    requires SameLeaves(mid.mem, r1.mem, tables + {np}) && SameDirs(mid.mem, r1.mem, tables + {np})
    requires ContentsKept(mid.mem, r1.mem, tables + {np}) && r1.total == mid.total
    requires forall x :: x in tables + {np} ==> Held(r1.mem, x) == Held(mid.mem, x)
    requires after == r1.(mem := WithLeaf(r1.mem, np, v, newe))
    requires Elsewhere(r1.mem, after.mem, tables + {np}, np, v) && SameDirs(r1.mem, after.mem, tables + {np})
    requires Leaf(after.mem, np, v) == newe && KeysBut(r1.mem, after.mem, tables + {np}, tables + {np}, Data(np, v))
    ensures Copied(r0, after, tables, sp, np, v + 1)
  {
    hide Held, Leaf, ContentsKept, SameLeaves, Elsewhere, Ledger, KeysBut, SameDirs, Conserved, Replaced;
    var all := tables + {np};
    SourceEntry(r0, mid, tables, sp, np, v);
    LeavesThrough(mid.mem, r1.mem, after.mem, all, np, v);
    DirsThrough(mid.mem, r1.mem, after.mem, all);
    OldDirs(mid.mem, after.mem, tables, np);
    var q := Dir(r1.mem, np, v / ENTRIES).addr;
    WriteKeeps(r1, all, q, PageAt(after.mem, q), Table(np, v / ENTRIES));
    KeptThrough(mid.mem, r1.mem, after.mem, all);
    SamePresence(mid.mem, r1.mem, all, np, v);
    StillConserved(r1, all, np);
    assert FramesAt(mid.mem, all, Data(np, v)) == {};
    EntryReplaces(mid, r1, r1, after, all, np, v, newe);
    NoneReplaced(mid, after, all, np, v);
    if newe.present && newe.avail != 0 {
      assert NotAt(r1.mem, all, Table(np, v / ENTRIES), newe.addr);
    }
    NewIsFree(r0, mid, tables, sp, np, v);
    CopyMoved(r0, mid, after, tables, sp, np, v);
  }

  lemma StillConserved(r: Ram, tables: set<nat>, p: nat)
    ensures Conserved(r, r, tables, p)
  {
  }

  lemma OldDirs(mem: map<nat, Page>, after: map<nat, Page>, tables: set<nat>, np: nat)
    requires SameDirs(mem, after, tables + {np})
    ensures SameDirs(mem, after, tables + {np} - {np})
  {
  }

  lemma NewIsFree(r0: Ram, mid: Ram, tables: set<nat>, sp: nat, np: nat, n: nat)
    requires Copied(r0, mid, tables, sp, np, n)
    ensures mid.free <= r0.free
  {
  }

  // ---------------------------------------------------------------- what a copy is

  // The copy maps the same pages with the same flags; shared pages stay shared
  // and owned pages have frames that were free.
  lemma {:induction false} CopyMeans(r0: Ram, r: Ram, tables: set<nat>, sp: nat, np: nat, v: nat)
    requires Copied(r0, r, tables, sp, np, PAGES) && v < PAGES && Ledger(r, tables + {np})
    ensures v in FlatMap(r.mem, np) <==> v in FlatMap(r0.mem, sp)
    ensures v in FlatMap(r0.mem, sp) ==>
              var (frame, flags) := FlatMap(r0.mem, sp)[v];
              var (frame', flags') := FlatMap(r.mem, np)[v];
              && flags' == flags
              && (!OwnedPage(r0.mem, sp, v) ==> frame' == frame)
              && (OwnedPage(r0.mem, sp, v) ==>
                    frame' in r0.free && PageAt(r.mem, frame') == PageAt(r0.mem, frame))
  {
    hide Held, Leaf, ContentsKept, SameLeaves, SameDirs, Ledger;
    assert CopyAt(r0, r.mem, sp, np, v);
  }

  // A store to an owned page of one live table is seen through no other owned
  // page, and changes no table.
  lemma {:induction false} StoreIsPrivate(r: Ram, tables: set<nat>, p: nat, v: nat, q: nat, w: nat, page: Page)
    requires Ledger(r, tables) && p in tables && q in tables && OwnedPage(r.mem, p, v) && OwnedPage(r.mem, q, w)
    requires (p, v) != (q, w)
    ensures var after := r.mem[Leaf(r.mem, p, v).addr := page];
            && PageAt(after, Leaf(r.mem, q, w).addr) == PageAt(r.mem, Leaf(r.mem, q, w).addr)
            && SameLeaves(r.mem, after, tables) && Ledger(r.(mem := after), tables)
  {
    hide Leaf;
    var f := Leaf(r.mem, p, v).addr;
    var after := r.mem[f := page];
    var k := Data(p, v);
    assert Apart(r, tables, k, Data(q, w));
    StoreKeepsTables(r, tables, k, page);
    SameKeys(r.mem, after, tables);
    forall l | IsKey(after, tables, l) ensures KeySame(r.mem, after, tables, tables, l) {
    }
    forall l ensures KeyOK(r.(mem := after), tables, l) {
      assert KeyOK(r, tables, l) && KeySame(r.mem, after, tables, tables, l);
    }
    forall l, n ensures Apart(r.(mem := after), tables, l, n) {
      assert Apart(r, tables, l, n);
      assert KeySame(r.mem, after, tables, tables, l) && KeySame(r.mem, after, tables, tables, n);
    }
  }

  lemma {:induction false} StoreKeepsTables(r: Ram, tables: set<nat>, k: Key, page: Page)
    requires Ledger(r, tables) && IsKey(r.mem, tables, k) && k.Data?
    ensures var after := r.mem[FrameOf(r.mem, k) := page];
            SameLeaves(r.mem, after, tables) && SameDirs(r.mem, after, tables) && FlagsKept(after, tables)
  {
    var f := FrameOf(r.mem, k);
    var after := r.mem[f := page];
    forall x: nat, i: nat | x in tables ensures DirSame(r.mem, after, x, i) {
      assert Apart(r, tables, k, Root(x));
    }
    forall x: nat, w: nat | x in tables ensures LeafSame(r.mem, after, x, w) {
      if w < PAGES {
        assert DirSame(r.mem, after, x, w / ENTRIES);
        assert Apart(r, tables, k, Table(x, w / ENTRIES));
      }
    }
    forall x: nat, w: nat ensures FlagOK(after, tables, x, w) {
      assert x in tables ==> LeafSame(r.mem, after, x, w);
      assert FlagOK(r.mem, tables, x, w);
    }
  }
}

// pagetable.c, the operations on runs of pages: pagetable_unmap, _alloc, _free
// and _delete.
module PageRuns {
  import opened PageLedger
  import opened PageMemory
  import opened PageTables

  // ---------------------------------------------------------------- unmapping

  // The outcome of pagetable_unmap on page v: the page is gone and the frame
  // it owned, if any, belongs to no table.
  ghost predicate PageUnmapped(r: Ram, after: Ram, tables: set<nat>, p: nat, v: nat)
    requires v < PAGES
  {
    && !Mapped(after.mem, p, v) && Elsewhere(r.mem, after.mem, tables, p, v)
    && ContentsKept(r.mem, after.mem, tables) && after.free == r.free && after.total == r.total
    && (OwnedPage(r.mem, p, v) ==> Loose(after, tables, Leaf(r.mem, p, v).addr))
    && Held(after.mem, p) == Held(r.mem, p) - FramesAt(r.mem, tables, Data(p, v))
    && forall q :: q in tables && q != p ==> Held(after.mem, q) == Held(r.mem, q)
  }

  // pagetable_unmap
  method Unmap(m: PageMemory, p: nat, vaddr: nat)
    requires m.Valid() && p in m.tables && vaddr < ADDRESSES
    modifies m`mem
    ensures m.Valid() && PageUnmapped(old(m.View()), m.View(), m.tables, p, PageOf(vaddr))
    ensures SameDirs(old(m.mem), m.mem, m.tables)
  {
    hide Ledger, Held, FreeFrames, ContentsKept, SameLeaves, Loose, Elsewhere, SameDirs, KeysBut;
    ghost var r := m.View();
    ghost var v := PageOf(vaddr);
    var e := PageAt(m.mem, p)[vaddr / 0x40_0000];
    assert v / ENTRIES == vaddr / 0x40_0000 && v % ENTRIES == vaddr / PAGE_SIZE % ENTRIES;
    if e.present {
      var q := e.addr;
      var j := vaddr / PAGE_SIZE % ENTRIES;
      m.mem := m.mem[q := PageAt(m.mem, q)[j := PageAt(m.mem, q)[j].(present := false)]];
      SetLeaf(r, m.tables, p, v, Leaf(r.mem, p, v).(present := false));
      WriteKeeps(r, m.tables, q, PageAt(m.mem, q), Table(p, v / ENTRIES));
      HeldChange(r, m.View(), m.tables, Data(p, v));
    } else {
      Nothing(r, m.tables, p, v);
      DirsUnchanged(r.mem, m.tables);
    }
  }

  // Unmapping page v removes it from the flat map of p, and from no other.
  lemma {:induction false} UnmapIsRemoval(r: Ram, after: Ram, tables: set<nat>, p: nat, v: nat)
    requires v < PAGES && p in tables && PageUnmapped(r, after, tables, p, v)
    ensures FlatMap(after.mem, p) == FlatMap(r.mem, p) - {v}
    ensures forall q :: q in tables && q != p ==> FlatMap(after.mem, q) == FlatMap(r.mem, q)
  {
    hide Leaf, Held, Elsewhere;
    FlatOthers(r.mem, after.mem, tables, p, v);
    ElsewhereAt(r.mem, after.mem, tables, p, v);
  }

  lemma Nothing(r: Ram, tables: set<nat>, p: nat, v: nat)
    requires v < PAGES && !Mapped(r.mem, p, v)
    ensures PageUnmapped(r, r, tables, p, v)
  {
  }

  // ---------------------------------------------------------------- runs of pages

  // Page w is one of the n pages from v0 on, the address wrapping around.
  predicate InRun(w: int, v0: nat, n: nat) {
    0 <= w < PAGES && (w - v0) % PAGES < n
  }

  lemma RunStep(w: nat, v0: nat, n: nat)
    requires w < PAGES && v0 < PAGES && n < PAGES
    ensures InRun(w, v0, n + 1) <==> InRun(w, v0, n) || w == (v0 + n) % PAGES
    ensures !InRun((v0 + n) % PAGES, v0, n)
  {
  }

  function PagesIn(length: nat): nat {
    length / PAGE_SIZE + if length % PAGE_SIZE != 0 then 1 else 0
  }

  // Tables other than p translate as before.
  ghost predicate OthersSame(mem: map<nat, Page>, after: map<nat, Page>, tables: set<nat>, p: nat) {
    forall q: nat, w: nat :: q in tables && q != p ==> LeafSame(mem, after, q, w)
  }

  // Page w of p after an allocation of a run: mapped if the run covers it, as it
  // was or with a newly owned frame.
  ghost predicate AllocAt(mem: map<nat, Page>, after: map<nat, Page>, p: nat, w: nat, flags: Flags, v0: nat, n: nat) {
    w < PAGES ==>
      if !InRun(w, v0, n) || Mapped(mem, p, w) then Leaf(after, p, w) == Leaf(mem, p, w)
      else
        var e := Leaf(after, p, w);
        e == MapEntry(e.addr, flags.(alloc := true)) && (flags.clear ==> PageAt(after, e.addr) == ZeroPage())
  }

  ghost predicate RunAllocated(r: Ram, after: Ram, tables: set<nat>, p: nat, v0: nat, n: nat, flags: Flags) {
    && (forall w: nat :: AllocAt(r.mem, after.mem, p, w, flags, v0, n))
    && OthersSame(r.mem, after.mem, tables, p) && ContentsKept(r.mem, after.mem, tables)
    && Conserved(r, after, tables, p) && after.free <= r.free && after.total == r.total
  }

  lemma {:induction false} AllocNone(r: Ram, tables: set<nat>, p: nat, v0: nat, flags: Flags)
    ensures RunAllocated(r, r, tables, p, v0, 0, flags)
  {
  }

  // The next page of the run was mapped already.
  lemma {:induction false} AllocSkip(r: Ram, mid: Ram, tables: set<nat>, p: nat, v0: nat, n: nat, flags: Flags)
    requires v0 < PAGES && n < PAGES && RunAllocated(r, mid, tables, p, v0, n, flags)
    requires Mapped(mid.mem, p, (v0 + n) % PAGES)
    ensures RunAllocated(r, mid, tables, p, v0, n + 1, flags)
  {
    hide Leaf, MapEntry, InRun;
    var v := (v0 + n) % PAGES;
    RunStep(v, v0, n);
    assert AllocAt(r.mem, mid.mem, p, v, flags, v0, n);
    var n1 := n + 1;
    forall w: nat ensures AllocAt(r.mem, mid.mem, p, w, flags, v0, n1) {
      if w < PAGES {
        RunStep(w, v0, n);
        assert AllocAt(r.mem, mid.mem, p, w, flags, v0, n);
      }
    }
  }

  // The next page of the run has been mapped to a frame of its own.
  lemma {:induction false} AllocStep(r: Ram, mid: Ram, after: Ram, tables: set<nat>, p: nat, v0: nat, n: nat,
        flags: Flags)
    requires v0 < PAGES && n < PAGES && p in tables && RunAllocated(r, mid, tables, p, v0, n, flags)
    requires !Mapped(mid.mem, p, (v0 + n) % PAGES)
    requires PageMapped(mid, after, tables, p, (v0 + n) % PAGES, 0, flags.(alloc := true))
    ensures RunAllocated(r, after, tables, p, v0, n + 1, flags)
  {
    hide Leaf, InRun, Held, Replaced;
    var v := (v0 + n) % PAGES;
    RunStep(v, v0, n);
    NoneReplaced(mid, after, tables, p, v);
    var n1 := n + 1;
    forall w: nat ensures AllocAt(r.mem, after.mem, p, w, flags, v0, n1) {
      if w < PAGES {
        RunStep(w, v0, n);
        assert AllocAt(r.mem, mid.mem, p, w, flags, v0, n);
        if w != v {
          assert LeafSame(mid.mem, after.mem, p, w);
          assert PageKept(mid.mem, after.mem, tables, p, w);
        }
      }
    }
    forall q: nat, w: nat | q in tables && q != p ensures LeafSame(r.mem, after.mem, q, w) {
      assert LeafSame(r.mem, mid.mem, q, w) && LeafSame(mid.mem, after.mem, q, w);
    }
    forall q: nat, w: nat ensures PageKept(r.mem, after.mem, tables, q, w) {
      if q in tables && OwnedPage(r.mem, q, w) {
        assert PageKept(r.mem, mid.mem, tables, q, w) && PageKept(mid.mem, after.mem, tables, q, w);
        if q == p {
          assert AllocAt(r.mem, mid.mem, p, w, flags, v0, n);
        } else {
          assert LeafSame(r.mem, mid.mem, q, w);
        }
      }
    }
  }

  // The directory slots of the run.
  ghost function RunSlots(v0: nat, n: nat): (slots: set<nat>)
    ensures forall w: nat :: InRun(w, v0, n) && v0 < PAGES && n <= PAGES ==> w / ENTRIES in slots
  {
    if n == 0 then {} else
      var slots := RunSlots(v0, n - 1);
      assert forall w: nat :: InRun(w, v0, n) && v0 < PAGES && n <= PAGES ==>
                                InRun(w, v0, n - 1) || w == (v0 + n - 1) % PAGES;
      slots + {(v0 + n - 1) % PAGES / ENTRIES}
  }

  // pagetable_alloc: every page of the run ends up mapped; pages that were
  // mapped keep their frames.
  method Alloc(m: PageMemory, p: nat, vaddr: nat, length: nat, flags: Flags) returns (ok: bool)
    requires m.Valid() && p in m.tables && vaddr < ADDRESSES && length < ADDRESSES
    modifies m`mem, m`pagesFree, m.freemap
    ensures m.Valid() && m.Slack() == old(m.Slack())
    ensures !ok ==> m.View().free == {}
    ensures ok ==> RunAllocated(old(m.View()), m.View(), m.tables, p, PageOf(vaddr), PagesIn(length), flags)
    ensures ok ==> SlotsGrown(old(m.mem), m.mem, m.tables, p, RunSlots(PageOf(vaddr), PagesIn(length)), flags.kernel)
  {
    hide Ledger, Held, Leaf, FreeFrames, RunAllocated, PageMapped, PagesIn, SlotsGrown, InRun;
    ghost var r := m.View();
    ghost var v0 := PageOf(vaddr);
    var npages := CountPages(length);
    var at := vaddr - vaddr % PAGE_SIZE;
    ghost var n := 0;
    AllocNone(r, m.tables, p, v0, flags);
    NoChange(r.mem, m.tables, p, {}, flags.kernel);
    while npages > 0
      invariant m.Valid() && m.Slack() == old(m.Slack()) && m.tables == old(m.tables)
      invariant n + npages == PagesIn(length) <= PAGES && npages >= 0
      invariant 0 <= at < ADDRESSES && at % PAGE_SIZE == 0 && PageOf(at) == (v0 + n) % PAGES
      invariant RunAllocated(r, m.View(), m.tables, p, v0, n, flags)
      invariant SlotsGrown(r.mem, m.mem, m.tables, p, RunSlots(v0, n), flags.kernel)
      decreases npages
    {
      ghost var mid := m.View();
      var found, paddr, old_flags := GetMap(m, p, at);
      InFlat(m.mem, p, PageOf(at));
      if !found {
        ok := Map(m, p, at, 0, flags.(alloc := true));
        if !ok {
          return;
        }
        AllocStep(r, mid, m.View(), m.tables, p, v0, n, flags);
      } else {
        AllocSkip(r, mid, m.tables, p, v0, n, flags);
        NoChange(mid.mem, m.tables, p, {PageOf(at) / ENTRIES}, flags.kernel);
      }
      SlotsThrough(r.mem, mid.mem, m.mem, m.tables, p, RunSlots(v0, n), {PageOf(at) / ENTRIES}, flags.kernel);
      NextAddress(at, v0, n);
      at := (at + PAGE_SIZE) % ADDRESSES;
      npages := npages - 1;
      n := n + 1;
    }
    ok := true;
  }

  lemma InFlat(mem: map<nat, Page>, p: nat, v: nat)
    ensures v in FlatMap(mem, p) <==> Mapped(mem, p, v)
  {
  }

  lemma NextAddress(at: nat, v0: nat, n: nat)
    requires at < ADDRESSES && at % PAGE_SIZE == 0 && v0 < PAGES && PageOf(at) == (v0 + n) % PAGES
    ensures var next := (at + PAGE_SIZE) % ADDRESSES;
            next % PAGE_SIZE == 0 && PageOf(next) == (v0 + n + 1) % PAGES
  {
  }

  method CountPages(length: nat) returns (npages: nat)
    requires length < ADDRESSES
    ensures npages == PagesIn(length) <= PAGES
  {
    npages := length / PAGE_SIZE;
    if length % PAGE_SIZE != 0 {
      npages := npages + 1;
    }
  }

  // ---------------------------------------------------------------- freeing a run

  ghost predicate FreeAt(mem: map<nat, Page>, after: map<nat, Page>, p: nat, w: nat, v0: nat, n: nat) {
    w < PAGES ==> if InRun(w, v0, n) then !Mapped(after, p, w) else Leaf(after, p, w) == Leaf(mem, p, w)
  }

  ghost predicate RunFreed(r: Ram, after: Ram, tables: set<nat>, p: nat, v0: nat, n: nat) {
    && (forall w: nat :: FreeAt(r.mem, after.mem, p, w, v0, n))
    && OthersSame(r.mem, after.mem, tables, p)
    && (forall q: nat, w: nat :: q in tables && (q != p || !InRun(w, v0, n)) ==>
                                   PageKept(r.mem, after.mem, tables, q, w))
    && Conserved(r, after, tables, p) && r.free <= after.free && after.total == r.total
  }

  lemma {:induction false} FreeNone(r: Ram, tables: set<nat>, p: nat, v0: nat)
    ensures RunFreed(r, r, tables, p, v0, 0)
  {
  }

  // The next page was unmapped and its own frame, if it had one, freed.
  lemma {:induction false} FreeStep(r: Ram, mid: Ram, after: Ram, tables: set<nat>, p: nat, v0: nat, n: nat)
    requires v0 < PAGES && n < PAGES && p in tables && RunFreed(r, mid, tables, p, v0, n)
    requires PageFreed(mid, after, tables, p, (v0 + n) % PAGES)
    ensures RunFreed(r, after, tables, p, v0, n + 1)
  {
    hide Leaf, InRun, Held, FramesAt;
    var v := (v0 + n) % PAGES;
    var n1 := n + 1;
    forall w: nat ensures FreeAt(r.mem, after.mem, p, w, v0, n1) {
      if w < PAGES {
        RunStep(w, v0, n);
        assert FreeAt(r.mem, mid.mem, p, w, v0, n);
        assert w != v ==> LeafSame(mid.mem, after.mem, p, w);
      }
    }
    forall q: nat, w: nat | q in tables && q != p ensures LeafSame(r.mem, after.mem, q, w) {
      assert LeafSame(r.mem, mid.mem, q, w) && LeafSame(mid.mem, after.mem, q, w);
    }
    forall q: nat, w: nat | q in tables && (q != p || !InRun(w, v0, n + 1))
      ensures PageKept(r.mem, after.mem, tables, q, w)
    {
      if OwnedPage(r.mem, q, w) {
        RunStep(w, v0, n);
        assert PageKept(r.mem, mid.mem, tables, q, w) && PageKept(mid.mem, after.mem, tables, q, w);
        if q == p {
          assert FreeAt(r.mem, mid.mem, p, w, v0, n);
        } else {
          assert LeafSame(r.mem, mid.mem, q, w);
        }
      }
    }
    assert after.free + Held(after.mem, p) == mid.free + Held(mid.mem, p);
  }

  ghost predicate PageFreed(r: Ram, after: Ram, tables: set<nat>, p: nat, v: nat)
    requires v < PAGES
  {
    && PageUnmapped(r, after.(free := r.free), tables, p, v)
    && after.free == r.free + FramesAt(r.mem, tables, Data(p, v))
    && FramesAt(r.mem, tables, Data(p, v)) <= Held(r.mem, p)
  }

  // The body of the loop of pagetable_free.
  method FreePage(m: PageMemory, p: nat, at: nat)
    requires m.Valid() && p in m.tables && at < ADDRESSES
    modifies m`mem, m`pagesFree, m.freemap
    ensures m.Valid() && m.Slack() == old(m.Slack())
    ensures PageFreed(old(m.View()), m.View(), m.tables, p, PageOf(at)) && SameDirs(old(m.mem), m.mem, m.tables)
  {
    hide Ledger, Held, Leaf, FreeFrames, FlatMap, FlagsOf, FramesAt, PageUnmapped, Loose, SameDirs;
    ghost var r := m.View();
    var found, paddr, flags := GetMap(m, p, at);
    InFlat(m.mem, p, PageOf(at));
    OwnedFlag(r, m.tables, p, PageOf(at));
    if found {
      Unmap(m, p, at);
      if flags.alloc {
        FreedFrame(r, m.View(), m.tables, p, PageOf(at));
        m.PageFree(paddr / PAGE_SIZE);
      }
    } else {
      Nothing(r, m.tables, p, PageOf(at));
      DirsUnchanged(r.mem, m.tables);
    }
  }

  // pagetable_free: the run is unmapped, and the frames it owned are free again.
  method FreeRun(m: PageMemory, p: nat, vaddr: nat, length: nat)
    requires m.Valid() && p in m.tables && vaddr < ADDRESSES && length < ADDRESSES
    modifies m`mem, m`pagesFree, m.freemap
    ensures m.Valid() && m.Slack() == old(m.Slack())
    ensures RunFreed(old(m.View()), m.View(), m.tables, p, PageOf(vaddr), PagesIn(length))
    ensures SameDirs(old(m.mem), m.mem, m.tables)
  {
    hide Ledger, FreeFrames, RunFreed, PageFreed, PagesIn, SameDirs;
    ghost var r := m.View();
    ghost var v0 := PageOf(vaddr);
    var npages := CountPages(length);
    var at := vaddr - vaddr % PAGE_SIZE;
    ghost var n := 0;
    FreeNone(r, m.tables, p, v0);
    DirsUnchanged(r.mem, m.tables);
    while npages > 0
      invariant m.Valid() && m.Slack() == old(m.Slack()) && m.tables == old(m.tables)
      invariant n + npages == PagesIn(length) <= PAGES && npages >= 0
      invariant 0 <= at < ADDRESSES && at % PAGE_SIZE == 0 && PageOf(at) == (v0 + n) % PAGES
      invariant RunFreed(r, m.View(), m.tables, p, v0, n) && SameDirs(r.mem, m.mem, m.tables)
      decreases npages
    {
      ghost var mid := m.View();
      FreePage(m, p, at);
      FreeStep(r, mid, m.View(), m.tables, p, v0, n);
      DirsThrough(r.mem, mid.mem, m.mem, m.tables);
      NextAddress(at, v0, n);
      at := (at + PAGE_SIZE) % ADDRESSES;
      npages := npages - 1;
      n := n + 1;
    }
  }

  lemma FreedFrame(mid: Ram, gone: Ram, tables: set<nat>, p: nat, v: nat)
    requires v < PAGES && Ledger(gone, tables) && PageUnmapped(mid, gone, tables, p, v) && OwnedPage(mid.mem, p, v)
    ensures var f := Leaf(mid.mem, p, v).addr;
            && InRange(gone, f) && f !in gone.free && Ledger(gone.(free := gone.free + {f}), tables)
  {
    GiveFrame(gone, tables, Leaf(mid.mem, p, v).addr);
  }

  // The reported ALLOC flag says whether the page is owned.
  lemma {:induction false} OwnedFlag(r: Ram, tables: set<nat>, p: nat, v: nat)
    requires Ledger(r, tables) && p in tables && v < PAGES
    ensures Mapped(r.mem, p, v) ==> FlatMap(r.mem, p)[v] == (Leaf(r.mem, p, v).addr, FlagsOf(Leaf(r.mem, p, v)))
    ensures Mapped(r.mem, p, v) ==> (FlagsOf(Leaf(r.mem, p, v)).alloc <==> OwnedPage(r.mem, p, v))
    ensures FramesAt(r.mem, tables, Data(p, v)) == if OwnedPage(r.mem, p, v) then {Leaf(r.mem, p, v).addr} else {}
    ensures FramesAt(r.mem, tables, Data(p, v)) <= Held(r.mem, p)
  {
    hide Held, Leaf;
    assert FlagOK(r.mem, tables, p, v);
    if OwnedPage(r.mem, p, v) {
      KeyIsHeld(r.mem, Data(p, v));
    }
  }
}

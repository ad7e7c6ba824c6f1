// What the processor grants on a page. It takes both levels together: the directory entry
// and the entry of the second-level table must allow it.
module PageAccess {
  import opened PageLedger
  import opened PageMemory
  import opened PageTables
  import opened PageRuns
  import opened PageClone

  // Open to user mode, and open to writes.
  datatype Access = NoAccess | Access(user: bool, write: bool)

  function AccessOf(mem: map<nat, Page>, p: nat, v: nat): Access
    requires v < PAGES
  {
    var d, e := Dir(mem, p, v / ENTRIES), Leaf(mem, p, v);
    if e.present then Access(d.user && e.user, d.readwrite && e.readwrite) else NoAccess
  }

  ghost predicate AccessSame(mem: map<nat, Page>, after: map<nat, Page>, p: nat, v: nat) {
    v < PAGES ==> AccessOf(after, p, v) == AccessOf(mem, p, v)
  }

  // What mapping page v with these flags grants: as asked through a slot that is absent, and
  // no more than the old directory entry allows through one that is present.
  function Granted(mem: map<nat, Page>, p: nat, v: nat, flags: Flags): Access
    requires v < PAGES
  {
    var d := Dir(mem, p, v / ENTRIES);
    Access(!flags.kernel && (d.present ==> d.user), flags.readwrite && (d.present ==> d.readwrite))
  }

  lemma {:induction false} SameGrants(mem: map<nat, Page>, after: map<nat, Page>, tables: set<nat>, p: nat,
        slots: set<nat>, kernel: bool, q: nat, w: nat)
    requires SlotsGrown(mem, after, tables, p, slots, kernel) && q in tables && LeafSame(mem, after, q, w)
    ensures AccessSame(mem, after, q, w)
  {
    if w < PAGES {
      var i := w / ENTRIES;
      assert if q == p && i in slots then SlotGrown(mem, after, q, i, kernel) else DirSame(mem, after, q, i);
    }
  }

  lemma {:induction false} NewGrants(mem: map<nat, Page>, after: map<nat, Page>, tables: set<nat>, p: nat,
        slots: set<nat>, v: nat, flags: Flags)
    requires SlotsGrown(mem, after, tables, p, slots, flags.kernel) && p in tables && v < PAGES
    requires v / ENTRIES in slots && Leaf(after, p, v) == MapEntry(Leaf(after, p, v).addr, flags)
    ensures AccessOf(after, p, v) == Granted(mem, p, v, flags)
  {
    assert SlotGrown(mem, after, p, v / ENTRIES, flags.kernel);
  }

  // pagetable_map grants that on the page, and changes what is granted on no other.
  lemma {:induction false} MapGrants(r: Ram, after: Ram, tables: set<nat>, p: nat, v: nat, frame: nat, flags: Flags)
    requires v < PAGES && p in tables && PageMapped(r, after, tables, p, v, frame, flags)
    requires SlotsGrown(r.mem, after.mem, tables, p, {v / ENTRIES}, flags.kernel)
    ensures AccessOf(after.mem, p, v) == Granted(r.mem, p, v, flags)
    ensures forall q: nat, w: nat :: q in tables && (q, w) != (p, v) ==> AccessSame(r.mem, after.mem, q, w)
  {
    hide Leaf, SlotsGrown, AccessSame, Granted, AccessOf;
    NewGrants(r.mem, after.mem, tables, p, {v / ENTRIES}, v, flags);
    forall q: nat, w: nat | q in tables && (q, w) != (p, v) ensures AccessSame(r.mem, after.mem, q, w) {
      assert LeafSame(r.mem, after.mem, q, w);
      SameGrants(r.mem, after.mem, tables, p, {v / ENTRIES}, flags.kernel, q, w);
    }
  }

  // pagetable_alloc does so on every page of the run that was not mapped.
  lemma {:induction false} AllocGrants(r: Ram, after: Ram, tables: set<nat>, p: nat, v0: nat, n: nat, flags: Flags)
    requires v0 < PAGES && n <= PAGES && p in tables && RunAllocated(r, after, tables, p, v0, n, flags)
    requires SlotsGrown(r.mem, after.mem, tables, p, RunSlots(v0, n), flags.kernel)
    ensures forall w: nat :: w < PAGES && InRun(w, v0, n) && !Mapped(r.mem, p, w) ==>
                               AccessOf(after.mem, p, w) == Granted(r.mem, p, w, flags)
    ensures forall q: nat, w: nat :: q in tables && (q != p || !InRun(w, v0, n) || Mapped(r.mem, p, w)) ==>
                                       AccessSame(r.mem, after.mem, q, w)
  {
    hide Leaf, SlotsGrown, AccessSame, AccessOf, InRun;
    forall w: nat | w < PAGES && InRun(w, v0, n) && !Mapped(r.mem, p, w)
      ensures AccessOf(after.mem, p, w) == Granted(r.mem, p, w, flags)
    {
      assert AllocAt(r.mem, after.mem, p, w, flags, v0, n);
      NewGrants(r.mem, after.mem, tables, p, RunSlots(v0, n), w, flags.(alloc := true));
    }
    forall q: nat, w: nat | q in tables && (q != p || !InRun(w, v0, n) || Mapped(r.mem, p, w))
      ensures AccessSame(r.mem, after.mem, q, w)
    {
      if q == p {
        assert AllocAt(r.mem, after.mem, p, w, flags, v0, n);
      }
      assert LeafSame(r.mem, after.mem, q, w);
      SameGrants(r.mem, after.mem, tables, p, RunSlots(v0, n), flags.kernel, q, w);
    }
  }

  // pagetable_free takes all access to the run away, and changes no other.
  lemma {:induction false} FreeGrants(r: Ram, after: Ram, tables: set<nat>, p: nat, v0: nat, n: nat)
    requires p in tables && RunFreed(r, after, tables, p, v0, n) && SameDirs(r.mem, after.mem, tables)
    ensures forall w: nat :: w < PAGES && InRun(w, v0, n) ==> AccessOf(after.mem, p, w).NoAccess?
    ensures forall q: nat, w: nat :: q in tables && (q != p || !InRun(w, v0, n)) ==> AccessSame(r.mem, after.mem, q, w)
  {
    hide Leaf, SameDirs, AccessSame, InRun, SlotsGrown;
    NoSlots(r.mem, after.mem, tables, p, false);
    forall w: nat | w < PAGES && InRun(w, v0, n) ensures AccessOf(after.mem, p, w).NoAccess? {
      assert FreeAt(r.mem, after.mem, p, w, v0, n);
    }
    forall q: nat, w: nat | q in tables && (q != p || !InRun(w, v0, n)) ensures AccessSame(r.mem, after.mem, q, w) {
      if q == p {
        assert FreeAt(r.mem, after.mem, p, w, v0, n);
      }
      assert LeafSame(r.mem, after.mem, q, w);
      SameGrants(r.mem, after.mem, tables, p, {}, false, q, w);
    }
  }

  lemma {:induction false} UnmapGrants(r: Ram, after: Ram, tables: set<nat>, p: nat, v: nat)
    requires v < PAGES && p in tables && PageUnmapped(r, after, tables, p, v) && SameDirs(r.mem, after.mem, tables)
    ensures AccessOf(after.mem, p, v).NoAccess?
    ensures forall q: nat, w: nat :: q in tables && (q, w) != (p, v) ==> AccessSame(r.mem, after.mem, q, w)
  {
    hide Leaf, SameDirs, AccessSame, SlotsGrown;
    NoSlots(r.mem, after.mem, tables, p, false);
    forall q: nat, w: nat | q in tables && (q, w) != (p, v) ensures AccessSame(r.mem, after.mem, q, w) {
      assert LeafSame(r.mem, after.mem, q, w);
      SameGrants(r.mem, after.mem, tables, p, {}, false, q, w);
    }
  }

  // A duplicate grants what its source grants, on every page, and takes nothing away.
  lemma {:induction false} CopyGrants(r0: Ram, r: Ram, tables: set<nat>, sp: nat, np: nat)
    requires sp in tables && Copied(r0, r, tables, sp, np, PAGES) && SlotsCopied(r0.mem, r.mem, sp, np)
    ensures forall v: nat :: v < PAGES ==> AccessOf(r.mem, np, v) == AccessOf(r0.mem, sp, v)
    ensures forall q: nat, w: nat :: q in tables ==> AccessSame(r0.mem, r.mem, q, w)
  {
    hide Leaf, SlotsCopied, SameDirs, SlotsGrown, AccessSame;
    forall v: nat | v < PAGES ensures AccessOf(r.mem, np, v) == AccessOf(r0.mem, sp, v) {
      assert CopyAt(r0, r.mem, sp, np, v);
      SlotOf(r0.mem, r.mem, sp, np, v / ENTRIES);
      AbsentSlot(r0.mem, sp, v);
    }
    NoSlots(r0.mem, r.mem, tables, sp, false);
    forall q: nat, w: nat | q in tables ensures AccessSame(r0.mem, r.mem, q, w) {
      assert LeafSame(r0.mem, r.mem, q, w);
      SameGrants(r0.mem, r.mem, tables, sp, {}, false, q, w);
    }
  }

  lemma SlotOf(mem0: map<nat, Page>, mem: map<nat, Page>, sp: nat, np: nat, i: nat)
    requires SlotsCopied(mem0, mem, sp, np) && i < ENTRIES
    ensures SlotCopied(mem0, mem, sp, np, i)
  {
  }

  lemma AbsentSlot(mem: map<nat, Page>, p: nat, v: nat)
    requires v < PAGES
    ensures Leaf(mem, p, v).present ==> Dir(mem, p, v / ENTRIES).present
  {
  }

  // ---------------------------------------------------------------- what getmap reports

  // The flags reported for the page are what the processor grants.
  ghost predicate Honest(mem: map<nat, Page>, p: nat, v: nat) {
    Mapped(mem, p, v) ==>
      AccessOf(mem, p, v) == Access(!FlagsOf(Leaf(mem, p, v)).kernel, FlagsOf(Leaf(mem, p, v)).readwrite)
  }

  ghost predicate AllHonest(mem: map<nat, Page>, tables: set<nat>) {
    forall p: nat, v: nat :: p in tables ==> Honest(mem, p, v)
  }

  ghost predicate WritableSlot(mem: map<nat, Page>, p: nat, i: nat) {
    i < ENTRIES && Dir(mem, p, i).present ==> Dir(mem, p, i).readwrite
  }

  // No directory entry takes away the right to write.
  ghost predicate Writable(mem: map<nat, Page>, tables: set<nat>) {
    forall p: nat, i: nat :: p in tables ==> WritableSlot(mem, p, i)
  }

  // A user page is to go under a directory entry that is there for the kernel.
  predicate Masked(mem: map<nat, Page>, p: nat, v: nat, flags: Flags) {
    v < PAGES && Dir(mem, p, v / ENTRIES).present && !Dir(mem, p, v / ENTRIES).user && !flags.kernel
  }

  ghost predicate MaskedRun(mem: map<nat, Page>, p: nat, v0: nat, n: nat, flags: Flags) {
    exists w: nat :: InRun(w, v0, n) && !Mapped(mem, p, w) && Masked(mem, p, w, flags)
  }

  lemma {:induction false} SlotsWritable(mem: map<nat, Page>, after: map<nat, Page>, tables: set<nat>, p: nat,
        slots: set<nat>, kernel: bool)
    requires SlotsGrown(mem, after, tables, p, slots, kernel) && Writable(mem, tables)
    ensures Writable(after, tables)
  {
    forall q: nat, i: nat | q in tables ensures WritableSlot(after, q, i) {
      assert WritableSlot(mem, q, i);
      if i < ENTRIES {
        assert if q == p && i in slots then SlotGrown(mem, after, q, i, kernel) else DirSame(mem, after, q, i);
      }
    }
  }

  lemma HonestStill(mem: map<nat, Page>, after: map<nat, Page>, q: nat, w: nat)
    requires LeafSame(mem, after, q, w) && AccessSame(mem, after, q, w) && Honest(mem, q, w)
    ensures Honest(after, q, w)
  {
    hide Leaf, AccessOf;
  }

  lemma HonestNew(mem: map<nat, Page>, after: map<nat, Page>, p: nat, v: nat, flags: Flags)
    requires v < PAGES && Leaf(after, p, v) == MapEntry(Leaf(after, p, v).addr, flags)
    requires AccessOf(after, p, v) == Granted(mem, p, v, flags) && WritableSlot(mem, p, v / ENTRIES)
    ensures Honest(after, p, v) <==> !Masked(mem, p, v, flags)
  {
    hide AccessOf, Leaf, Dir;
  }

  // Mapping a page keeps every report true exactly when no user page goes under a directory
  // entry of the kernel.
  lemma {:induction false} MapHonest(r: Ram, after: Ram, tables: set<nat>, p: nat, v: nat, frame: nat, flags: Flags)
    requires v < PAGES && p in tables && PageMapped(r, after, tables, p, v, frame, flags)
    requires SlotsGrown(r.mem, after.mem, tables, p, {v / ENTRIES}, flags.kernel)
    requires Writable(r.mem, tables) && AllHonest(r.mem, tables)
    ensures AllHonest(after.mem, tables) <==> !Masked(r.mem, p, v, flags)
  {
    hide Leaf, Dir, SlotsGrown, AccessSame, Granted, AccessOf, Honest, Masked, WritableSlot;
    MapGrants(r, after, tables, p, v, frame, flags);
    assert WritableSlot(r.mem, p, v / ENTRIES);
    HonestNew(r.mem, after.mem, p, v, flags);
    forall q: nat, w: nat | q in tables && (q, w) != (p, v) ensures Honest(after.mem, q, w) {
      assert Honest(r.mem, q, w) && LeafSame(r.mem, after.mem, q, w);
      HonestStill(r.mem, after.mem, q, w);
    }
    assert AllHonest(after.mem, tables) ==> Honest(after.mem, p, v);
  }

  lemma {:induction false} AllocHonest(r: Ram, after: Ram, tables: set<nat>, p: nat, v0: nat, n: nat, flags: Flags)
    requires v0 < PAGES && n <= PAGES && p in tables && RunAllocated(r, after, tables, p, v0, n, flags)
    requires SlotsGrown(r.mem, after.mem, tables, p, RunSlots(v0, n), flags.kernel)
    requires Writable(r.mem, tables) && AllHonest(r.mem, tables)
    ensures AllHonest(after.mem, tables) <==> !MaskedRun(r.mem, p, v0, n, flags)
  {
    hide Leaf, Dir, SlotsGrown, AccessSame, Granted, AccessOf, Honest, Masked, WritableSlot, InRun, RunSlots;
    AllocGrants(r, after, tables, p, v0, n, flags);
    forall w: nat | w < PAGES && InRun(w, v0, n) && !Mapped(r.mem, p, w)
      ensures Honest(after.mem, p, w) <==> !Masked(r.mem, p, w, flags)
    {
      assert AllocAt(r.mem, after.mem, p, w, flags, v0, n) && WritableSlot(r.mem, p, w / ENTRIES);
      SameGranted(r.mem, p, w, flags);
      HonestNew(r.mem, after.mem, p, w, flags.(alloc := true));
    }
    forall q: nat, w: nat | q in tables && (q != p || !InRun(w, v0, n) || Mapped(r.mem, p, w))
      ensures Honest(after.mem, q, w)
    {
      if q == p {
        assert AllocAt(r.mem, after.mem, p, w, flags, v0, n);
      }
      assert Honest(r.mem, q, w) && LeafSame(r.mem, after.mem, q, w);
      HonestStill(r.mem, after.mem, q, w);
    }
    if MaskedRun(r.mem, p, v0, n, flags) {
      var w: nat :| InRun(w, v0, n) && !Mapped(r.mem, p, w) && Masked(r.mem, p, w, flags);
      MaskedInSpace(r.mem, p, w, flags);
      assert !Honest(after.mem, p, w);
    } else {
      forall q: nat, w: nat | q in tables ensures Honest(after.mem, q, w) {
        if q == p && InRun(w, v0, n) && !Mapped(r.mem, p, w) {
          NotInSpace(after.mem, p, w);
        }
      }
    }
  }

  lemma SameGranted(mem: map<nat, Page>, p: nat, v: nat, flags: Flags)
    requires v < PAGES
    ensures Granted(mem, p, v, flags.(alloc := true)) == Granted(mem, p, v, flags)
    ensures Masked(mem, p, v, flags.(alloc := true)) == Masked(mem, p, v, flags)
  {
  }

  lemma MaskedInSpace(mem: map<nat, Page>, p: nat, v: nat, flags: Flags)
    requires Masked(mem, p, v, flags)
    ensures v < PAGES
  {
  }

  lemma NotInSpace(mem: map<nat, Page>, p: nat, v: nat)
    ensures v >= PAGES ==> Honest(mem, p, v)
  {
  }

  // Nothing but pages gone.
  lemma {:induction false} FewerHonest(mem: map<nat, Page>, after: map<nat, Page>, tables: set<nat>)
    requires AllHonest(mem, tables) && Writable(mem, tables) && SameDirs(mem, after, tables)
    requires forall q: nat, w: nat :: q in tables && w < PAGES && Mapped(after, q, w) ==> LeafSame(mem, after, q, w)
    ensures AllHonest(after, tables) && Writable(after, tables)
  {
    hide Leaf, Dir, SlotsGrown, SameDirs, AccessSame, AccessOf, WritableSlot, LeafSame;
    NoSlots(mem, after, tables, 0, false);
    SlotsWritable(mem, after, tables, 0, {}, false);
    forall q: nat, w: nat | q in tables ensures Honest(after, q, w) {
      if w < PAGES && Mapped(after, q, w) {
        assert LeafSame(mem, after, q, w) && Honest(mem, q, w);
        SameGrants(mem, after, tables, 0, {}, false, q, w);
        HonestStill(mem, after, q, w);
      }
    }
  }

  lemma {:induction false} UnmapHonest(r: Ram, after: Ram, tables: set<nat>, p: nat, v: nat)
    requires v < PAGES && p in tables && PageUnmapped(r, after, tables, p, v) && SameDirs(r.mem, after.mem, tables)
    requires AllHonest(r.mem, tables) && Writable(r.mem, tables)
    ensures AllHonest(after.mem, tables) && Writable(after.mem, tables)
  {
    hide AllHonest, Writable, SameDirs, Leaf, LeafSame;
    forall q: nat, w: nat | q in tables && w < PAGES && Mapped(after.mem, q, w)
      ensures LeafSame(r.mem, after.mem, q, w)
    {
    }
    FewerHonest(r.mem, after.mem, tables);
  }

  lemma {:induction false} FreeHonest(r: Ram, after: Ram, tables: set<nat>, p: nat, v0: nat, n: nat)
    requires p in tables && RunFreed(r, after, tables, p, v0, n) && SameDirs(r.mem, after.mem, tables)
    requires AllHonest(r.mem, tables) && Writable(r.mem, tables)
    ensures AllHonest(after.mem, tables) && Writable(after.mem, tables)
  {
    hide AllHonest, Writable, SameDirs, Leaf, InRun;
    forall q: nat, w: nat | q in tables && w < PAGES && Mapped(after.mem, q, w)
      ensures LeafSame(r.mem, after.mem, q, w)
    {
      assert FreeAt(r.mem, after.mem, p, w, v0, n);
    }
    FewerHonest(r.mem, after.mem, tables);
  }

  // A duplicate is as honest as its source.
  lemma {:induction false} CopyHonest(r0: Ram, r: Ram, tables: set<nat>, sp: nat, np: nat)
    requires sp in tables && Copied(r0, r, tables, sp, np, PAGES) && SlotsCopied(r0.mem, r.mem, sp, np)
    requires AllHonest(r0.mem, tables) && Writable(r0.mem, tables)
    ensures AllHonest(r.mem, tables + {np}) && Writable(r.mem, tables + {np})
  {
    hide AccessOf, SameDirs, SlotsCopied, Leaf, Dir, AllHonest, Writable;
    CopyGrants(r0, r, tables, sp, np);
    SameHonest(r0.mem, r.mem, tables);
    forall v: nat ensures Honest(r.mem, np, v) {
      if v < PAGES {
        assert CopyAt(r0, r.mem, sp, np, v);
        HonestAt(r0.mem, tables, sp, v);
      }
    }
    forall i: nat ensures WritableSlot(r.mem, np, i) {
      if i < ENTRIES {
        SlotOf(r0.mem, r.mem, sp, np, i);
        WritableCopy(r0.mem, r.mem, tables, sp, np, i);
      }
    }
    OneMore(r.mem, tables, np);
  }

  lemma HonestAt(mem: map<nat, Page>, tables: set<nat>, p: nat, v: nat)
    requires AllHonest(mem, tables) && p in tables
    ensures Honest(mem, p, v)
  {
  }

  lemma WritableCopy(mem0: map<nat, Page>, mem: map<nat, Page>, tables: set<nat>, sp: nat, np: nat, i: nat)
    requires Writable(mem0, tables) && sp in tables && i < ENTRIES && SlotCopied(mem0, mem, sp, np, i)
    ensures WritableSlot(mem, np, i)
  {
    assert WritableSlot(mem0, sp, i);
  }

  lemma OneMore(mem: map<nat, Page>, tables: set<nat>, p: nat)
    requires AllHonest(mem, tables) && Writable(mem, tables)
    requires (forall v: nat :: Honest(mem, p, v)) && (forall i: nat :: WritableSlot(mem, p, i))
    ensures AllHonest(mem, tables + {p}) && Writable(mem, tables + {p})
  {
  }

  lemma {:induction false} SameHonest(mem: map<nat, Page>, after: map<nat, Page>, tables: set<nat>)
    requires SameLeaves(mem, after, tables) && SameDirs(mem, after, tables)
    requires AllHonest(mem, tables) && Writable(mem, tables)
    ensures AllHonest(after, tables) && Writable(after, tables)
  {
    hide AllHonest, Writable, SameDirs, Leaf;
    forall q: nat, w: nat | q in tables ensures LeafSame(mem, after, q, w) {
    }
    FewerHonest(mem, after, tables);
  }

  // A new table.
  lemma {:induction false} CreateHonest(mem: map<nat, Page>, after: map<nat, Page>, tables: set<nat>, p: nat)
    requires SameLeaves(mem, after, tables) && SameDirs(mem, after, tables) && PageAt(after, p) == ZeroPage()
    requires AllHonest(mem, tables) && Writable(mem, tables)
    ensures AllHonest(after, tables + {p}) && Writable(after, tables + {p})
  {
    hide AllHonest, Writable, SameDirs, SameLeaves;
    SameHonest(mem, after, tables);
    OneMore(after, tables, p);
  }

  // A frame buffer at 0xE0000000 is mapped for the kernel, as pagetable_init does. A user
  // page mapped next to it is reported as open to the user, and is not.
  method UserPageMasked(m: PageMemory) returns (ok: bool, p: Frame, reported: Flags)
    requires m.Valid()
    modifies m, m.freemap
    ensures m.Valid() && (!ok ==> m.View().free == {})
    ensures ok ==> p in m.tables && !reported.kernel && AccessOf(m.mem, p, 0xE_0001) == Access(false, true)
  {
    hide Ledger, Held, FreeFrames, PageMapped, SlotsGrown, Leaf, FlatMap, AccessOf;
    reported := Flags(true, false, false, false);
    ok, p := Create(m);
    if !ok {
      return;
    }
    ghost var r0 := m.View();
    ok := Map(m, p, 0xE000_0000, 0xE000_0000, Flags(true, false, true, false));
    if !ok {
      return;
    }
    ghost var r1 := m.View();
    ok := Map(m, p, 0xE000_1000, 0, Flags(false, true, true, true));
    if !ok {
      return;
    }
    var found, paddr;
    found, paddr, reported := GetMap(m, p, 0xE000_1000);
    KernelSlot(r0, r1, m.tables, p);
    MaskedThere(r1, m.View(), m.tables, p);
  }

  lemma KernelSlot(r: Ram, after: Ram, tables: set<nat>, p: nat)
    requires p in tables && PageAt(r.mem, p) == ZeroPage()
    requires PageMapped(r, after, tables, p, 0xE_0000, 0xE_0000, Flags(true, false, true, false))
    requires SlotsGrown(r.mem, after.mem, tables, p, {0xE_0000 / ENTRIES}, true)
    ensures Dir(after.mem, p, 0xE_0000 / ENTRIES).present && !Dir(after.mem, p, 0xE_0000 / ENTRIES).user
    ensures Dir(after.mem, p, 0xE_0000 / ENTRIES).readwrite
  {
    assert SlotGrown(r.mem, after.mem, p, 0xE_0000 / ENTRIES, true);
  }

  lemma MaskedThere(r: Ram, after: Ram, tables: set<nat>, p: nat)
    requires p in tables && Dir(r.mem, p, 0xE_0000 / ENTRIES).present
    requires !Dir(r.mem, p, 0xE_0000 / ENTRIES).user && Dir(r.mem, p, 0xE_0000 / ENTRIES).readwrite
    requires PageMapped(r, after, tables, p, 0xE_0001, 0, Flags(false, true, true, true))
    requires SlotsGrown(r.mem, after.mem, tables, p, {0xE_0001 / ENTRIES}, false)
    ensures AccessOf(after.mem, p, 0xE_0001) == Access(false, true)
    ensures 0xE_0001 in FlatMap(after.mem, p) && !FlagsOf(Leaf(after.mem, p, 0xE_0001)).kernel
  {
    hide Held, AccessOf, Elsewhere, ContentsKept, Replaced, SlotsGrown;
    MapGrants(r, after, tables, p, 0xE_0001, 0, Flags(false, true, true, true));
  }
}

// Runs of page table calls: over any sequence of calls on any tables, every frame stays
// free or in one table, except the frames of owned pages that are mapped over or unmapped,
// and what getmap reports is granted, unless a user page goes under a kernel entry.
module PageLifetime {
  import opened PageLedger
  import opened PageMemory
  import opened PageTables
  import opened PageRuns
  import opened PageClone
  import opened PageAccess

  // The frames that are free or part of a live table.
  ghost function AllFrames(r: Ram, tables: set<nat>): set<nat> {
    r.free + set p, g | p in tables && g in Held(r.mem, p) :: g
  }

  // A call on one table.
  datatype Work = MapPage(vaddr: nat, paddr: nat, flags: Flags) | UnmapPage(vaddr: nat)
                | AllocPages(vaddr: nat, length: nat, flags: Flags) | FreePages(vaddr: nat, length: nat)

  predicate InSpace(w: Work) {
    && w.vaddr < ADDRESSES
    && (w.MapPage? ==> w.paddr < ADDRESSES)
    && (w.AllocPages? || w.FreePages? ==> w.length < ADDRESSES)
  }

  // The call does not map over or unmap a page that owns its frame.
  predicate Careful(mem: map<nat, Page>, p: nat, w: Work)
    requires InSpace(w)
  {
    w.MapPage? || w.UnmapPage? ==> !OwnedPage(mem, p, PageOf(w.vaddr))
  }

  // The call maps a user page under a directory entry that is there for the kernel.
  ghost predicate Masks(mem: map<nat, Page>, p: nat, w: Work)
    requires InSpace(w)
  {
    match w
    case MapPage(vaddr, _, flags) => Masked(mem, p, PageOf(vaddr), flags)
    case AllocPages(vaddr, length, flags) => MaskedRun(mem, p, PageOf(vaddr), PagesIn(length), flags)
    case _ => false
  }

  ghost predicate Reported(mem: map<nat, Page>, tables: set<nat>) {
    AllHonest(mem, tables) && Writable(mem, tables)
  }

  ghost function Lost(mem: map<nat, Page>, tables: set<nat>, p: nat, w: Work): set<nat>
    requires InSpace(w)
  {
    if w.MapPage? || w.UnmapPage? then FramesAt(mem, tables, Data(p, PageOf(w.vaddr))) else {}
  }

  // A call on table p: nothing but the lost frame goes missing, and the other tables
  // hold what they did.
  ghost predicate Worked(r: Ram, after: Ram, tables: set<nat>, p: nat, lost: set<nat>) {
    && AllFrames(after, tables) == AllFrames(r, tables) - lost && lost <= AllFrames(r, tables)
    && forall q :: q in tables && q != p ==> Held(after.mem, q) == Held(r.mem, q)
  }

  lemma FrameIn(r: Ram, tables: set<nat>, p: nat, g: nat)
    requires g in r.free || (p in tables && g in Held(r.mem, p))
    ensures g in AllFrames(r, tables)
  {
  }

  lemma WhereIs(r: Ram, tables: set<nat>, g: nat) returns (p: nat)
    requires g in AllFrames(r, tables)
    ensures g in r.free || (p in tables && g in Held(r.mem, p))
  {
    if g in r.free {
      p := 0;
    } else {
      p :| p in tables && g in Held(r.mem, p);
    }
  }

  // Frames and one table's share, changed together.
  lemma {:induction false} ShareChanged(r: Ram, after: Ram, tables: set<nat>, p: nat, lost: set<nat>)
    requires Ledger(r, tables) && p in tables && lost <= Held(r.mem, p)
    requires after.free + Held(after.mem, p) == r.free + Held(r.mem, p) - lost
    requires forall q :: q in tables && q != p ==> Held(after.mem, q) == Held(r.mem, q)
    ensures Worked(r, after, tables, p, lost)
  {
    hide Held, Ledger, AllFrames;
    forall g | g in AllFrames(r, tables) - lost ensures g in AllFrames(after, tables) {
      var q := WhereIs(r, tables, g);
      if g in after.free + Held(after.mem, p) {
        FrameIn(after, tables, p, g);
      } else {
        FrameIn(after, tables, q, g);
      }
    }
    forall g | g in AllFrames(after, tables) ensures g in AllFrames(r, tables) - lost {
      var q := WhereIs(after, tables, g);
      if g in r.free + Held(r.mem, p) - lost {
        FrameIn(r, tables, p, g);
      } else {
        FrameIn(r, tables, q, g);
        if g in lost { OneOwner(r, tables, p, q, g); }
      }
    }
    forall g | g in lost ensures g in AllFrames(r, tables) {
      FrameIn(r, tables, p, g);
    }
  }

  // No frame is in two tables.
  lemma {:induction false} OneOwner(r: Ram, tables: set<nat>, p: nat, q: nat, g: nat)
    requires Ledger(r, tables) && p in tables && q in tables && g in Held(r.mem, p) && g in Held(r.mem, q)
    ensures p == q
  {
    hide Held, IsKey, FrameOf, FlagsKept;
    var k := HeldIsKeyed(r.mem, p, g);
    var l := HeldIsKeyed(r.mem, q, g);
    KeyAmong(r.mem, tables, k);
    KeyAmong(r.mem, tables, l);
    assert Apart(r, tables, k, l);
  }

  lemma KeyAmong(mem: map<nat, Page>, tables: set<nat>, k: Key)
    requires IsKey(mem, {k.p}, k) && k.p in tables
    ensures IsKey(mem, tables, k)
  {
  }

  // A new table whose frames were free.
  lemma {:induction false} TableAdded(r: Ram, after: Ram, tables: set<nat>, p: nat)
    requires p !in tables && after.free + Held(after.mem, p) == r.free
    requires forall q :: q in tables ==> Held(after.mem, q) == Held(r.mem, q)
    ensures AllFrames(after, tables + {p}) == AllFrames(r, tables)
  {
    hide Held, AllFrames;
    var all := tables + {p};
    forall g | g in AllFrames(r, tables) ensures g in AllFrames(after, all) {
      var q := WhereIs(r, tables, g);
      if g in r.free && g !in after.free { FrameIn(after, all, p, g); } else { FrameIn(after, all, q, g); }
    }
    forall g | g in AllFrames(after, all) ensures g in AllFrames(r, tables) {
      var q := WhereIs(after, all, g);
      FrameIn(r, tables, q, g);
    }
  }

  // A table gone and its frames free.
  lemma {:induction false} TableGone(r: Ram, after: Ram, tables: set<nat>, p: nat)
    requires p in tables && after == r.(free := r.free + Held(r.mem, p))
    ensures AllFrames(after, tables - {p}) == AllFrames(r, tables)
  {
    hide Held, AllFrames;
    var rest := tables - {p};
    forall g | g in AllFrames(r, tables) ensures g in AllFrames(after, rest) {
      var q := WhereIs(r, tables, g);
      FrameIn(after, rest, q, g);
    }
    forall g | g in AllFrames(after, rest) ensures g in AllFrames(r, tables) {
      var q := WhereIs(after, rest, g);
      FrameIn(r, tables, if g in Held(r.mem, p) then p else q, g);
    }
  }

  // What is free follows from what the tables hold.
  lemma {:induction false} FreeIs(r: Ram, after: Ram, tables: set<nat>)
    requires Ledger(r, tables) && Ledger(after, tables)
    requires forall q :: q in tables ==> Held(after.mem, q) == Held(r.mem, q)
    ensures after.free == AllFrames(after, tables) - (AllFrames(r, tables) - r.free)
  {
    hide Held, AllFrames, Ledger;
    forall g | g in after.free ensures g in AllFrames(after, tables) && !(g in AllFrames(r, tables) && g !in r.free) {
      FrameIn(after, tables, 0, g);
      if g in AllFrames(r, tables) && g !in r.free {
        var q := WhereIs(r, tables, g);
        HeldNotFree(after, tables, q);
      }
    }
    forall g | g in AllFrames(after, tables) && g !in after.free ensures g in AllFrames(r, tables) && g !in r.free {
      var q := WhereIs(after, tables, g);
      FrameIn(r, tables, q, g);
      HeldNotFree(r, tables, q);
    }
  }

  // One call on a live table.
  method Perform(m: PageMemory, p: nat, w: Work) returns (ok: bool)
    requires m.Valid() && p in m.tables && InSpace(w)
    modifies m`mem, m`pagesFree, m.freemap
    ensures m.Valid() && m.Slack() == old(m.Slack())
    ensures !ok ==> m.View().free == {}
    ensures ok ==> Worked(old(m.View()), m.View(), m.tables, p, Lost(old(m.mem), m.tables, p, w))
    ensures ok && Reported(old(m.mem), m.tables) ==> (Reported(m.mem, m.tables) <==> !Masks(old(m.mem), p, w))
  {
    hide Ledger, Held, FreeFrames, Lost, AllFrames, PageMapped, PageUnmapped, RunAllocated, RunFreed, Worked, SameDirs,
         SlotsGrown, AllHonest, Writable, MaskedRun, Masked, RunSlots, PagesIn;
    ghost var r := m.View();
    ok := true;
    match w {
      case MapPage(vaddr, paddr, flags) =>
        ok := Map(m, p, vaddr, paddr, flags);
        if ok {
          MapWorked(r, m.View(), m.tables, p, w);
          MapReported(r, m.View(), m.tables, p, PageOf(vaddr), paddr / PAGE_SIZE, flags);
        }
      case UnmapPage(vaddr) =>
        Unmap(m, p, vaddr);
        UnmapWorked(r, m.View(), m.tables, p, w);
        UnmapReported(r, m.View(), m.tables, p, PageOf(vaddr));
      case AllocPages(vaddr, length, flags) =>
        ok := Alloc(m, p, vaddr, length, flags);
        if ok {
          AllocWorked(r, m.View(), m.tables, p, w);
          AllocReported(r, m.View(), m.tables, p, PageOf(vaddr), length, flags);
        }
      case FreePages(vaddr, length) =>
        FreeRun(m, p, vaddr, length);
        FreeWorked(r, m.View(), m.tables, p, w);
        FreeReported(r, m.View(), m.tables, p, PageOf(vaddr), PagesIn(length));
    }
  }

  lemma MapReported(r: Ram, after: Ram, tables: set<nat>, p: nat, v: nat, frame: nat, flags: Flags)
    requires v < PAGES && p in tables && PageMapped(r, after, tables, p, v, frame, flags)
    requires SlotsGrown(r.mem, after.mem, tables, p, {v / ENTRIES}, flags.kernel)
    ensures Reported(r.mem, tables) ==> (Reported(after.mem, tables) <==> !Masked(r.mem, p, v, flags))
  {
    hide PageMapped, SlotsGrown, AllHonest, Writable, Masked;
    if Reported(r.mem, tables) {
      SlotsWritable(r.mem, after.mem, tables, p, {v / ENTRIES}, flags.kernel);
      MapHonest(r, after, tables, p, v, frame, flags);
    }
  }

  lemma UnmapReported(r: Ram, after: Ram, tables: set<nat>, p: nat, v: nat)
    requires v < PAGES && p in tables && PageUnmapped(r, after, tables, p, v) && SameDirs(r.mem, after.mem, tables)
    ensures Reported(r.mem, tables) ==> Reported(after.mem, tables)
  {
    hide PageUnmapped, SameDirs, AllHonest, Writable;
    if Reported(r.mem, tables) {
      UnmapHonest(r, after, tables, p, v);
    }
  }

  lemma AllocReported(r: Ram, after: Ram, tables: set<nat>, p: nat, v0: nat, length: nat, flags: Flags)
    requires v0 < PAGES && length < ADDRESSES && p in tables
    requires RunAllocated(r, after, tables, p, v0, PagesIn(length), flags)
    requires SlotsGrown(r.mem, after.mem, tables, p, RunSlots(v0, PagesIn(length)), flags.kernel)
    ensures Reported(r.mem, tables) ==>
              (Reported(after.mem, tables) <==> !MaskedRun(r.mem, p, v0, PagesIn(length), flags))
  {
    hide RunAllocated, SlotsGrown, AllHonest, Writable, MaskedRun, RunSlots;
    if Reported(r.mem, tables) {
      SlotsWritable(r.mem, after.mem, tables, p, RunSlots(v0, PagesIn(length)), flags.kernel);
      AllocHonest(r, after, tables, p, v0, PagesIn(length), flags);
    }
  }

  lemma FreeReported(r: Ram, after: Ram, tables: set<nat>, p: nat, v0: nat, n: nat)
    requires p in tables && RunFreed(r, after, tables, p, v0, n) && SameDirs(r.mem, after.mem, tables)
    ensures Reported(r.mem, tables) ==> Reported(after.mem, tables)
  {
    hide RunFreed, SameDirs, AllHonest, Writable;
    if Reported(r.mem, tables) {
      FreeHonest(r, after, tables, p, v0, n);
    }
  }

  lemma {:induction false} LostHeld(r: Ram, tables: set<nat>, p: nat, w: Work)
    requires InSpace(w) && p in tables
    ensures Lost(r.mem, tables, p, w) <= Held(r.mem, p)
    ensures Careful(r.mem, p, w) ==> Lost(r.mem, tables, p, w) == {}
  {
    hide Held;
    forall g | g in Lost(r.mem, tables, p, w) ensures g in Held(r.mem, p) {
      KeyIsHeld(r.mem, Data(p, PageOf(w.vaddr)));
    }
  }

  lemma {:induction false} MapWorked(r: Ram, after: Ram, tables: set<nat>, p: nat, w: Work)
    requires Ledger(r, tables) && p in tables && InSpace(w) && w.MapPage?
    requires PageMapped(r, after, tables, p, PageOf(w.vaddr), w.paddr / PAGE_SIZE, w.flags)
    ensures Worked(r, after, tables, p, Lost(r.mem, tables, p, w))
  {
    hide Held, Ledger, Leaf, Elsewhere, ContentsKept, Loose, FramesAt, Worked;
    LostHeld(r, tables, p, w);
    ShareChanged(r, after, tables, p, Lost(r.mem, tables, p, w));
  }

  lemma {:induction false} UnmapWorked(r: Ram, after: Ram, tables: set<nat>, p: nat, w: Work)
    requires Ledger(r, tables) && p in tables && InSpace(w) && w.UnmapPage?
    requires PageUnmapped(r, after, tables, p, PageOf(w.vaddr))
    ensures Worked(r, after, tables, p, Lost(r.mem, tables, p, w))
  {
    hide Held, Ledger, Leaf, Elsewhere, ContentsKept, Loose, FramesAt, Worked;
    LostHeld(r, tables, p, w);
    HeldNotFree(r, tables, p);
    ShareChanged(r, after, tables, p, Lost(r.mem, tables, p, w));
  }

  lemma {:induction false} AllocWorked(r: Ram, after: Ram, tables: set<nat>, p: nat, w: Work)
    requires Ledger(r, tables) && p in tables && InSpace(w) && w.AllocPages?
    requires RunAllocated(r, after, tables, p, PageOf(w.vaddr), PagesIn(w.length), w.flags)
    ensures Worked(r, after, tables, p, Lost(r.mem, tables, p, w))
  {
    hide Held, Ledger, AllocAt, OthersSame, ContentsKept, PagesIn, Worked;
    ShareChanged(r, after, tables, p, {});
  }

  lemma {:induction false} FreeWorked(r: Ram, after: Ram, tables: set<nat>, p: nat, w: Work)
    requires Ledger(r, tables) && p in tables && InSpace(w) && w.FreePages?
    requires RunFreed(r, after, tables, p, PageOf(w.vaddr), PagesIn(w.length))
    ensures Worked(r, after, tables, p, Lost(r.mem, tables, p, w))
  {
    hide Held, Ledger, FreeAt, OthersSame, PageKept, PagesIn, Worked;
    ShareChanged(r, after, tables, p, {});
  }

  // ---------------------------------------------------------------- runs

  // What a client does with the tables it has, numbered in the order of creation.
  datatype Call = New | Work(n: nat, work: Work) | Copy(n: nat) | Drop(n: nat)

  ghost function Roots(s: seq<Frame>): set<nat> {
    set p | p in s
  }

  ghost predicate AllDifferent(s: seq<Frame>) {
    forall i, j :: 0 <= i < j < |s| ==> s[i] != s[j]
  }

  function Without(s: seq<Frame>, n: nat): seq<Frame>
    requires n < |s|
  {
    s[..n] + s[n + 1..]
  }

  lemma RootsMore(s: seq<Frame>, p: Frame)
    requires AllDifferent(s) && p !in Roots(s)
    ensures AllDifferent(s + [p]) && Roots(s + [p]) == Roots(s) + {p}
  {
  }

  lemma RootsLess(s: seq<Frame>, n: nat)
    requires AllDifferent(s) && n < |s|
    ensures AllDifferent(Without(s, n)) && Roots(Without(s, n)) == Roots(s) - {s[n]}
  {
    var t := Without(s, n);
    forall i | 0 <= i < |t| ensures t[i] == if i < n then s[i] else s[i + 1] {
    }
    forall p | p in Roots(s) - {s[n]} ensures p in Roots(t) {
      var i :| 0 <= i < |s| && s[i] == p;
      assert t[if i < n then i else i - 1] == p;
    }
  }

  ghost predicate CallMasks(mem: map<nat, Page>, roots: seq<Frame>, c: Call) {
    c.Work? && c.n < |roots| && InSpace(c.work) && Masks(mem, roots[c.n], c.work)
  }

  predicate CallCareful(mem: map<nat, Page>, roots: seq<Frame>, c: Call) {
    c.Work? && c.n < |roots| && InSpace(c.work) ==> Careful(mem, roots[c.n], c.work)
  }

  // One call; a call that names no table, or an address out of space, does nothing.
  method Step(m: PageMemory, roots0: seq<Frame>, c: Call)
    returns (ok: bool, roots: seq<Frame>, careful: bool, ghost lost: set<nat>)
    requires m.Valid() && m.tables == Roots(roots0) && AllDifferent(roots0)
    modifies m, m.freemap
    ensures m.Valid() && m.Slack() == old(m.Slack())
    ensures !ok ==> m.View().free == {}
    ensures ok ==> m.tables == Roots(roots) && AllDifferent(roots)
    ensures ok ==> AllFrames(m.View(), m.tables) == AllFrames(old(m.View()), old(m.tables)) - lost
                   && lost <= AllFrames(old(m.View()), old(m.tables)) && (careful ==> lost == {})
    ensures ok && Reported(old(m.mem), old(m.tables)) ==>
              (Reported(m.mem, m.tables) <==> !CallMasks(old(m.mem), roots0, c))
    ensures careful <==> CallCareful(old(m.mem), roots0, c)
  {
    hide Ledger, Held, FreeFrames, AllFrames, Roots, AllDifferent, Without, Copied, FlatMap, Lost, Masks, Reported,
         SlotsCopied, SameLeaves, SameDirs, PageAt;
    ghost var r, tables := m.View(), m.tables;
    ok, roots, careful, lost := true, roots0, true, {};
    if c.New? {
      var p;
      ok, p := Create(m);
      if ok {
        TableAdded(r, m.View(), tables, p);
        NewReported(r.mem, m.mem, tables, p);
        RootsMore(roots0, p);
        roots := roots0 + [p];
      }
    } else if c.n < |roots0| {
      RootsHave(roots0, c.n);
      var p := roots0[c.n];
      match c {
        case Work(_, w) =>
          if InSpace(w) {
            careful := Careful(m.mem, p, w);
            lost := Lost(m.mem, m.tables, p, w);
            LostHeld(r, tables, p, w);
            ok := Perform(m, p, w);
          }
        case Copy(_) =>
          var np;
          ok, np := Duplicate(m, p);
          if ok {
            CopyAdds(r, m.View(), tables, p, np);
            CopyReported(r, m.View(), tables, p, np);
            RootsMore(roots0, np);
            roots := roots0 + [np];
          }
        case Drop(_) =>
          Delete(m, p);
          TableGone(r, m.View(), tables, p);
          DropReported(r.mem, tables, p);
          RootsLess(roots0, c.n);
          roots := Without(roots0, c.n);
      }
    }
  }

  lemma NewReported(mem: map<nat, Page>, after: map<nat, Page>, tables: set<nat>, p: nat)
    requires SameLeaves(mem, after, tables) && SameDirs(mem, after, tables) && PageAt(after, p) == ZeroPage()
    ensures Reported(mem, tables) ==> Reported(after, tables + {p})
  {
    hide AllHonest, Writable, SameDirs, SameLeaves;
    if Reported(mem, tables) {
      CreateHonest(mem, after, tables, p);
    }
  }

  lemma CopyReported(r0: Ram, r: Ram, tables: set<nat>, sp: nat, np: nat)
    requires sp in tables && Copied(r0, r, tables, sp, np, PAGES) && SlotsCopied(r0.mem, r.mem, sp, np)
    ensures Reported(r0.mem, tables) ==> Reported(r.mem, tables + {np})
  {
    hide Copied, SlotsCopied, AllHonest, Writable;
    if Reported(r0.mem, tables) {
      CopyHonest(r0, r, tables, sp, np);
    }
  }

  lemma DropReported(mem: map<nat, Page>, tables: set<nat>, p: nat)
    ensures Reported(mem, tables) ==> Reported(mem, tables - {p})
  {
    hide Honest, WritableSlot;
  }

  lemma RootsHave(s: seq<Frame>, n: nat)
    requires n < |s|
    ensures s[n] in Roots(s)
  {
  }

  lemma CopyAdds(r: Ram, after: Ram, tables: set<nat>, sp: nat, np: nat)
    requires np !in tables && Copied(r, after, tables, sp, np, PAGES)
    ensures AllFrames(after, tables + {np}) == AllFrames(r, tables)
  {
    hide Held, AllFrames, CopyAt, SameLeaves, SameDirs, ContentsKept, Mapped;
    TableAdded(r, after, tables, np);
  }

  // Any run of calls: every frame stays free or in one table, except those lost by
  // mapping over or unmapping an owned page. A careful run loses none, and with all
  // tables gone what is left is free. What getmap reports stays what the processor grants,
  // if no call of the run masks a page.
  method Run(m: PageMemory, roots0: seq<Frame>, calls: seq<Call>)
    returns (ok: bool, roots: seq<Frame>, careful: bool, ghost lost: set<nat>, ghost masked: bool)
    requires m.Valid() && m.tables == Roots(roots0) && AllDifferent(roots0)
    modifies m, m.freemap
    ensures m.Valid() && m.Slack() == old(m.Slack())
    ensures !ok ==> m.View().free == {}
    ensures ok ==> m.tables == Roots(roots) && AllDifferent(roots)
    ensures ok ==> AllFrames(m.View(), m.tables) == AllFrames(old(m.View()), old(m.tables)) - lost
                   && lost <= AllFrames(old(m.View()), old(m.tables)) && (careful ==> lost == {})
    ensures ok && Reported(old(m.mem), old(m.tables)) && !masked ==> Reported(m.mem, m.tables)
    ensures ok && roots == [] ==> m.View().free == AllFrames(old(m.View()), old(m.tables)) - lost
  {
    hide Ledger, Held, FreeFrames, AllFrames, Roots, AllDifferent, Reported, CallMasks, CallCareful;
    ghost var all := AllFrames(m.View(), m.tables);
    ok, roots, careful, lost, masked := true, roots0, true, {}, false;
    var i := 0;
    while i < |calls|
      invariant 0 <= i <= |calls| && m.Valid() && m.Slack() == old(m.Slack())
      invariant m.tables == Roots(roots) && AllDifferent(roots)
      invariant AllFrames(m.View(), m.tables) == all - lost && lost <= all && (careful ==> lost == {})
      invariant Reported(old(m.mem), old(m.tables)) && !masked ==> Reported(m.mem, m.tables)
    {
      masked := masked || CallMasks(m.mem, roots, calls[i]);
      var c;
      ghost var l;
      ok, roots, c, l := Step(m, roots, calls[i]);
      if !ok {
        return;
      }
      careful, lost := careful && c, lost + l;
      i := i + 1;
    }
    if roots == [] {
      NoRoots(m.View());
    }
  }

  lemma NoRoots(r: Ram)
    ensures Roots([]) == {} && AllFrames(r, {}) == r.free
  {
  }

  // Any calls on one table.
  method WorkOn(m: PageMemory, p: nat, works: seq<Work>) returns (ok: bool, careful: bool, ghost lost: set<nat>)
    requires m.Valid() && p in m.tables && (forall w :: w in works ==> InSpace(w))
    modifies m`mem, m`pagesFree, m.freemap
    ensures m.Valid() && m.Slack() == old(m.Slack())
    ensures !ok ==> m.View().free == {}
    ensures ok ==> Worked(old(m.View()), m.View(), m.tables, p, lost)
    ensures careful ==> lost == {}
  {
    hide Ledger, Held, FreeFrames, AllFrames, Lost, Worked, InSpace;
    ghost var r := m.View();
    ok, careful, lost := true, true, {};
    NoWork(r, m.tables, p);
    var i := 0;
    while i < |works|
      invariant 0 <= i <= |works| && m.Valid() && m.Slack() == old(m.Slack())
      invariant Worked(r, m.View(), m.tables, p, lost) && (careful ==> lost == {})
    {
      assert works[i] in works;
      ghost var mid, l := m.View(), Lost(m.mem, m.tables, p, works[i]);
      LostHeld(mid, m.tables, p, works[i]);
      careful := careful && Careful(m.mem, p, works[i]);
      ok := Perform(m, p, works[i]);
      if !ok {
        return;
      }
      MoreWork(r, mid, m.View(), m.tables, p, lost, l);
      lost := lost + l;
      i := i + 1;
    }
  }

  lemma NoWork(r: Ram, tables: set<nat>, p: nat)
    ensures Worked(r, r, tables, p, {})
  {
  }

  lemma MoreWork(r: Ram, mid: Ram, after: Ram, tables: set<nat>, p: nat, lost: set<nat>, l: set<nat>)
    requires Worked(r, mid, tables, p, lost) && Worked(mid, after, tables, p, l)
    ensures Worked(r, after, tables, p, lost + l)
  {
    hide AllFrames, Held;
  }

  // The life of one table: created, worked on, deleted. Afterwards the same frames are
  // free as before, less those that were lost.
  method Lifetime(m: PageMemory, works: seq<Work>) returns (ok: bool, careful: bool, ghost lost: set<nat>)
    requires m.Valid() && (forall w :: w in works ==> InSpace(w))
    modifies m, m.freemap
    ensures m.Valid() && m.Slack() == old(m.Slack())
    ensures !ok ==> m.View().free == {}
    ensures ok ==> m.tables == old(m.tables) && m.View().free == old(m.View()).free - lost
                   && (forall q :: q in m.tables ==> Held(m.mem, q) == Held(old(m.mem), q))
    ensures careful ==> lost == {}
  {
    hide Ledger, Held, FreeFrames, AllFrames, FlatMap, Worked, SameLeaves, SameDirs, ContentsKept, InSpace;
    ghost var r, tables := m.View(), m.tables;
    var p;
    careful, lost := true, {};
    ok, p := Create(m);
    if !ok {
      return;
    }
    ghost var first := m.View();
    ok, careful, lost := WorkOn(m, p, works);
    if !ok {
      return;
    }
    ghost var last := m.View();
    Delete(m, p);
    LifeEnds(r, first, last, m.View(), tables, p, lost);
  }

  lemma {:induction false} LifeEnds(r: Ram, first: Ram, last: Ram, after: Ram, tables: set<nat>, p: nat,
        lost: set<nat>)
    requires Ledger(r, tables) && Ledger(after, tables) && p !in tables
    requires first.free + Held(first.mem, p) == r.free
    requires forall q :: q in tables ==> Held(first.mem, q) == Held(r.mem, q)
    requires Worked(first, last, tables + {p}, p, lost)
    requires after == last.(free := last.free + Held(last.mem, p))
    ensures tables + {p} - {p} == tables && after.free == r.free - lost
    ensures forall q :: q in tables ==> Held(after.mem, q) == Held(r.mem, q)
  {
    hide Ledger, Held, AllFrames;
    TableAdded(r, first, tables, p);
    TableGone(last, after, tables + {p}, p);
    assert tables + {p} - {p} == tables;
    FreeIs(r, after, tables);
    FreeInAll(r, tables);
  }

  lemma FreeInAll(r: Ram, tables: set<nat>)
    ensures r.free <= AllFrames(r, tables)
  {
  }
}

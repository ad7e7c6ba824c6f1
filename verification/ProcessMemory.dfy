// process.c: growing and shrinking the data area and the stack of a process.
// The data calls pass the whole new, or old, size as the length of the run, so
// they reach past the change; this says when that does no harm.
module ProcessMemory {
  import opened PageLedger
  import opened PageMemory
  import opened PageTables
  import opened PageRuns
  import opened PageAccess

  const PROCESS_ENTRY_POINT := 0x8000_0000
  const DATA_PAGE := 0x8_0000
  const USER_SPACE := 0x8000_0000
  const USER_PAGES := 0x8_0000

  function Rounded(size: nat): (r: nat)
    ensures r % PAGE_SIZE == 0 && size <= r < size + PAGE_SIZE
  {
    if size % PAGE_SIZE != 0 then size + (PAGE_SIZE - size % PAGE_SIZE) else size
  }

  ghost predicate OwnedRange(mem: map<nat, Page>, p: nat, lo: int, hi: int) {
    forall v: nat :: lo <= v < hi ==> OwnedPage(mem, p, v)
  }

  // The first size bytes of the data area.
  ghost predicate DataOwned(mem: map<nat, Page>, p: nat, size: nat) {
    OwnedRange(mem, p, DATA_PAGE, DATA_PAGE + size / PAGE_SIZE)
  }

  // The last size bytes of the address space.
  ghost predicate StackOwned(mem: map<nat, Page>, p: nat, size: nat) {
    OwnedRange(mem, p, PAGES - size / PAGE_SIZE, PAGES)
  }

  // Nothing in the range is mapped to a frame the table does not own.
  ghost predicate Clean(mem: map<nat, Page>, p: nat, lo: int, hi: int) {
    forall v: nat :: lo <= v < hi && Mapped(mem, p, v) ==> OwnedPage(mem, p, v)
  }

  // Pages that a call maps are owned ones.
  ghost predicate OwnedAdded(mem: map<nat, Page>, after: map<nat, Page>, p: nat) {
    forall v: nat :: Mapped(after, p, v) && !OwnedPage(after, p, v) ==> Mapped(mem, p, v) && !OwnedPage(mem, p, v)
  }

  // The flags of user pages: USER, READWRITE and CLEAR.
  const USER_PAGE := Flags(false, false, true, true)

  // Pages that a call maps are zeroed, writable and open to the user.
  ghost predicate UserAdded(mem: map<nat, Page>, after: map<nat, Page>, p: nat) {
    forall v: nat :: Mapped(after, p, v) && !Mapped(mem, p, v) ==>
      Leaf(after, p, v) == MapEntry(Leaf(after, p, v).addr, USER_PAGE.(alloc := true))
      && PageAt(after, Leaf(after, p, v).addr) == ZeroPage()
  }

  // Pages that stay mapped stay as open as they were, and new ones are as open as their
  // directory slot was: fully, if it was absent.
  ghost predicate AccessAdded(mem: map<nat, Page>, after: map<nat, Page>, p: nat) {
    forall v: nat :: Mapped(after, p, v) ==>
      AccessOf(after, p, v) == if Mapped(mem, p, v) then AccessOf(mem, p, v) else Granted(mem, p, v, USER_PAGE)
  }

  // The page is open to the user in full, or will be once it is mapped for the user.
  ghost predicate Open(mem: map<nat, Page>, p: nat, v: nat) {
    && v < PAGES && Granted(mem, p, v, USER_PAGE) == Access(true, true)
    && (Mapped(mem, p, v) ==> AccessOf(mem, p, v) == Access(true, true))
  }

  ghost predicate OpenStays(mem: map<nat, Page>, after: map<nat, Page>, p: nat) {
    forall v: nat :: Open(mem, p, v) ==> Open(after, p, v)
  }

  // An owned page that keeps its entry keeps its contents.
  ghost predicate ContentStays(mem: map<nat, Page>, after: map<nat, Page>, p: nat) {
    forall v: nat :: OwnedPage(mem, p, v) && LeafSame(mem, after, p, v) ==>
                       PageAt(after, Leaf(mem, p, v).addr) == PageAt(mem, Leaf(mem, p, v).addr)
  }

  // What a program sees of its own pages.
  ghost predicate UserKept(mem: map<nat, Page>, after: map<nat, Page>, p: nat) {
    AccessAdded(mem, after, p) && OpenStays(mem, after, p) && ContentStays(mem, after, p)
  }

  lemma {:induction false} GrownAccess(r: Ram, after: Ram, tables: set<nat>, p: nat, v0: nat, n: nat)
    requires RunAllocated(r, after, tables, p, v0, n, USER_PAGE) && p in tables && v0 < PAGES && n <= PAGES
    requires SlotsGrown(r.mem, after.mem, tables, p, RunSlots(v0, n), false)
    ensures UserKept(r.mem, after.mem, p)
  {
    hide Leaf, InRun, Held, OthersSame, Conserved, SlotsGrown, RunSlots, AccessOf, Granted, Dir;
    AllocGrants(r, after, tables, p, v0, n, USER_PAGE);
    forall v: nat | Mapped(after.mem, p, v)
      ensures AccessOf(after.mem, p, v)
              == if Mapped(r.mem, p, v) then AccessOf(r.mem, p, v) else Granted(r.mem, p, v, USER_PAGE)
    {
      assert AllocAt(r.mem, after.mem, p, v, USER_PAGE, v0, n);
      assert AccessSame(r.mem, after.mem, p, v) || (InRun(v, v0, n) && !Mapped(r.mem, p, v));
    }
    forall v: nat | Open(r.mem, p, v) ensures Open(after.mem, p, v) {
      SlotOpen(r.mem, after.mem, tables, p, RunSlots(v0, n), v);
    }
    forall v: nat | OwnedPage(r.mem, p, v)
      ensures PageAt(after.mem, Leaf(r.mem, p, v).addr) == PageAt(r.mem, Leaf(r.mem, p, v).addr)
    {
      assert PageKept(r.mem, after.mem, tables, p, v);
    }
  }

  lemma SlotOpen(mem: map<nat, Page>, after: map<nat, Page>, tables: set<nat>, p: nat, slots: set<nat>, v: nat)
    requires SlotsGrown(mem, after, tables, p, slots, false) && p in tables && v < PAGES
    ensures Granted(mem, p, v, USER_PAGE) == Access(true, true) ==>
              Granted(after, p, v, USER_PAGE) == Access(true, true)
  {
    var i := v / ENTRIES;
    assert if i in slots then SlotGrown(mem, after, p, i, false) else DirSame(mem, after, p, i);
  }

  lemma {:induction false} ShrunkAccess(r: Ram, after: Ram, tables: set<nat>, p: nat, v0: nat, n: nat)
    requires RunFreed(r, after, tables, p, v0, n) && p in tables && SameDirs(r.mem, after.mem, tables)
    ensures UserKept(r.mem, after.mem, p)
  {
    hide Leaf, InRun, Held, OthersSame, Conserved, SlotsGrown, AccessOf, Granted, Dir, SameDirs;
    FreeGrants(r, after, tables, p, v0, n);
    NoSlots(r.mem, after.mem, tables, p, false);
    forall v: nat
      ensures Mapped(after.mem, p, v) ==> Mapped(r.mem, p, v) && AccessOf(after.mem, p, v) == AccessOf(r.mem, p, v)
      ensures InRun(v, v0, n) ==> !Mapped(after.mem, p, v)
    {
      assert FreeAt(r.mem, after.mem, p, v, v0, n) && (InRun(v, v0, n) || AccessSame(r.mem, after.mem, p, v));
    }
    forall v: nat | Open(r.mem, p, v) ensures Open(after.mem, p, v) {
      SlotOpen(r.mem, after.mem, tables, p, {}, v);
    }
    forall v: nat | OwnedPage(r.mem, p, v) && LeafSame(r.mem, after.mem, p, v)
      ensures PageAt(after.mem, Leaf(r.mem, p, v).addr) == PageAt(r.mem, Leaf(r.mem, p, v).addr)
    {
      assert InRun(v, v0, n) || PageKept(r.mem, after.mem, tables, p, v);
    }
  }

  lemma SameUser(mem: map<nat, Page>, p: nat)
    ensures UserKept(mem, mem, p)
  {
  }

  lemma OpenTwice(mem: map<nat, Page>, mid: map<nat, Page>, after: map<nat, Page>, p: nat)
    requires OpenStays(mem, mid, p) && OpenStays(mid, after, p)
    ensures OpenStays(mem, after, p)
  {
    hide Open;
  }

  // A run whose pages were unmapped or owned is owned afterwards.
  ghost predicate RunOwned(mem: map<nat, Page>, after: map<nat, Page>, p: nat, v0: nat, n: nat) {
    forall v: nat :: InRun(v, v0, n) && (Mapped(mem, p, v) ==> OwnedPage(mem, p, v)) ==> OwnedPage(after, p, v)
  }

  lemma KeepsRange(mem: map<nat, Page>, after: map<nat, Page>, p: nat, lo: int, hi: int)
    requires forall v: nat :: OwnedPage(mem, p, v) ==> OwnedPage(after, p, v)
    ensures OwnedRange(mem, p, lo, hi) ==> OwnedRange(after, p, lo, hi)
  {
  }

  // Pages outside the run translate as before.
  ghost predicate RunOnly(mem: map<nat, Page>, after: map<nat, Page>, p: nat, v0: nat, n: nat) {
    forall v: nat :: !InRun(v, v0, n) ==> LeafSame(mem, after, p, v)
  }

  // Only pages between the two sizes changed; of the data area, the run is as long as the
  // larger size.
  ghost predicate DataOnly(mem: map<nat, Page>, after: map<nat, Page>, p: nat, was: nat, size: nat) {
    RunOnly(mem, after, p, DATA_PAGE + Min(was, size) / PAGE_SIZE, Max(was, size) / PAGE_SIZE)
  }

  ghost predicate StackOnly(mem: map<nat, Page>, after: map<nat, Page>, p: nat, was: nat, size: nat) {
    was <= USER_SPACE && size <= USER_SPACE
    && RunOnly(mem, after, p, PAGES - Max(was, size) / PAGE_SIZE,
               Max(was, size) / PAGE_SIZE - Min(was, size) / PAGE_SIZE)
  }

  // The pages below the user space that were mapped still are, as they were.
  ghost predicate KernelKept(mem: map<nat, Page>, after: map<nat, Page>, p: nat) {
    forall v: nat :: v < DATA_PAGE && Mapped(mem, p, v) ==> LeafSame(mem, after, p, v)
  }

  // A run that passes the end of the address space goes on at page 0.
  ghost predicate KernelSafe(mem: map<nat, Page>, p: nat, size: nat, old_: nat) {
    size >= old_ || forall v: nat :: v < size / PAGE_SIZE + old_ / PAGE_SIZE - USER_PAGES ==> !Mapped(mem, p, v)
  }

  // Shrinking the data area from old to size frees size .. size + old.
  predicate ShrinkHarmless(size: nat, old_: nat, stack: nat) {
    size >= old_ || stack == 0 || size + old_ + stack <= USER_SPACE
  }

  lemma {:induction false} GrownRange(r: Ram, after: Ram, tables: set<nat>, p: nat, v0: nat, n: nat, flags: Flags)
    requires RunAllocated(r, after, tables, p, v0, n, flags) && v0 < PAGES
    ensures OwnedAdded(r.mem, after.mem, p) && Conserved(r, after, tables, p)
    ensures flags == USER_PAGE ==> UserAdded(r.mem, after.mem, p)
    ensures forall v: nat :: OwnedPage(r.mem, p, v) ==> OwnedPage(after.mem, p, v)
    ensures RunOwned(r.mem, after.mem, p, v0, n)
  {
    hide Leaf, InRun, Held, ContentsKept, OthersSame, Conserved;
    forall v: nat | Mapped(after.mem, p, v) && !Mapped(r.mem, p, v)
      ensures Leaf(after.mem, p, v) == MapEntry(Leaf(after.mem, p, v).addr, flags.(alloc := true))
      ensures flags.clear ==> PageAt(after.mem, Leaf(after.mem, p, v).addr) == ZeroPage()
    {
      assert AllocAt(r.mem, after.mem, p, v, flags, v0, n);
    }
    forall v: nat
      ensures Mapped(after.mem, p, v) && !OwnedPage(after.mem, p, v) ==>
                Mapped(r.mem, p, v) && !OwnedPage(r.mem, p, v)
      ensures OwnedPage(r.mem, p, v) ==> OwnedPage(after.mem, p, v)
      ensures InRun(v, v0, n) && (Mapped(r.mem, p, v) ==> OwnedPage(r.mem, p, v)) && v < PAGES ==>
                OwnedPage(after.mem, p, v)
    {
      assert AllocAt(r.mem, after.mem, p, v, flags, v0, n);
    }
    forall v: nat | InRun(v, v0, n) && (Mapped(r.mem, p, v) ==> OwnedPage(r.mem, p, v))
      ensures OwnedPage(after.mem, p, v)
    {
      RunInSpace(v, v0, n);
    }
  }

  lemma {:induction false} GrownOnly(r: Ram, after: Ram, tables: set<nat>, p: nat, v0: nat, n: nat, flags: Flags)
    requires RunAllocated(r, after, tables, p, v0, n, flags)
    ensures RunOnly(r.mem, after.mem, p, v0, n) && KernelKept(r.mem, after.mem, p)
  {
    hide Leaf, InRun, Held, ContentsKept, OthersSame, Conserved;
    forall v: nat ensures !InRun(v, v0, n) || Mapped(r.mem, p, v) ==> LeafSame(r.mem, after.mem, p, v) {
      assert AllocAt(r.mem, after.mem, p, v, flags, v0, n);
    }
  }

  lemma {:induction false} ShrunkOnly(r: Ram, after: Ram, tables: set<nat>, p: nat, v0: nat, n: nat)
    requires RunFreed(r, after, tables, p, v0, n)
    ensures RunOnly(r.mem, after.mem, p, v0, n)
  {
    hide Leaf, InRun, Held, OthersSame, Conserved, PageKept;
    forall v: nat ensures !InRun(v, v0, n) ==> LeafSame(r.mem, after.mem, p, v) {
      assert FreeAt(r.mem, after.mem, p, v, v0, n);
    }
  }

  // The run that is freed reaches the kernel's pages exactly when old and new size
  // together pass the user space.
  lemma {:induction false} KernelShrunk(mem: map<nat, Page>, after: map<nat, Page>, p: nat, was: nat, size: nat,
        v0: nat, n: nat)
    requires was % PAGE_SIZE == 0 && size % PAGE_SIZE == 0 && size < was <= USER_SPACE
    requires v0 == DATA_PAGE + size / PAGE_SIZE && n == was / PAGE_SIZE
    requires forall v: nat :: FreeAt(mem, after, p, v, v0, n)
    ensures KernelKept(mem, after, p) <==> KernelSafe(mem, p, size, was)
  {
    hide Leaf, InRun;
    forall v: nat | v < DATA_PAGE
      ensures v < size / PAGE_SIZE + was / PAGE_SIZE - USER_PAGES ==> !Mapped(after, p, v)
      ensures !(v < size / PAGE_SIZE + was / PAGE_SIZE - USER_PAGES) ==> LeafSame(mem, after, p, v)
    {
      RunPlace(v, v0, n);
      assert FreeAt(mem, after, p, v, v0, n);
    }
    if KernelKept(mem, after, p) {
      forall v: nat | v < size / PAGE_SIZE + was / PAGE_SIZE - USER_PAGES ensures !Mapped(mem, p, v) {
        assert Mapped(mem, p, v) ==> LeafSame(mem, after, p, v);
      }
    }
  }

  lemma FreedEach(r: Ram, after: Ram, tables: set<nat>, p: nat, v0: nat, n: nat)
    requires RunFreed(r, after, tables, p, v0, n)
    ensures forall w: nat :: FreeAt(r.mem, after.mem, p, w, v0, n)
  {
    hide FreeAt, Held, OthersSame, Conserved, PageKept;
  }

  // With no stack the run has no pages, and may start anywhere.
  lemma EmptyRun(mem: map<nat, Page>, after: map<nat, Page>, p: nat, was: nat, size: nat)
    requires size <= was <= USER_SPACE
    requires RunOnly(mem, after, p, (PAGES - was / PAGE_SIZE) % PAGES, was / PAGE_SIZE - size / PAGE_SIZE)
    ensures RunOnly(mem, after, p, PAGES - was / PAGE_SIZE, was / PAGE_SIZE - size / PAGE_SIZE)
  {
  }

  function Min(a: nat, b: nat): nat { if a <= b then a else b }

  function Max(a: nat, b: nat): nat { if a <= b then b else a }

  lemma Still(r: Ram, tables: set<nat>, p: nat, size: nat)
    ensures DataOnly(r.mem, r.mem, p, size, size) && KernelKept(r.mem, r.mem, p)
    ensures OwnedAdded(r.mem, r.mem, p) && UserAdded(r.mem, r.mem, p) && Conserved(r, r, tables, p)
  {
  }

  lemma RunInSpace(v: nat, v0: nat, n: nat)
    requires InRun(v, v0, n)
    ensures v < PAGES
  {
  }

  lemma {:induction false} ShrunkRange(r: Ram, after: Ram, tables: set<nat>, p: nat, v0: nat, n: nat)
    requires RunFreed(r, after, tables, p, v0, n) && v0 < PAGES
    ensures OwnedAdded(r.mem, after.mem, p) && UserAdded(r.mem, after.mem, p) && Conserved(r, after, tables, p)
    ensures forall v: nat :: OwnedPage(after.mem, p, v) <==> OwnedPage(r.mem, p, v) && !InRun(v, v0, n)
  {
    hide Leaf, InRun, Held, OthersSame, Conserved, PageKept;
    forall v: nat
      ensures Mapped(after.mem, p, v) ==> Mapped(r.mem, p, v)
      ensures Mapped(after.mem, p, v) && !OwnedPage(after.mem, p, v) ==>
                Mapped(r.mem, p, v) && !OwnedPage(r.mem, p, v)
      ensures OwnedPage(after.mem, p, v) <==> OwnedPage(r.mem, p, v) && !InRun(v, v0, n)
    {
      assert FreeAt(r.mem, after.mem, p, v, v0, n);
    }
  }

  // Where a run without wrap-around lies.
  lemma RunPlace(v: nat, v0: nat, n: nat)
    requires v < PAGES && v0 < PAGES && n <= PAGES
    ensures v0 <= v ==> (InRun(v, v0, n) <==> v < v0 + n)
    ensures v < v0 ==> (InRun(v, v0, n) <==> PAGES + v < v0 + n)
  {
    if v < v0 {
      assert (v - v0) % PAGES == PAGES + v - v0;
    }
  }

  lemma {:induction false} DataGrown(mem: map<nat, Page>, after: map<nat, Page>, p: nat, was: nat, size: nat)
    requires was % PAGE_SIZE == 0 && size % PAGE_SIZE == 0 && was < size <= USER_SPACE
    requires DataOwned(mem, p, was) && Clean(mem, p, DATA_PAGE, DATA_PAGE + size / PAGE_SIZE)
    requires forall v: nat :: OwnedPage(mem, p, v) ==> OwnedPage(after, p, v)
    requires RunOwned(mem, after, p, DATA_PAGE + was / PAGE_SIZE, size / PAGE_SIZE)
    ensures DataOwned(after, p, size)
  {
    hide Leaf, InRun;
    forall v: nat | DATA_PAGE <= v < DATA_PAGE + size / PAGE_SIZE ensures OwnedPage(after, p, v) {
      RunPlace(v, DATA_PAGE + was / PAGE_SIZE, size / PAGE_SIZE);
    }
  }

  lemma {:induction false} DataShrunk(mem: map<nat, Page>, after: map<nat, Page>, p: nat, was: nat, size: nat,
        stack: nat)
    requires was % PAGE_SIZE == 0 && size % PAGE_SIZE == 0 && size < was <= USER_SPACE
    requires stack % PAGE_SIZE == 0 && stack <= USER_SPACE && DataOwned(mem, p, was) && StackOwned(mem, p, stack)
    requires forall v: nat :: OwnedPage(after, p, v) <==>
               OwnedPage(mem, p, v) && !InRun(v, DATA_PAGE + size / PAGE_SIZE, was / PAGE_SIZE)
    ensures DataOwned(after, p, size)
    ensures StackOwned(after, p, stack) <==> ShrinkHarmless(size, was, stack)
  {
    hide Leaf, InRun;
    var v0, n, s := DATA_PAGE + size / PAGE_SIZE, was / PAGE_SIZE, PAGES - stack / PAGE_SIZE;
    forall v: nat | DATA_PAGE <= v < v0 ensures OwnedPage(after, p, v) {
      RunPlace(v, v0, n);
    }
    if ShrinkHarmless(size, was, stack) {
      forall v: nat | s <= v < PAGES ensures OwnedPage(after, p, v) {
        RunPlace(v, v0, n);
      }
    } else {
      var v := if v0 < s then s else v0;
      RunPlace(v, v0, n);
      assert !OwnedPage(after, p, v);
    }
  }

  lemma {:induction false} StackGrown(mem: map<nat, Page>, after: map<nat, Page>, p: nat, was: nat, size: nat)
    requires was % PAGE_SIZE == 0 && size % PAGE_SIZE == 0 && was < size <= USER_SPACE
    requires StackOwned(mem, p, was) && Clean(mem, p, PAGES - size / PAGE_SIZE, PAGES)
    requires forall v: nat :: OwnedPage(mem, p, v) ==> OwnedPage(after, p, v)
    requires RunOwned(mem, after, p, PAGES - size / PAGE_SIZE, (size - was) / PAGE_SIZE)
    ensures StackOwned(after, p, size)
  {
    hide Leaf, InRun;
    forall v: nat | PAGES - size / PAGE_SIZE <= v < PAGES ensures OwnedPage(after, p, v) {
      RunPlace(v, PAGES - size / PAGE_SIZE, (size - was) / PAGE_SIZE);
    }
  }

  lemma {:induction false} StackShrunk(mem: map<nat, Page>, after: map<nat, Page>, p: nat, was: nat, size: nat,
        data: nat)
    requires was % PAGE_SIZE == 0 && size % PAGE_SIZE == 0 && size <= was <= USER_SPACE
    requires data % PAGE_SIZE == 0 && data <= USER_SPACE && DataOwned(mem, p, data) && StackOwned(mem, p, was)
    requires forall v: nat :: OwnedPage(after, p, v) <==>
               OwnedPage(mem, p, v) && !InRun(v, (PAGES - was / PAGE_SIZE) % PAGES, (was - size) / PAGE_SIZE)
    ensures StackOwned(after, p, size)
    ensures DataOwned(after, p, data) <==> size >= was || data == 0 || data + was <= USER_SPACE
  {
    hide Leaf, InRun;
    var v0, n := (PAGES - was / PAGE_SIZE) % PAGES, (was - size) / PAGE_SIZE;
    forall v: nat | PAGES - size / PAGE_SIZE <= v < PAGES ensures OwnedPage(after, p, v) {
      RunPlace(v, v0, n);
    }
    if size >= was || data == 0 || data + was <= USER_SPACE {
      forall v: nat | DATA_PAGE <= v < DATA_PAGE + data / PAGE_SIZE ensures OwnedPage(after, p, v) {
        RunPlace(v, v0, n);
      }
    } else {
      RunPlace(v0, v0, n);
      assert !OwnedPage(after, p, v0);
    }
  }

  // ---------------------------------------------------------------- the four outcomes

  // What every change of the two areas keeps.
  ghost predicate Resized(r: Ram, after: Ram, tables: set<nat>, p: nat) {
    OwnedAdded(r.mem, after.mem, p) && UserAdded(r.mem, after.mem, p) && Conserved(r, after, tables, p)
  }

  lemma {:induction false} DataGrew(r: Ram, after: Ram, tables: set<nat>, p: nat, was: nat, size: nat, stack: nat)
    requires was % PAGE_SIZE == 0 && size % PAGE_SIZE == 0 && was < size <= USER_SPACE
    requires DataOwned(r.mem, p, was) && Clean(r.mem, p, DATA_PAGE, DATA_PAGE + size / PAGE_SIZE)
    requires StackOwned(r.mem, p, stack)
    requires RunAllocated(r, after, tables, p, DATA_PAGE + was / PAGE_SIZE, size / PAGE_SIZE, USER_PAGE)
    ensures Resized(r, after, tables, p) && DataOwned(after.mem, p, size) && StackOwned(after.mem, p, stack)
    ensures KernelKept(r.mem, after.mem, p)
    ensures DataOnly(r.mem, after.mem, p, was, size)
  {
    hide RunAllocated, OwnedAdded, UserAdded, Conserved, RunOwned, OwnedRange, Clean, OwnedPage, RunOnly, KernelKept;
    var v0, n := DATA_PAGE + was / PAGE_SIZE, size / PAGE_SIZE;
    GrownRange(r, after, tables, p, v0, n, USER_PAGE);
    DataGrown(r.mem, after.mem, p, was, size);
    GrownOnly(r, after, tables, p, v0, n, USER_PAGE);
    KeepsRange(r.mem, after.mem, p, PAGES - stack / PAGE_SIZE, PAGES);
  }

  lemma {:induction false} DataFreed(r: Ram, after: Ram, tables: set<nat>, p: nat, was: nat, size: nat, stack: nat)
    requires was % PAGE_SIZE == 0 && size % PAGE_SIZE == 0 && size < was <= USER_SPACE
    requires stack % PAGE_SIZE == 0 && stack <= USER_SPACE && DataOwned(r.mem, p, was) && StackOwned(r.mem, p, stack)
    requires RunFreed(r, after, tables, p, DATA_PAGE + size / PAGE_SIZE, was / PAGE_SIZE)
    ensures Resized(r, after, tables, p) && DataOwned(after.mem, p, size)
    ensures StackOwned(after.mem, p, stack) <==> ShrinkHarmless(size, was, stack)
    ensures KernelKept(r.mem, after.mem, p) <==> KernelSafe(r.mem, p, size, was)
    ensures DataOnly(r.mem, after.mem, p, was, size)
  {
    hide RunFreed, OwnedAdded, UserAdded, Conserved, OwnedRange, OwnedPage, RunOnly, KernelKept, KernelSafe, InRun,
         FreeAt;
    var v0, n := DATA_PAGE + size / PAGE_SIZE, was / PAGE_SIZE;
    ShrunkRange(r, after, tables, p, v0, n);
    DataShrunk(r.mem, after.mem, p, was, size, stack);
    ShrunkOnly(r, after, tables, p, v0, n);
    FreedEach(r, after, tables, p, v0, n);
    KernelShrunk(r.mem, after.mem, p, was, size, v0, n);
  }

  lemma {:induction false} StackGrew(r: Ram, after: Ram, tables: set<nat>, p: nat, was: nat, size: nat, data: nat)
    requires was % PAGE_SIZE == 0 && size % PAGE_SIZE == 0 && was < size <= USER_SPACE
    requires StackOwned(r.mem, p, was) && Clean(r.mem, p, PAGES - size / PAGE_SIZE, PAGES)
    requires DataOwned(r.mem, p, data)
    requires RunAllocated(r, after, tables, p, PAGES - size / PAGE_SIZE, (size - was) / PAGE_SIZE, USER_PAGE)
    ensures Resized(r, after, tables, p) && StackOwned(after.mem, p, size) && DataOwned(after.mem, p, data)
    ensures StackOnly(r.mem, after.mem, p, was, size)
  {
    hide RunAllocated, OwnedAdded, UserAdded, Conserved, RunOwned, OwnedRange, Clean, OwnedPage, RunOnly, KernelKept;
    var v0, n := PAGES - size / PAGE_SIZE, (size - was) / PAGE_SIZE;
    assert n == size / PAGE_SIZE - was / PAGE_SIZE;
    GrownRange(r, after, tables, p, v0, n, USER_PAGE);
    StackGrown(r.mem, after.mem, p, was, size);
    GrownOnly(r, after, tables, p, v0, n, USER_PAGE);
    KeepsRange(r.mem, after.mem, p, DATA_PAGE, DATA_PAGE + data / PAGE_SIZE);
  }

  lemma {:induction false} StackFreed(r: Ram, after: Ram, tables: set<nat>, p: nat, was: nat, size: nat, data: nat)
    requires was % PAGE_SIZE == 0 && size % PAGE_SIZE == 0 && size <= was <= USER_SPACE
    requires data % PAGE_SIZE == 0 && data + was <= USER_SPACE
    requires DataOwned(r.mem, p, data) && StackOwned(r.mem, p, was)
    requires RunFreed(r, after, tables, p, (PAGES - was / PAGE_SIZE) % PAGES, (was - size) / PAGE_SIZE)
    ensures Resized(r, after, tables, p) && StackOwned(after.mem, p, size) && DataOwned(after.mem, p, data)
    ensures StackOnly(r.mem, after.mem, p, was, size)
  {
    hide RunFreed, OwnedAdded, UserAdded, Conserved, OwnedRange, OwnedPage, RunOnly, InRun;
    var v0, n := (PAGES - was / PAGE_SIZE) % PAGES, (was - size) / PAGE_SIZE;
    assert n == was / PAGE_SIZE - size / PAGE_SIZE;
    ShrunkRange(r, after, tables, p, v0, n);
    StackShrunk(r.mem, after.mem, p, was, size, data);
    ShrunkOnly(r, after, tables, p, v0, n);
    EmptyRun(r.mem, after.mem, p, was, size);
  }

  // ---------------------------------------------------------------- there is not enough memory to overlap

  // The frames of the first n user pages.
  ghost function UserFrames(mem: map<nat, Page>, p: nat, n: nat): set<nat>
    requires n <= USER_PAGES
  {
    if n == 0 then {} else UserFrames(mem, p, n - 1) + {Leaf(mem, p, DATA_PAGE + (n - 1)).addr}
  }

  lemma {:induction false} UserFrameAt(mem: map<nat, Page>, p: nat, n: nat, f: nat) returns (v: nat)
    requires n <= USER_PAGES && f in UserFrames(mem, p, n)
    ensures DATA_PAGE <= v < DATA_PAGE + n && Leaf(mem, p, v).addr == f
  {
    hide Leaf;
    v := DATA_PAGE + (n - 1);
    if Leaf(mem, p, v).addr != f {
      v := UserFrameAt(mem, p, n - 1, f);
    }
  }

  // Owned pages have frames of their own.
  lemma {:induction false} UserFramesDiffer(r: Ram, tables: set<nat>, p: nat, n: nat)
    requires Ledger(r, tables) && p in tables && n <= USER_PAGES
    requires OwnedRange(r.mem, p, DATA_PAGE, DATA_PAGE + n)
    ensures |UserFrames(r.mem, p, n)| == n && UserFrames(r.mem, p, n) <= FirstFrames(r.total)
  {
    hide Leaf, Ledger, OwnedPage;
    if n > 0 {
      UserFramesDiffer(r, tables, p, n - 1);
      var v := DATA_PAGE + (n - 1);
      OwnedInRange(r, tables, p, v);
      if Leaf(r.mem, p, v).addr in UserFrames(r.mem, p, n - 1) {
        var w := UserFrameAt(r.mem, p, n - 1, Leaf(r.mem, p, v).addr);
        OwnedApart(r, tables, p, v, w);
      }
    }
  }

  lemma OwnedInRange(r: Ram, tables: set<nat>, p: nat, v: nat)
    requires Ledger(r, tables) && p in tables && OwnedPage(r.mem, p, v)
    ensures Leaf(r.mem, p, v).addr in FirstFrames(r.total)
  {
    hide Leaf, FlagsKept;
    assert KeyOK(r, tables, Data(p, v));
  }

  lemma OwnedApart(r: Ram, tables: set<nat>, p: nat, v: nat, w: nat)
    requires Ledger(r, tables) && p in tables && OwnedPage(r.mem, p, v) && OwnedPage(r.mem, p, w) && v != w
    ensures Leaf(r.mem, p, v).addr != Leaf(r.mem, p, w).addr
  {
    hide Leaf, FlagsKept;
    assert Apart(r, tables, Data(p, v), Data(p, w));
  }

  lemma {:induction false} FirstCount(n: nat)
    ensures |FirstFrames(n)| == n
  {
    if n > 0 {
      FirstCount(n - 1);
      assert FirstFrames(n) == FirstFrames(n - 1) + {FIRST_FRAME + (n - 1)};
    }
  }

  lemma FewerIn(a: set<nat>, b: set<nat>)
    requires a <= b
    ensures |a| <= |b|
  {
    assert b == a + (b - a);
  }

  // Data and stack that are both owned cannot overlap: together they would be the whole
  // user space, for which there are not enough frames, and part of which shows the screen.
  lemma {:induction false} NoOverlap(r: Ram, tables: set<nat>, p: nat, data: nat, stack: nat)
    requires Ledger(r, tables) && p in tables && DataOwned(r.mem, p, data) && StackOwned(r.mem, p, stack)
    requires data % PAGE_SIZE == 0 && stack % PAGE_SIZE == 0 && data <= USER_SPACE && stack <= USER_SPACE
    requires r.total < USER_PAGES || exists v: nat :: DATA_PAGE <= v < PAGES && !OwnedPage(r.mem, p, v)
    ensures data + stack <= USER_SPACE
  {
    hide Ledger, OwnedPage, UserFrames, FirstFrames;
    if data + stack > USER_SPACE {
      assert OwnedRange(r.mem, p, DATA_PAGE, DATA_PAGE + USER_PAGES);
      UserFramesDiffer(r, tables, p, USER_PAGES);
      FirstCount(r.total);
      FewerIn(UserFrames(r.mem, p, USER_PAGES), FirstFrames(r.total));
    }
  }

  lemma WholePages(size: nat)
    requires size % PAGE_SIZE == 0
    ensures PagesIn(size) == size / PAGE_SIZE
  {
  }

  // The page where a stack of the given size starts.
  lemma StackStart(size: nat)
    requires size % PAGE_SIZE == 0 && size <= USER_SPACE
    ensures PageOf((ADDRESSES - size) % ADDRESSES) == (PAGES - size / PAGE_SIZE) % PAGES
    ensures size > 0 ==> PageOf((ADDRESSES - size) % ADDRESSES) == PAGES - size / PAGE_SIZE
  {
    if size > 0 {
      assert (ADDRESSES - size) % ADDRESSES == ADDRESSES - size;
    }
  }

  class Process {
    const pagetable: nat
    var vmDataSize: nat
    var vmStackSize: nat

    // The promise: data area and stack are mapped to frames of the process.
    ghost predicate Backed(m: PageMemory)
      reads this, m
    {
      && vmDataSize % PAGE_SIZE == 0 && vmDataSize <= USER_SPACE
      && vmStackSize % PAGE_SIZE == 0 && vmStackSize <= USER_SPACE
      && DataOwned(m.mem, pagetable, vmDataSize) && StackOwned(m.mem, pagetable, vmStackSize)
    }

    constructor (p: nat, ghost m: PageMemory)
      ensures pagetable == p && vmDataSize == 0 && vmStackSize == 0 && Backed(m)
    {
      pagetable, vmDataSize, vmStackSize := p, 0, 0;
    }

    // Data and stack never overlap.
    lemma Room(m: PageMemory)
      requires m.Valid() && pagetable in m.tables && Backed(m)
      ensures vmDataSize + vmStackSize <= USER_SPACE
    {
      hide Ledger, FreeFrames, OwnedRange;
      NoOverlap(m.View(), m.tables, pagetable, vmDataSize, vmStackSize);
    }

    // process_data_size_set
    method DataSizeSet(m: PageMemory, size0: nat) returns (ok: bool)
      requires m.Valid() && pagetable in m.tables && Backed(m) && size0 <= USER_SPACE
      requires Clean(m.mem, pagetable, DATA_PAGE, DATA_PAGE + Rounded(size0) / PAGE_SIZE)
      modifies this`vmDataSize, m`mem, m`pagesFree, m.freemap
      ensures m.Valid() && m.Slack() == old(m.Slack())
      ensures !ok ==> m.View().free == {}
      ensures ok ==> vmDataSize == Rounded(size0) && DataOwned(m.mem, pagetable, vmDataSize)
      ensures ok ==> OwnedAdded(old(m.mem), m.mem, pagetable) && UserAdded(old(m.mem), m.mem, pagetable)
                     && Conserved(old(m.View()), m.View(), m.tables, pagetable)
      ensures ok ==> UserKept(old(m.mem), m.mem, pagetable)
      ensures ok ==> (Backed(m) <==> ShrinkHarmless(Rounded(size0), old(vmDataSize), vmStackSize))
      ensures ok ==> (KernelKept(old(m.mem), m.mem, pagetable)
                      <==> KernelSafe(old(m.mem), pagetable, Rounded(size0), old(vmDataSize)))
      ensures ok ==> DataOnly(old(m.mem), m.mem, pagetable, old(vmDataSize), Rounded(size0))
    {
      hide Ledger, RunAllocated, RunFreed, FreeFrames, Held, RunOnly, KernelKept, OwnedRange, OwnedAdded,
           UserAdded, Conserved, Clean, DataOnly, UserKept, SlotsGrown, RunSlots, SameDirs;
      var size := size0;
      if size % PAGE_SIZE != 0 {
        size := size + (PAGE_SIZE - size % PAGE_SIZE);
      }
      ghost var r := m.View();
      WholePages(size);
      WholePages(vmDataSize);
      if size > vmDataSize {
        var start := PROCESS_ENTRY_POINT + vmDataSize;
        ok := Alloc(m, pagetable, start, size, USER_PAGE);
        if !ok {
          return;
        }
        DataGrew(r, m.View(), m.tables, pagetable, vmDataSize, size, vmStackSize);
        GrownAccess(r, m.View(), m.tables, pagetable, PageOf(start), PagesIn(size));
      } else if size < vmDataSize {
        var start := PROCESS_ENTRY_POINT + size;
        FreeRun(m, pagetable, start, vmDataSize);
        DataFreed(r, m.View(), m.tables, pagetable, vmDataSize, size, vmStackSize);
        ShrunkAccess(r, m.View(), m.tables, pagetable, PageOf(start), PagesIn(vmDataSize));
      } else {
        Still(r, m.tables, pagetable, size);
        SameUser(m.mem, pagetable);
      }
      vmDataSize := size;
      ok := true;
    }

    // process_stack_size_set, called with whole pages.
    method StackSizeSet(m: PageMemory, size: nat) returns (ok: bool)
      requires m.Valid() && pagetable in m.tables && Backed(m) && size <= USER_SPACE && size % PAGE_SIZE == 0
      requires Clean(m.mem, pagetable, PAGES - size / PAGE_SIZE, PAGES)
      modifies this`vmStackSize, m`mem, m`pagesFree, m.freemap
      ensures m.Valid() && m.Slack() == old(m.Slack())
      ensures !ok ==> m.View().free == {}
      ensures ok ==> vmStackSize == size && StackOwned(m.mem, pagetable, size)
      ensures ok ==> OwnedAdded(old(m.mem), m.mem, pagetable) && UserAdded(old(m.mem), m.mem, pagetable)
                     && Conserved(old(m.View()), m.View(), m.tables, pagetable)
      ensures ok ==> UserKept(old(m.mem), m.mem, pagetable)
      ensures ok ==> Backed(m)
      ensures ok ==> StackOnly(old(m.mem), m.mem, pagetable, old(vmStackSize), size)
    {
      hide Ledger, RunAllocated, RunFreed, FreeFrames, Held, RunOnly, OwnedRange, OwnedAdded, UserAdded, Conserved,
           Clean, PagesIn, PageOf, StackOnly, UserKept, SlotsGrown, RunSlots, SameDirs;
      ghost var r := m.View();
      Room(m);
      StackStart(size);
      StackStart(vmStackSize);
      if size > vmStackSize {
        WholePages(size - vmStackSize);
        var start := (ADDRESSES - size) % ADDRESSES;
        ok := Alloc(m, pagetable, start, size - vmStackSize, USER_PAGE);
        if !ok {
          return;
        }
        StackGrew(r, m.View(), m.tables, pagetable, vmStackSize, size, vmDataSize);
        GrownAccess(r, m.View(), m.tables, pagetable, PageOf(start), PagesIn(size - vmStackSize));
      } else {
        var start := (ADDRESSES - vmStackSize) % ADDRESSES;
        WholePages(vmStackSize - size);
        FreeRun(m, pagetable, start, vmStackSize - size);
        StackFreed(r, m.View(), m.tables, pagetable, vmStackSize, size, vmDataSize);
        ShrunkAccess(r, m.View(), m.tables, pagetable, PageOf(start), PagesIn(vmStackSize - size));
      }
      vmStackSize := size;
      ok := true;
    }
  }

  // ---------------------------------------------------------------- runs of calls

  datatype Resize = DataSize(size: nat) | StackSize(size: nat)

  // The sizes a run is allowed: twice the data and the stack fit the user space.
  predicate Caps(cap: nat, scap: nat) {
    cap % PAGE_SIZE == 0 && scap % PAGE_SIZE == 0 && 2 * cap + scap <= USER_SPACE
  }

  predicate Within(c: Resize, cap: nat, scap: nat) {
    match c
    case DataSize(size) => Rounded(size) <= cap
    case StackSize(size) => size % PAGE_SIZE == 0 && size <= scap
  }

  // No shared page in the two areas.
  ghost predicate CleanAreas(mem: map<nat, Page>, p: nat, cap: nat, scap: nat) {
    && Clean(mem, p, DATA_PAGE, DATA_PAGE + cap / PAGE_SIZE)
    && Clean(mem, p, PAGES - scap / PAGE_SIZE, PAGES)
  }

  // Pages outside twice the data area and the stack translate as before.
  ghost predicate AreasOnly(mem: map<nat, Page>, after: map<nat, Page>, p: nat, cap: nat, scap: nat) {
    forall v: nat :: v < DATA_PAGE || DATA_PAGE + 2 * (cap / PAGE_SIZE) <= v < PAGES - scap / PAGE_SIZE ==>
                       LeafSame(mem, after, p, v)
  }

  function DataAfter(size: nat, calls: seq<Resize>): nat {
    if calls == [] then size
    else
      var c := calls[|calls| - 1];
      if c.DataSize? then Rounded(c.size) else DataAfter(size, calls[..|calls| - 1])
  }

  function StackAfter(size: nat, calls: seq<Resize>): nat {
    if calls == [] then size
    else
      var c := calls[|calls| - 1];
      if c.StackSize? then c.size else StackAfter(size, calls[..|calls| - 1])
  }

  lemma CleanStays(mem: map<nat, Page>, after: map<nat, Page>, p: nat, cap: nat, scap: nat)
    requires CleanAreas(mem, p, cap, scap) && OwnedAdded(mem, after, p)
    ensures CleanAreas(after, p, cap, scap)
  {
    hide Mapped, OwnedPage;
  }

  lemma CleanPart(mem: map<nat, Page>, p: nat, cap: nat, scap: nat, data: nat, stack: nat)
    requires CleanAreas(mem, p, cap, scap) && data <= cap && stack <= scap
    ensures Clean(mem, p, DATA_PAGE, DATA_PAGE + data / PAGE_SIZE) && Clean(mem, p, PAGES - stack / PAGE_SIZE, PAGES)
  {
    hide Mapped, OwnedPage;
  }

  lemma {:induction false} DataInAreas(mem: map<nat, Page>, mid: map<nat, Page>, after: map<nat, Page>, p: nat,
        cap: nat, scap: nat, was: nat, size: nat)
    requires Caps(cap, scap) && was <= cap && size <= cap && AreasOnly(mem, mid, p, cap, scap)
    requires DataOnly(mid, after, p, was, size)
    ensures AreasOnly(mem, after, p, cap, scap)
  {
    hide Leaf, InRun;
    forall v: nat | v < DATA_PAGE || DATA_PAGE + 2 * (cap / PAGE_SIZE) <= v < PAGES - scap / PAGE_SIZE
      ensures LeafSame(mem, after, p, v)
    {
      RunPlace(v, DATA_PAGE + Min(was, size) / PAGE_SIZE, Max(was, size) / PAGE_SIZE);
      assert LeafSame(mem, mid, p, v) && LeafSame(mid, after, p, v);
    }
  }

  lemma {:induction false} StackInAreas(mem: map<nat, Page>, mid: map<nat, Page>, after: map<nat, Page>, p: nat,
        cap: nat, scap: nat, was: nat, size: nat)
    requires Caps(cap, scap) && was <= scap && size <= scap && AreasOnly(mem, mid, p, cap, scap)
    requires StackOnly(mid, after, p, was, size)
    ensures AreasOnly(mem, after, p, cap, scap)
  {
    hide Leaf, InRun;
    var v0, n := PAGES - Max(was, size) / PAGE_SIZE, Max(was, size) / PAGE_SIZE - Min(was, size) / PAGE_SIZE;
    forall v: nat | v < DATA_PAGE || DATA_PAGE + 2 * (cap / PAGE_SIZE) <= v < PAGES - scap / PAGE_SIZE
      ensures LeafSame(mem, after, p, v)
    {
      if n > 0 { RunPlace(v, v0, n); } else { NoRun(v, v0); }
      assert LeafSame(mem, mid, p, v) && LeafSame(mid, after, p, v);
    }
  }

  lemma NoRun(v: nat, v0: nat)
    ensures !InRun(v, v0, 0)
  {
  }

  lemma SameAreas(mem: map<nat, Page>, p: nat, cap: nat, scap: nat)
    ensures AreasOnly(mem, mem, p, cap, scap)
  {
  }

  lemma {:induction false} ConservedTwice(r: Ram, mid: Ram, after: Ram, tables: set<nat>, p: nat)
    requires Conserved(r, mid, tables, p) && Conserved(mid, after, tables, p)
    ensures Conserved(r, after, tables, p)
  {
    hide Held;
  }

  // Any run of calls within the caps: both areas stay backed, no other page changes, and
  // no frame is lost.
  method Resizes(q: Process, m: PageMemory, calls: seq<Resize>, cap: nat, scap: nat) returns (ok: bool)
    requires m.Valid() && q.pagetable in m.tables && q.Backed(m) && q.vmDataSize <= cap && q.vmStackSize <= scap
    requires Caps(cap, scap) && CleanAreas(m.mem, q.pagetable, cap, scap)
    requires forall c :: c in calls ==> Within(c, cap, scap)
    modifies q, m`mem, m`pagesFree, m.freemap
    ensures m.Valid() && m.Slack() == old(m.Slack())
    ensures !ok ==> m.View().free == {}
    ensures ok ==> q.Backed(m) && CleanAreas(m.mem, q.pagetable, cap, scap)
    ensures ok ==> q.vmDataSize == DataAfter(old(q.vmDataSize), calls) <= cap
                   && q.vmStackSize == StackAfter(old(q.vmStackSize), calls) <= scap
    ensures ok ==> AreasOnly(old(m.mem), m.mem, q.pagetable, cap, scap)
                   && Conserved(old(m.View()), m.View(), m.tables, q.pagetable)
    ensures ok ==> OpenStays(old(m.mem), m.mem, q.pagetable)
  {
    hide Ledger, FreeFrames, Held, CleanAreas, AreasOnly, OwnedRange, OwnedAdded, UserAdded, Conserved, RunOnly,
         KernelKept, KernelSafe, Clean, LeafSame, DataOnly, StackOnly, AccessAdded, ContentStays, OpenStays;
    ghost var r, p := m.View(), q.pagetable;
    SameAreas(m.mem, p, cap, scap);
    Still(r, m.tables, p, 0);
    SameUser(m.mem, p);
    ok := true;
    var i := 0;
    while i < |calls|
      invariant 0 <= i <= |calls| && m.Valid() && m.Slack() == old(m.Slack())
      invariant q.Backed(m) && CleanAreas(m.mem, p, cap, scap)
      invariant q.vmDataSize == DataAfter(old(q.vmDataSize), calls[..i]) <= cap
      invariant q.vmStackSize == StackAfter(old(q.vmStackSize), calls[..i]) <= scap
      invariant AreasOnly(r.mem, m.mem, p, cap, scap) && Conserved(r, m.View(), m.tables, p)
      invariant OpenStays(r.mem, m.mem, p)
    {
      assert calls[i] in calls && calls[..i + 1][..i] == calls[..i];
      ghost var mid, data, stack := m.View(), q.vmDataSize, q.vmStackSize;
      match calls[i] {
        case DataSize(size) =>
          CleanPart(m.mem, p, cap, scap, Rounded(size), 0);
          ok := q.DataSizeSet(m, size);
          if !ok {
            return;
          }
          DataInAreas(r.mem, mid.mem, m.mem, p, cap, scap, data, Rounded(size));
        case StackSize(size) =>
          CleanPart(m.mem, p, cap, scap, 0, size);
          ok := q.StackSizeSet(m, size);
          if !ok {
            return;
          }
          StackInAreas(r.mem, mid.mem, m.mem, p, cap, scap, stack, size);
      }
      CleanStays(mid.mem, m.mem, p, cap, scap);
      ConservedTwice(r, mid, m.View(), m.tables, p);
      OpenTwice(r.mem, mid.mem, m.mem, p);
      i := i + 1;
    }
    assert calls[..i] == calls;
  }

  // ---------------------------------------------------------------- shrinking can do harm

  // Frames as a machine of 2047 megabytes could hand them out.
  const SOME_ROOT := 544
  const SOME_STACK := 1590
  const SOME_DATA := 1600

  // pagetable_init maps all of memory to itself.
  const KERNEL_PAGES := 524_032

  function DataEntry(f: Frame): Entry {
    MapEntry(f, USER_PAGE.(alloc := true))
  }

  // A process after pagetable_init that owns the user pages below `top` and, if it has a
  // stack, the last one; the kernel pages below `low` have been unmapped.
  function EntryOf(v: nat, top: nat, stack: bool, low: nat): Entry
    requires top <= 0xD_0000
  {
    if v < DATA_PAGE then
      if low <= v < KERNEL_PAGES then MapEntry(v, Flags(true, false, true, false)) else BLANK
    else if v < top then DataEntry(SOME_DATA + (v - DATA_PAGE))
    else if stack && v == PAGES - 1 then DataEntry(SOME_STACK)
    else BLANK
  }

  function TableOf(i: nat, top: nat, stack: bool, low: nat): Page
    requires top <= 0xD_0000
  {
    var page: seq<Entry> := seq(ENTRIES, j requires 0 <= j < ENTRIES => EntryOf(ENTRIES * i + j, top, stack, low));
    page
  }

  function RootPage(): Page {
    seq(ENTRIES, i requires 0 <= i < ENTRIES =>
      Entry(true, true, i >= 512, false, false, false, false, false, i < 512, 0, SOME_ROOT + 1 + i))
  }

  function UserTables(top: nat, stack: bool, low: nat): map<nat, Page>
    requires top <= 0xD_0000
  {
    map f: nat | f <= SOME_ROOT + ENTRIES && IsTableFrame(f) :: TableOf(f - SOME_ROOT - 1, top, stack, low)
  }

  predicate IsTableFrame(f: nat) { SOME_ROOT < f <= SOME_ROOT + ENTRIES }

  // What the data area and the stack gave up is free.
  predicate GivenUp(f: nat, top: nat, stack: bool) {
    (SOME_DATA + (top - DATA_PAGE) <= f < SOME_DATA + 0x5_0000) || (!stack && f == SOME_STACK)
  }

  ghost function UserSpace(top: nat, stack: bool, low: nat): Ram
    requires top <= 0xD_0000
  {
    Ram(MAX_FRAMES,
        (set f: nat | f < PAGES && GivenUp(f, top, stack)),
        UserTables(top, stack, low)[SOME_ROOT := RootPage()])
  }

  lemma {:induction false} UserLeaf(top: nat, stack: bool, low: nat, v: nat)
    requires top <= 0xD_0000 && v < PAGES
    ensures Leaf(UserSpace(top, stack, low).mem, SOME_ROOT, v) == EntryOf(v, top, stack, low)
  {
    hide EntryOf;
    var i := v / ENTRIES;
    assert Dir(UserSpace(top, stack, low).mem, SOME_ROOT, i) == RootPage()[i];
    assert PageAt(UserSpace(top, stack, low).mem, SOME_ROOT + 1 + i) == TableOf(i, top, stack, low);
  }

  lemma {:induction false} UserMapped(top: nat, stack: bool, low: nat, v: nat)
    requires DATA_PAGE <= top <= 0xD_0000 && v < PAGES
    ensures var mem := UserSpace(top, stack, low).mem;
            && (OwnedPage(mem, SOME_ROOT, v) <==> DATA_PAGE <= v < top || (stack && v == PAGES - 1))
            && (Mapped(mem, SOME_ROOT, v) <==> OwnedPage(mem, SOME_ROOT, v) || low <= v < KERNEL_PAGES)
  {
    hide UserSpace, Leaf;
    UserLeaf(top, stack, low, v);
  }

  lemma {:induction false} UserKey(top: nat, stack: bool, low: nat, k: Key)
    requires DATA_PAGE <= top <= 0xD_0000 && IsKey(UserSpace(top, stack, low).mem, {SOME_ROOT}, k)
    ensures k.p == SOME_ROOT && FrameOf(UserSpace(top, stack, low).mem, k) == UserFrame(k)
    ensures k.Table? ==> k.i < ENTRIES
    ensures k.Data? ==> DATA_PAGE <= k.v < top || (stack && k.v == PAGES - 1)
  {
    hide Leaf;
    if k.Table? {
      assert Dir(UserSpace(top, stack, low).mem, SOME_ROOT, k.i) == RootPage()[k.i];
    }
    if k.Data? {
      UserMapped(top, stack, low, k.v);
      UserLeaf(top, stack, low, k.v);
    }
  }

  ghost function UserFrame(k: Key): nat {
    match k
    case Root(p) => SOME_ROOT
    case Table(p, i) => SOME_ROOT + 1 + i
    case Data(p, v) => if v == PAGES - 1 then SOME_STACK else if v < DATA_PAGE then 0 else SOME_DATA + (v - DATA_PAGE)
  }

  lemma {:induction false} UserLedger(top: nat, stack: bool, low: nat)
    requires DATA_PAGE <= top <= 0xD_0000
    ensures Ledger(UserSpace(top, stack, low), {SOME_ROOT})
  {
    hide IsKey, FrameOf, Leaf, EntryOf;
    var r := UserSpace(top, stack, low);
    forall k ensures KeyOK(r, {SOME_ROOT}, k) {
      if IsKey(r.mem, {SOME_ROOT}, k) { UserKey(top, stack, low, k); }
    }
    forall k, l ensures Apart(r, {SOME_ROOT}, k, l) {
      if IsKey(r.mem, {SOME_ROOT}, k) && IsKey(r.mem, {SOME_ROOT}, l) {
        UserKey(top, stack, low, k);
        UserKey(top, stack, low, l);
      }
    }
    forall p: nat, v: nat ensures FlagOK(r.mem, {SOME_ROOT}, p, v) {
      if p == SOME_ROOT && v < PAGES { UserFlag(top, stack, low, v); }
    }
  }

  lemma UserFlag(top: nat, stack: bool, low: nat, v: nat)
    requires top <= 0xD_0000 && v < PAGES
    ensures Leaf(UserSpace(top, stack, low).mem, SOME_ROOT, v).avail <= 1
  {
    hide UserSpace, Leaf;
    UserLeaf(top, stack, low, v);
  }

  // What pagetable_free leaves of the process with the whole area, after a run of n pages.
  lemma {:induction false} UserFreed(stack: bool, top: nat, low: nat, v0: nat, n: nat)
    requires DATA_PAGE <= top <= 0xD_0000 && DATA_PAGE <= v0 < PAGES && 0 < n <= PAGES && v0 == top && v0 + n >= PAGES
    requires low == v0 + n - PAGES <= 0x2_0000
    ensures forall v: nat ::
              FreeAt(UserSpace(0xD_0000, stack, 0).mem, UserSpace(top, false, low).mem, SOME_ROOT, v, v0, n)
  {
    hide UserSpace, Leaf, InRun;
    forall v: nat | v < PAGES
      ensures FreeAt(UserSpace(0xD_0000, stack, 0).mem, UserSpace(top, false, low).mem, SOME_ROOT, v, v0, n)
    {
      RunPlace(v, v0, n);
      UserMapped(top, false, low, v);
      UserLeaf(top, false, low, v);
      UserLeaf(0xD_0000, stack, 0, v);
    }
  }

  // Data of 0x50000000 bytes shrinks to 0x30000000 under a stack of one page: the run that
  // is freed takes the stack with it.
  lemma {:induction false} StackLost()
    ensures var r, after, p := UserSpace(0xD_0000, true, 0), UserSpace(0xB_0000, false, 0), SOME_ROOT;
            var was, size, stack := 0x5000_0000, 0x3000_0000, 0x1000;
            && Ledger(r, {p}) && Ledger(after, {p})
            && DataOwned(r.mem, p, was) && StackOwned(r.mem, p, stack)
            && (forall v: nat :: FreeAt(r.mem, after.mem, p, v, 0xB_0000, 0x5_0000))
            && 0xB_0000 == DATA_PAGE + size / PAGE_SIZE && 0x5_0000 == was / PAGE_SIZE
            && !ShrinkHarmless(size, was, stack) && !StackOwned(after.mem, p, stack)
  {
    hide UserSpace, Leaf, Ledger, FreeAt, OwnedPage;
    UserLedger(0xD_0000, true, 0);
    UserLedger(0xB_0000, false, 0);
    UserFreed(true, 0xB_0000, 0, 0xB_0000, 0x5_0000);
    forall v: nat | v < PAGES ensures OwnedPage(UserSpace(0xD_0000, true, 0).mem, SOME_ROOT, v)
                                      <==> DATA_PAGE <= v < 0xD_0000 || v == PAGES - 1 {
      UserMapped(0xD_0000, true, 0, v);
    }
    UserMapped(0xB_0000, false, 0, PAGES - 1);
  }

  // The same data shrinks to 0x40000000: the run goes on at page 0, and 256 megabytes of
  // the kernel's own memory are no longer mapped.
  lemma {:induction false} KernelLost()
    ensures var r, after, p := UserSpace(0xD_0000, false, 0), UserSpace(0xC_0000, false, 0x1_0000), SOME_ROOT;
            var was, size := 0x5000_0000, 0x4000_0000;
            && Ledger(r, {p}) && Ledger(after, {p}) && DataOwned(r.mem, p, was)
            && (forall v: nat :: FreeAt(r.mem, after.mem, p, v, 0xC_0000, 0x5_0000))
            && 0xC_0000 == DATA_PAGE + size / PAGE_SIZE && 0x5_0000 == was / PAGE_SIZE
            && ShrinkHarmless(size, was, 0)
            && (forall v: nat :: v < 0x1_0000 ==> Mapped(r.mem, p, v) && !Mapped(after.mem, p, v))
  {
    hide UserSpace, Leaf, Ledger, FreeAt, OwnedPage, Mapped;
    UserLedger(0xD_0000, false, 0);
    UserLedger(0xC_0000, false, 0x1_0000);
    UserFreed(false, 0xC_0000, 0x1_0000, 0xC_0000, 0x5_0000);
    forall v: nat | v < PAGES
      ensures OwnedPage(UserSpace(0xD_0000, false, 0).mem, SOME_ROOT, v) <==> DATA_PAGE <= v < 0xD_0000
      ensures v < 0x1_0000 ==> Mapped(UserSpace(0xD_0000, false, 0).mem, SOME_ROOT, v)
                               && !Mapped(UserSpace(0xC_0000, false, 0x1_0000).mem, SOME_ROOT, v)
    {
      UserMapped(0xD_0000, false, 0, v);
      UserMapped(0xC_0000, false, 0x1_0000, v);
    }
  }
}

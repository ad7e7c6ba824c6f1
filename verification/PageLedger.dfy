// Two-level page tables in physical memory, read as a flat map from page
// number to entry, and the ledger of who holds which frame.
module PageLedger {

  const ENTRIES := 1024
  const PAGES := 0x10_0000
  // Frame number of the first page of main memory.
  const FIRST_FRAME := 512

  // struct pageentry, a 32-bit word of bit fields.
  datatype Entry = Entry(present: bool, readwrite: bool, user: bool, writethrough: bool, nocache: bool,
                         accessed: bool, dirty: bool, pagesize: bool, globalpage: bool, avail: Avail, addr: Frame)

  type Avail = x: nat | x < 8
  type Frame = x: nat | x < PAGES

  const BLANK: Entry := Entry(false, false, false, false, false, false, false, false, false, 0, 0)

  // A page is 1024 words; as the eleven fields cover the word exactly, any page
  // can be seen as 1024 entries.
  type Page = s: seq<Entry> | |s| == ENTRIES witness seq(ENTRIES, i => BLANK)

  function ZeroPage(): Page { seq(ENTRIES, i => BLANK) }

  // Physical memory: frames that are free to allocate, and page contents.
  datatype Ram = Ram(total: nat, free: set<nat>, mem: map<nat, Page>)

  function PageAt(mem: map<nat, Page>, f: nat): Page {
    if f in mem then mem[f] else ZeroPage()
  }

  function Dir(mem: map<nat, Page>, p: nat, i: nat): Entry
    requires i < ENTRIES
  {
    PageAt(mem, p)[i]
  }

  // The flat view: the entry for virtual page v, not present when there is no
  // second-level table.
  function Leaf(mem: map<nat, Page>, p: nat, v: nat): Entry
    requires v < PAGES
  {
    if Dir(mem, p, v / ENTRIES).present
    then PageAt(mem, Dir(mem, p, v / ENTRIES).addr)[v % ENTRIES]
    else BLANK
  }

  // ---------------------------------------------------------------- who holds a frame

  datatype Key = Root(p: nat) | Table(p: nat, i: nat) | Data(p: nat, v: nat)

  predicate Mapped(mem: map<nat, Page>, p: nat, v: nat) {
    v < PAGES && Leaf(mem, p, v).present
  }

  predicate OwnedPage(mem: map<nat, Page>, p: nat, v: nat) {
    Mapped(mem, p, v) && Leaf(mem, p, v).avail != 0
  }

  ghost predicate IsKey(mem: map<nat, Page>, tables: set<nat>, k: Key) {
    && k.p in tables
    && (k.Table? ==> k.i < ENTRIES && Dir(mem, k.p, k.i).present)
    && (k.Data? ==> OwnedPage(mem, k.p, k.v))
  }

  ghost function FrameOf(mem: map<nat, Page>, k: Key): nat {
    match k
    case Root(p) => p
    case Table(p, i) => if i < ENTRIES then Dir(mem, p, i).addr else 0
    case Data(p, v) => if v < PAGES then Leaf(mem, p, v).addr else 0
  }

  predicate InRange(r: Ram, f: nat) {
    FIRST_FRAME <= f < FIRST_FRAME + r.total
  }

  ghost predicate KeyOK(r: Ram, tables: set<nat>, k: Key) {
    IsKey(r.mem, tables, k) ==> InRange(r, FrameOf(r.mem, k)) && FrameOf(r.mem, k) !in r.free
  }

  ghost predicate Apart(r: Ram, tables: set<nat>, k: Key, l: Key) {
    IsKey(r.mem, tables, k) && IsKey(r.mem, tables, l) && k != l ==> FrameOf(r.mem, k) != FrameOf(r.mem, l)
  }

  // Only bit 0 of the avail field is ever used.
  ghost predicate FlagOK(mem: map<nat, Page>, tables: set<nat>, p: nat, v: nat) {
    p in tables && Mapped(mem, p, v) ==> Leaf(mem, p, v).avail <= 1
  }

  ghost predicate FlagsKept(mem: map<nat, Page>, tables: set<nat>) {
    forall p: nat, v: nat :: FlagOK(mem, tables, p, v)
  }

  // Every root, every second-level table and every owned page of the live
  // tables has a frame of its own, and none of these frames is free.
  ghost predicate Ledger(r: Ram, tables: set<nat>) {
    && r.total + FIRST_FRAME <= PAGES && (forall f :: f in r.free ==> InRange(r, f))
    && (forall k :: KeyOK(r, tables, k))
    && (forall k, l :: Apart(r, tables, k, l))
    && FlagsKept(r.mem, tables)
  }

  // All frames held by table p.
  ghost function Held(mem: map<nat, Page>, p: nat): set<nat> {
    {p} + TableFrames(mem, p, ENTRIES) + DataFrames(mem, p, PAGES)
  }

  ghost function TableFrames(mem: map<nat, Page>, p: nat, n: nat): set<nat>
    requires n <= ENTRIES
  {
    set i: nat | i < n && Dir(mem, p, i).present :: Dir(mem, p, i).addr
  }

  ghost function DataFrames(mem: map<nat, Page>, p: nat, n: nat): set<nat>
    requires n <= PAGES
  {
    set v: nat | v < n && OwnedPage(mem, p, v) :: Leaf(mem, p, v).addr
  }

  lemma {:induction false} HeldIsKeyed(mem: map<nat, Page>, p: nat, f: nat) returns (k: Key)
    requires f in Held(mem, p)
    ensures k.p == p && IsKey(mem, {p}, k) && FrameOf(mem, k) == f
  {
    if f == p {
      k := Root(p);
    } else if f in TableFrames(mem, p, ENTRIES) {
      var i: nat :| i < ENTRIES && Dir(mem, p, i).present && Dir(mem, p, i).addr == f;
      k := Table(p, i);
    } else {
      var v: nat :| v < PAGES && OwnedPage(mem, p, v) && Leaf(mem, p, v).addr == f;
      k := Data(p, v);
    }
  }

  lemma KeyIsHeld(mem: map<nat, Page>, k: Key)
    requires IsKey(mem, {k.p}, k)
    ensures FrameOf(mem, k) in Held(mem, k.p)
  {
  }

  // ---------------------------------------------------------------- comparing memories

  ghost predicate LeafSame(mem: map<nat, Page>, after: map<nat, Page>, p: nat, v: nat) {
    v < PAGES ==> Leaf(after, p, v) == Leaf(mem, p, v)
  }

  ghost predicate DirSame(mem: map<nat, Page>, after: map<nat, Page>, p: nat, i: nat) {
    i < ENTRIES ==> Dir(after, p, i) == Dir(mem, p, i)
  }

  // All tables translate as before, except page v of table p.
  ghost predicate Elsewhere(mem: map<nat, Page>, after: map<nat, Page>, tables: set<nat>, p: nat, v: nat) {
    forall q: nat, w: nat :: q in tables && (q, w) != (p, v) ==> LeafSame(mem, after, q, w)
  }

  ghost predicate SameLeaves(mem: map<nat, Page>, after: map<nat, Page>, tables: set<nat>) {
    forall q: nat, w: nat :: q in tables ==> LeafSame(mem, after, q, w)
  }

  ghost predicate SameDirs(mem: map<nat, Page>, after: map<nat, Page>, tables: set<nat>) {
    forall q: nat, i: nat :: q in tables ==> DirSame(mem, after, q, i)
  }

  // A frame that was allocated and is not, or no longer, part of a live table.
  ghost predicate Loose(r: Ram, tables: set<nat>, f: nat) {
    InRange(r, f) && f !in r.free && forall k :: NotAt(r.mem, tables, k, f)
  }

  ghost predicate NotAt(mem: map<nat, Page>, tables: set<nat>, k: Key, f: nat) {
    IsKey(mem, tables, k) ==> FrameOf(mem, k) != f
  }

  // Key k names the same frame in both, or is a key in neither.
  ghost predicate KeySame(mem: map<nat, Page>, after: map<nat, Page>, tables: set<nat>, tables': set<nat>, k: Key) {
    && (IsKey(mem, tables, k) <==> IsKey(after, tables', k))
    && (IsKey(mem, tables, k) ==> FrameOf(after, k) == FrameOf(mem, k))
  }

  // Every key but k0 names what it did; k0 names f, or nothing.
  ghost predicate KeysBut(mem: map<nat, Page>, after: map<nat, Page>, tables: set<nat>, tables': set<nat>, k0: Key) {
    forall k :: k != k0 ==> KeySame(mem, after, tables, tables', k)
  }

  // Key k0 now names the loose frame f, or nothing: the ledger still holds,
  // the frame k0 named before is loose, and other loose frames stay so.
  lemma {:induction false} Rekeyed(r: Ram, after: Ram, tables: set<nat>, tables': set<nat>, k0: Key, f: nat)
    requires Ledger(r, tables) && after.total == r.total && after.free == r.free
    requires KeysBut(r.mem, after.mem, tables, tables', k0) && FlagsKept(after.mem, tables')
    requires IsKey(after.mem, tables', k0) ==> FrameOf(after.mem, k0) == f && Loose(r, tables, f)
    ensures Ledger(after, tables')
    ensures forall g :: Loose(r, tables, g) && (IsKey(after.mem, tables', k0) ==> g != f) ==> Loose(after, tables', g)
    ensures IsKey(r.mem, tables, k0) && (IsKey(after.mem, tables', k0) ==> f != FrameOf(r.mem, k0)) ==>
              Loose(after, tables', FrameOf(r.mem, k0))
  {
    hide IsKey, FrameOf, FlagOK;
    forall k ensures KeyOK(after, tables', k) {
      assert KeyOK(r, tables, k);
      assert k != k0 ==> KeySame(r.mem, after.mem, tables, tables', k);
    }
    forall k, l ensures Apart(after, tables', k, l) {
      assert Apart(r, tables, k, l);
      if IsKey(after.mem, tables', k0) {
        assert NotAt(r.mem, tables, k, f) && NotAt(r.mem, tables, l, f);
      }
      assert k != k0 ==> KeySame(r.mem, after.mem, tables, tables', k);
      assert l != k0 ==> KeySame(r.mem, after.mem, tables, tables', l);
    }
    forall g | Loose(r, tables, g) && (IsKey(after.mem, tables', k0) ==> g != f) ensures Loose(after, tables', g) {
      forall k ensures NotAt(after.mem, tables', k, g) {
        assert NotAt(r.mem, tables, k, g);
        assert k != k0 ==> KeySame(r.mem, after.mem, tables, tables', k);
      }
    }
    if IsKey(r.mem, tables, k0) && (IsKey(after.mem, tables', k0) ==> f != FrameOf(r.mem, k0)) {
      var g := FrameOf(r.mem, k0);
      assert KeyOK(r, tables, k0);
      forall k ensures NotAt(after.mem, tables', k, g) {
        assert Apart(r, tables, k, k0);
        assert k != k0 ==> KeySame(r.mem, after.mem, tables, tables', k);
      }
    }
  }

  // ---------------------------------------------------------------- steps

  // Allocating frame f and filling it touches no table.
  lemma {:induction false} TakeFrame(r: Ram, tables: set<nat>, f: nat, page: Page)
    requires Ledger(r, tables) && f in r.free
    ensures var after := Ram(r.total, r.free - {f}, r.mem[f := page]);
            && Ledger(after, tables) && Loose(after, tables, f)
            && SameLeaves(r.mem, after.mem, tables) && SameDirs(r.mem, after.mem, tables)
            && (forall g :: Loose(r, tables, g) ==> Loose(after, tables, g))
  {
    hide FlagsKept;
    var after := Ram(r.total, r.free - {f}, r.mem[f := page]);
    WriteLoose(r, tables, f, page);
    SameKeys(r.mem, after.mem, tables);
    forall k ensures KeyOK(after, tables, k) && NotAt(after.mem, tables, k, f) {
      assert KeyOK(r, tables, k);
      assert KeySame(r.mem, after.mem, tables, tables, k);
    }
    forall k, l ensures Apart(after, tables, k, l) {
      assert Apart(r, tables, k, l);
      assert KeySame(r.mem, after.mem, tables, tables, k) && KeySame(r.mem, after.mem, tables, tables, l);
    }
    forall g | Loose(r, tables, g) ensures Loose(after, tables, g) {
      forall k ensures NotAt(after.mem, tables, k, g) {
        assert NotAt(r.mem, tables, k, g);
        assert KeySame(r.mem, after.mem, tables, tables, k);
      }
    }
  }

  // A frame no key names can be written without a trace in any table.
  lemma {:induction false} WriteLoose(r: Ram, tables: set<nat>, f: nat, page: Page)
    requires Ledger(r, tables) && (f in r.free || Loose(r, tables, f))
    ensures SameLeaves(r.mem, r.mem[f := page], tables) && SameDirs(r.mem, r.mem[f := page], tables)
    ensures FlagsKept(r.mem[f := page], tables)
  {
    var after := r.mem[f := page];
    forall q: nat, i: nat | q in tables ensures DirSame(r.mem, after, q, i) {
      assert KeyOK(r, tables, Root(q)) && (f in r.free || NotAt(r.mem, tables, Root(q), f));
    }
    forall q: nat, v: nat | q in tables ensures LeafSame(r.mem, after, q, v) {
      if v < PAGES {
        var k := Table(q, v / ENTRIES);
        assert DirSame(r.mem, after, q, v / ENTRIES);
        assert KeyOK(r, tables, k) && (f in r.free || NotAt(r.mem, tables, k, f));
      }
    }
    forall q: nat, v: nat ensures FlagOK(after, tables, q, v) {
      assert q in tables ==> LeafSame(r.mem, after, q, v);
      assert FlagOK(r.mem, tables, q, v);
    }
  }

  lemma {:induction false} SameKeys(mem: map<nat, Page>, after: map<nat, Page>, tables: set<nat>)
    requires SameLeaves(mem, after, tables) && SameDirs(mem, after, tables)
    ensures forall k :: KeySame(mem, after, tables, tables, k)
  {
    forall k ensures KeySame(mem, after, tables, tables, k) {
      assert k.Table? && k.p in tables ==> DirSame(mem, after, k.p, k.i);
      assert k.Data? && k.p in tables ==> LeafSame(mem, after, k.p, k.v);
    }
  }

  // A loose frame goes back to the free set.
  lemma {:induction false} GiveFrame(r: Ram, tables: set<nat>, f: nat)
    requires Ledger(r, tables) && Loose(r, tables, f)
    ensures Ledger(r.(free := r.free + {f}), tables)
    ensures forall g :: Loose(r, tables, g) && g != f ==> Loose(r.(free := r.free + {f}), tables, g)
  {
    var after := r.(free := r.free + {f});
    forall k ensures KeyOK(after, tables, k) {
      assert KeyOK(r, tables, k) && NotAt(r.mem, tables, k, f);
    }
    forall k, l ensures Apart(after, tables, k, l) {
      assert Apart(r, tables, k, l);
    }
  }

  // A loose zero page becomes a table that maps nothing.
  lemma {:induction false} AddRoot(r: Ram, tables: set<nat>, p: nat)
    requires Ledger(r, tables) && Loose(r, tables, p) && PageAt(r.mem, p) == ZeroPage()
    ensures Ledger(r, tables + {p}) && p !in tables && Held(r.mem, p) == {p}
    ensures forall v: nat :: !Mapped(r.mem, p, v)
  {
    assert NotAt(r.mem, tables, Root(p), p);
    forall k | k != Root(p) ensures KeySame(r.mem, r.mem, tables, tables + {p}, k) {
    }
    forall q: nat, v: nat ensures FlagOK(r.mem, tables + {p}, q, v) {
      assert FlagOK(r.mem, tables, q, v);
    }
    Rekeyed(r, r, tables, tables + {p}, Root(p), p);
  }

  // A loose zero page becomes the second-level table for directory slot i.
  lemma {:induction false} AddTable(r: Ram, tables: set<nat>, p: nat, i: nat, q: nat, e: Entry)
    requires Ledger(r, tables) && p in tables && i < ENTRIES && !Dir(r.mem, p, i).present
    requires Loose(r, tables, q) && PageAt(r.mem, q) == ZeroPage() && e.present && e.addr == q
    ensures var after := r.(mem := r.mem[p := PageAt(r.mem, p)[i := e]]);
            && Ledger(after, tables) && SameLeaves(r.mem, after.mem, tables) && Dir(after.mem, p, i) == e
            && (forall g :: Loose(r, tables, g) && g != q ==> Loose(after, tables, g))
            && KeysBut(r.mem, after.mem, tables, tables, Table(p, i)) && !IsKey(r.mem, tables, Table(p, i))
            && (forall x: nat, j: nat :: x in tables && (x, j) != (p, i) ==> DirSame(r.mem, after.mem, x, j))
  {
    var after := r.(mem := r.mem[p := PageAt(r.mem, p)[i := e]]);
    forall x: nat, j: nat | x in tables && (x, j) != (p, i) ensures DirSame(r.mem, after.mem, x, j) {
    }
    forall x: nat, v: nat | x in tables ensures LeafSame(r.mem, after.mem, x, v) {
      if v < PAGES {
        assert (x, v / ENTRIES) != (p, i) ==> DirSame(r.mem, after.mem, x, v / ENTRIES);
        assert Apart(r, tables, Root(p), Table(x, v / ENTRIES));
        assert NotAt(r.mem, tables, Root(p), q);
      }
    }
    forall k | k != Table(p, i) ensures KeySame(r.mem, after.mem, tables, tables, k) {
      assert k.Table? && k.p in tables ==> DirSame(r.mem, after.mem, k.p, k.i);
      assert k.Data? && k.p in tables ==> LeafSame(r.mem, after.mem, k.p, k.v);
    }
    forall x: nat, v: nat ensures FlagOK(after.mem, tables, x, v) {
      assert x in tables ==> LeafSame(r.mem, after.mem, x, v);
      assert FlagOK(r.mem, tables, x, v);
    }
    assert FlagsKept(after.mem, tables);
    Rekeyed(r, after, tables, tables, Table(p, i), q);
  }

  // Entry v of table p is overwritten, with a loose frame if it is to own one.
  ghost function WithLeaf(mem: map<nat, Page>, p: nat, v: nat, e: Entry): map<nat, Page>
    requires v < PAGES
  {
    var q := Dir(mem, p, v / ENTRIES).addr;
    mem[q := PageAt(mem, q)[v % ENTRIES := e]]
  }

  lemma {:induction false} SetLeaf(r: Ram, tables: set<nat>, p: nat, v: nat, e: Entry)
    requires Ledger(r, tables) && p in tables && v < PAGES && Dir(r.mem, p, v / ENTRIES).present
    requires e.present ==> e.avail <= 1 && (e.avail != 0 ==> Loose(r, tables, e.addr))
    ensures var after := r.(mem := WithLeaf(r.mem, p, v, e));
            && Ledger(after, tables) && Elsewhere(r.mem, after.mem, tables, p, v) && Leaf(after.mem, p, v) == e
            && SameDirs(r.mem, after.mem, tables)
            && KeysBut(r.mem, after.mem, tables, tables, Data(p, v))
            && (forall g :: Loose(r, tables, g) && !(e.present && e.avail != 0 && g == e.addr) ==>
                              Loose(after, tables, g))
            && (OwnedPage(r.mem, p, v) ==> Loose(after, tables, Leaf(r.mem, p, v).addr))
  {
    var q := Dir(r.mem, p, v / ENTRIES).addr;
    var after := r.(mem := WithLeaf(r.mem, p, v, e));
    forall x: nat, j: nat | x in tables ensures DirSame(r.mem, after.mem, x, j) {
      assert Apart(r, tables, Root(x), Table(p, v / ENTRIES));
    }
    assert DirSame(r.mem, after.mem, p, v / ENTRIES);
    forall x: nat, w: nat | x in tables && (x, w) != (p, v) ensures LeafSame(r.mem, after.mem, x, w) {
      if w < PAGES {
        assert DirSame(r.mem, after.mem, x, w / ENTRIES);
        assert Apart(r, tables, Table(x, w / ENTRIES), Table(p, v / ENTRIES));
        assert w / ENTRIES == v / ENTRIES && w % ENTRIES == v % ENTRIES ==> w == v;
      }
    }
    forall k | k != Data(p, v) ensures KeySame(r.mem, after.mem, tables, tables, k) {
      assert k.Table? && k.p in tables ==> DirSame(r.mem, after.mem, k.p, k.i);
      assert k.Data? && k.p in tables ==> LeafSame(r.mem, after.mem, k.p, k.v);
    }
    forall x: nat, w: nat ensures FlagOK(after.mem, tables, x, w) {
      assert x in tables && (x, w) != (p, v) ==> LeafSame(r.mem, after.mem, x, w);
      assert FlagOK(r.mem, tables, x, w);
    }
    assert FlagsKept(after.mem, tables);
    if OwnedPage(r.mem, p, v) && e.present && e.avail != 0 {
      assert NotAt(r.mem, tables, Data(p, v), e.addr);
    }
    Rekeyed(r, after, tables, tables, Data(p, v), e.addr);
  }

  // ---------------------------------------------------------------- what a table holds

  ghost function FramesAt(mem: map<nat, Page>, tables: set<nat>, k: Key): set<nat> {
    if IsKey(mem, tables, k) then {FrameOf(mem, k)} else {}
  }

  lemma {:induction false} HeldChange(r: Ram, after: Ram, tables: set<nat>, k0: Key)
    requires Ledger(r, tables) && KeysBut(r.mem, after.mem, tables, tables, k0) && k0.p in tables && !k0.Root?
    ensures Held(after.mem, k0.p) == Held(r.mem, k0.p) - FramesAt(r.mem, tables, k0) + FramesAt(after.mem, tables, k0)
    ensures forall p :: p in tables && p != k0.p ==> Held(after.mem, p) == Held(r.mem, p)
  {
    hide Held, FrameOf;
    forall p | p in tables
      ensures Held(after.mem, p) == if p == k0.p
                then Held(r.mem, p) - FramesAt(r.mem, tables, k0) + FramesAt(after.mem, tables, k0)
                else Held(r.mem, p)
    {
      forall f | f in Held(after.mem, p) ensures f in Held(r.mem, p) - FramesAt(r.mem, tables, k0)
                                                  || (p == k0.p && f in FramesAt(after.mem, tables, k0))
      {
        var k := HeldIsKeyed(after.mem, p, f);
        if k != k0 {
          assert KeySame(r.mem, after.mem, tables, tables, k);
          KeyIsHeld(r.mem, k);
          assert Apart(r, tables, k, k0);
        }
      }
      forall f | f in Held(r.mem, p)
        ensures f in Held(after.mem, p) || (p == k0.p && f in FramesAt(r.mem, tables, k0))
      {
        var k := HeldIsKeyed(r.mem, p, f);
        if k != k0 {
          assert KeySame(r.mem, after.mem, tables, tables, k);
          KeyIsHeld(after.mem, k);
        }
      }
      if p == k0.p && IsKey(after.mem, tables, k0) {
        KeyIsHeld(after.mem, k0);
      }
      if p != k0.p && IsKey(r.mem, tables, k0) {
        HeldApart(r, tables, p, k0);
      }
    }
  }

  // Another table does not hold the frame of k.
  lemma {:induction false} HeldApart(r: Ram, tables: set<nat>, p: nat, k: Key)
    requires Ledger(r, tables) && p in tables && IsKey(r.mem, tables, k) && k.p != p
    ensures forall f :: f in Held(r.mem, p) ==> f != FrameOf(r.mem, k)
  {
    hide Held, FrameOf;
    forall f | f in Held(r.mem, p) ensures f != FrameOf(r.mem, k) {
      var l := HeldIsKeyed(r.mem, p, f);
      assert Apart(r, tables, k, l);
    }
  }

  lemma {:induction false} HeldSame(mem: map<nat, Page>, after: map<nat, Page>, tables: set<nat>)
    requires SameLeaves(mem, after, tables) && SameDirs(mem, after, tables)
    ensures forall p :: p in tables ==> Held(after, p) == Held(mem, p)
  {
    forall p | p in tables ensures Held(after, p) == Held(mem, p) {
      forall i: nat | i < ENTRIES ensures Dir(after, p, i) == Dir(mem, p, i) {
        assert DirSame(mem, after, p, i);
      }
      forall v: nat | v < PAGES ensures Leaf(after, p, v) == Leaf(mem, p, v) {
        assert LeafSame(mem, after, p, v);
      }
      assert TableFrames(after, p, ENTRIES) == TableFrames(mem, p, ENTRIES);
      assert DataFrames(after, p, PAGES) == DataFrames(mem, p, PAGES);
    }
  }

  // No table holds a free frame.
  lemma {:induction false} HeldNotFree(r: Ram, tables: set<nat>, p: nat)
    requires Ledger(r, tables) && p in tables
    ensures Held(r.mem, p) !! r.free
  {
    forall f | f in Held(r.mem, p) ensures f !in r.free {
      var k := HeldIsKeyed(r.mem, p, f);
      assert KeyOK(r, tables, k);
    }
  }
}

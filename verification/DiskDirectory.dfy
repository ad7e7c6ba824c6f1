// Directories of diskfs.c: a directory file is an array of items, and behaves
// as a finite map from names to inode numbers.
module DiskDirectory {
  import opened Words
  import opened DiskBlocks
  import opened DiskState
  import opened DiskVolume
  import opened DiskFile
  import opened FileSystem

  const MAX_ITEMS := MAX_BLOCKS * ITEMS_PER_BLOCK

  ghost function ItemAt(fs: Fs, n: nat, k: nat): (r: Item)
    requires k < MAX_ITEMS
    ensures |r.chars| == NAME_MAX
  {
    ItemIn(Content(fs, n, k / ITEMS_PER_BLOCK), k % ITEMS_PER_BLOCK)
  }

  ghost predicate Holds(fs: Fs, n: nat, k: nat) {
    k < MAX_ITEMS && ItemAt(fs, n, k).kind != ITEM_BLANK
  }

  ghost function NameAt(fs: Fs, n: nat, k: nat): Bytes
    requires k < MAX_ITEMS
  {
    var r := ItemAt(fs, n, k);
    if r.nameLength <= NAME_MAX then r.chars[..r.nameLength] else []
  }

  // Items in use lie within the size, have a name that fits, and name an inode in use.
  ghost predicate ItemOK(fs: Fs, n: nat, size: nat, k: nat) {
    Holds(fs, n, k) ==>
      ITEM_SIZE * (k + 1) <= size && ItemAt(fs, n, k).nameLength <= NAME_MAX && InUse(fs, ItemAt(fs, n, k).inumber)
  }

  ghost predicate NamesDiffer(fs: Fs, n: nat, k: nat, l: nat) {
    Holds(fs, n, k) && Holds(fs, n, l) && k != l ==> NameAt(fs, n, k) != NameAt(fs, n, l)
  }

  ghost predicate DirOK(fs: Fs, n: nat, size: nat) {
    && size <= MAX_FILE && size % ITEM_SIZE == 0
    && (forall k: nat :: ItemOK(fs, n, size, k))
    && (forall k: nat, l: nat :: NamesDiffer(fs, n, k, l))
  }

  // ---------------------------------------------------------------- the map

  ghost predicate Named(fs: Fs, n: nat, k: nat, name: Bytes) {
    Holds(fs, n, k) && NameAt(fs, n, k) == name
  }

  ghost function Names(fs: Fs, n: nat): set<Bytes> {
    set k: nat | k < MAX_ITEMS && Holds(fs, n, k) :: NameAt(fs, n, k)
  }

  ghost function PositionOf(fs: Fs, n: nat, name: Bytes): (k: nat)
    requires name in Names(fs, n)
    ensures Named(fs, n, k, name)
  {
    var k: nat :| k < MAX_ITEMS && Holds(fs, n, k) && NameAt(fs, n, k) == name;
    k
  }

  // What a name is bound to: the inode and whether it is a file or a directory.
  ghost function BindingAt(fs: Fs, n: nat, k: nat): (Word, Byte)
    requires k < MAX_ITEMS
  {
    (ItemAt(fs, n, k).inumber, ItemAt(fs, n, k).kind)
  }

  ghost function DirMap(fs: Fs, n: nat): map<Bytes, (Word, Byte)> {
    map name | name in Names(fs, n) :: BindingAt(fs, n, PositionOf(fs, n, name))
  }

  lemma {:induction false} MapHas(fs: Fs, n: nat, size: nat, k: nat, name: Bytes)
    requires DirOK(fs, n, size) && Named(fs, n, k, name)
    ensures name in DirMap(fs, n) && DirMap(fs, n)[name] == BindingAt(fs, n, k)
    ensures PositionOf(fs, n, name) == k
  {
    assert name in Names(fs, n);
    assert NamesDiffer(fs, n, k, PositionOf(fs, n, name));
  }

  lemma {:induction false} MapLacks(fs: Fs, n: nat, name: Bytes)
    ensures name in DirMap(fs, n) ==> exists k: nat :: Named(fs, n, k, name)
  {
    if name in DirMap(fs, n) {
      var k := PositionOf(fs, n, name);
      assert Named(fs, n, k, name);
    }
  }

  // The two directories have the same items in use, but for position p.
  ghost predicate KeepsItem(fs: Fs, after: Fs, n: nat, k: nat) {
    && (Holds(fs, n, k) <==> Holds(after, n, k))
    && (Holds(fs, n, k) ==> ItemAt(after, n, k) == ItemAt(fs, n, k))
  }

  ghost predicate StaysInUse(fs: Fs, after: Fs) {
    forall m :: InUse(fs, m) ==> InUse(after, m)
  }

  // Filling a blank position binds the name.
  lemma {:induction false} BindName(fs: Fs, after: Fs, n: nat, size: nat, size': nat, p: nat, name: Bytes)
    requires DirOK(fs, n, size) && name !in DirMap(fs, n) && p < MAX_ITEMS && !Holds(fs, n, p)
    requires forall k: nat :: k != p ==> KeepsItem(fs, after, n, k)
    requires Named(after, n, p, name) && ItemAt(after, n, p).nameLength <= NAME_MAX
    requires StaysInUse(fs, after) && InUse(after, ItemAt(after, n, p).inumber)
    requires size <= size' <= MAX_FILE && size' % ITEM_SIZE == 0 && ITEM_SIZE * (p + 1) <= size'
    ensures DirOK(after, n, size')
    ensures DirMap(after, n) == DirMap(fs, n)[name := BindingAt(after, n, p)]
  {
    hide ItemAt, DirMap, Names;
    forall k: nat ensures ItemOK(after, n, size', k) {
      assert k != p ==> KeepsItem(fs, after, n, k);
      assert ItemOK(fs, n, size, k);
    }
    forall k: nat, l: nat ensures NamesDiffer(after, n, k, l) {
      BoundDiffers(fs, after, n, size, p, name, k, l);
    }
    MapHas(after, n, size', p, name);
    forall nm | nm in DirMap(fs, n)
      ensures nm in DirMap(after, n) && DirMap(after, n)[nm] == DirMap(fs, n)[nm] && nm != name
    {
      BindKeeps(fs, after, n, size, size', p, nm);
    }
    forall nm | nm in DirMap(after, n) && nm != name ensures nm in DirMap(fs, n) {
      BindOnly(fs, after, n, size, size', p, nm, name);
    }
    assert DirMap(after, n).Keys == DirMap(fs, n).Keys + {name};
  }

  lemma {:induction false} BoundDiffers(fs: Fs, after: Fs, n: nat, size: nat, p: nat, name: Bytes, k: nat, l: nat)
    requires DirOK(fs, n, size) && name !in DirMap(fs, n)
    requires forall k: nat :: k != p ==> KeepsItem(fs, after, n, k)
    requires Named(after, n, p, name)
    ensures NamesDiffer(after, n, k, l)
  {
    hide ItemAt, DirMap;
    assert NamesDiffer(fs, n, k, l);
    assert k != p ==> KeepsItem(fs, after, n, k);
    assert l != p ==> KeepsItem(fs, after, n, l);
    if Holds(fs, n, k) && NameAt(fs, n, k) == name {
      MapHas(fs, n, size, k, name);
    }
    if Holds(fs, n, l) && NameAt(fs, n, l) == name {
      MapHas(fs, n, size, l, name);
    }
  }

  lemma {:induction false} BindKeeps(fs: Fs, after: Fs, n: nat, size: nat, size': nat, p: nat, nm: Bytes)
    requires DirOK(fs, n, size) && DirOK(after, n, size') && nm in DirMap(fs, n) && !Holds(fs, n, p)
    requires forall k: nat :: k != p ==> KeepsItem(fs, after, n, k)
    ensures nm in DirMap(after, n) && DirMap(after, n)[nm] == DirMap(fs, n)[nm]
  {
    hide ItemAt;
    var k := PositionOf(fs, n, nm);
    assert KeepsItem(fs, after, n, k);
    MapHas(after, n, size', k, nm);
  }

  lemma {:induction false} BindOnly(fs: Fs, after: Fs, n: nat, size: nat, size': nat, p: nat, nm: Bytes, name: Bytes)
    requires DirOK(fs, n, size) && DirOK(after, n, size') && nm in DirMap(after, n) && nm != name
    requires Named(after, n, p, name) && forall k: nat :: k != p ==> KeepsItem(fs, after, n, k)
    ensures nm in DirMap(fs, n)
  {
    hide ItemAt;
    var k := PositionOf(after, n, nm);
    assert KeepsItem(fs, after, n, k);
    MapHas(fs, n, size, k, nm);
  }

  // Unchanged contents are an unchanged directory, at any larger size.
  lemma {:induction false} SameDirectory(fs: Fs, after: Fs, n: nat, size: nat, size': nat)
    requires DirOK(fs, n, size) && StaysInUse(fs, after) && size <= size' <= MAX_FILE && size' % ITEM_SIZE == 0
    requires forall c: nat :: SameContent(fs, after, n, c)
    ensures DirOK(after, n, size') && DirMap(after, n) == DirMap(fs, n) && FillsBlank(fs, after, n, false)
    ensures forall k: nat :: KeepsItem(fs, after, n, k)
  {
    hide ItemIn, Content;
    forall k: nat ensures KeepsItem(fs, after, n, k) {
      assert SameContent(fs, after, n, k / ITEMS_PER_BLOCK);
    }
    SameItems(fs, after, n, size, size');
    NothingFilled(fs, after, n);
  }

  lemma NothingFilled(fs: Fs, after: Fs, n: nat)
    requires forall k: nat :: KeepsItem(fs, after, n, k)
    ensures FillsBlank(fs, after, n, false)
  {
    hide FirstBlank, ItemAt, Holds;
    forall k: nat ensures Holds(after, n, k) <==> Holds(fs, n, k) {
      assert KeepsItem(fs, after, n, k);
    }
  }

  lemma {:induction false} SameItems(fs: Fs, after: Fs, n: nat, size: nat, size': nat)
    requires DirOK(fs, n, size) && StaysInUse(fs, after) && size <= size' <= MAX_FILE && size' % ITEM_SIZE == 0
    requires forall k: nat :: KeepsItem(fs, after, n, k)
    ensures DirOK(after, n, size') && DirMap(after, n) == DirMap(fs, n)
  {
    hide ItemAt, DirMap, Names;
    forall k: nat ensures ItemOK(after, n, size', k) {
      assert KeepsItem(fs, after, n, k);
      assert ItemOK(fs, n, size, k);
    }
    forall k: nat, l: nat ensures NamesDiffer(after, n, k, l) {
      assert KeepsItem(fs, after, n, k) && KeepsItem(fs, after, n, l);
      assert NamesDiffer(fs, n, k, l);
    }
    forall nm | nm in DirMap(fs, n) ensures nm in DirMap(after, n) && DirMap(after, n)[nm] == DirMap(fs, n)[nm] {
      SameBinding(fs, after, n, size, size', nm);
    }
    forall nm | nm in DirMap(after, n) ensures nm in DirMap(fs, n) {
      forall k: nat ensures KeepsItem(after, fs, n, k) {
        assert KeepsItem(fs, after, n, k);
      }
      SameBinding(after, fs, n, size', size, nm);
    }
    assert DirMap(after, n).Keys == DirMap(fs, n).Keys;
  }

  lemma {:induction false} SameBinding(fs: Fs, after: Fs, n: nat, size: nat, size': nat, nm: Bytes)
    requires DirOK(fs, n, size) && DirOK(after, n, size') && nm in DirMap(fs, n)
    requires forall k: nat :: KeepsItem(fs, after, n, k)
    ensures nm in DirMap(after, n) && DirMap(after, n)[nm] == DirMap(fs, n)[nm]
  {
    hide ItemAt;
    var k := PositionOf(fs, n, nm);
    assert KeepsItem(fs, after, n, k);
    MapHas(after, n, size', k, nm);
  }

  // ---------------------------------------------------------------- items and blocks

  ghost predicate NewItem(b: Block, c: Block, j: nat, inumber: Word, kind: Byte, name: Bytes)
    requires j < ITEMS_PER_BLOCK
  {
    && ItemIn(c, j).inumber == inumber && ItemIn(c, j).kind == kind && NameIs(ItemIn(c, j), name)
    && forall l :: 0 <= l < ITEMS_PER_BLOCK && l != j ==> ItemIn(c, l) == ItemIn(b, l)
  }

  lemma {:induction false} PutIsNew(b: Block, j: nat, inumber: Word, kind: Byte, name: Bytes)
    requires j < ITEMS_PER_BLOCK && |name| <= NAME_MAX
    ensures NewItem(b, PutItem(b, j, inumber, kind, name), j, inumber, kind, name)
  {
    hide PutItem, ItemIn, NameIs;
    forall l | 0 <= l < ITEMS_PER_BLOCK
      ensures l != j ==> ItemIn(PutItem(b, j, inumber, kind, name), l) == ItemIn(b, l)
    {
      ItemLaw(b, j, inumber, kind, name, l);
    }
    ItemLaw(b, j, inumber, kind, name, j);
  }

  // Position k is item k % 128 of block k / 128.
  lemma ItemPlace(i: nat, j: nat)
    requires i < MAX_BLOCKS && j < ITEMS_PER_BLOCK
    ensures var k := ITEMS_PER_BLOCK * i + j;
            k < MAX_ITEMS && k / ITEMS_PER_BLOCK == i && k % ITEMS_PER_BLOCK == j
  {
  }

  lemma {:induction false} PutKeeps(fs: Fs, after: Fs, n: nat, i: nat, j: nat, c: Block, inumber: Word, kind: Byte,
        name: Bytes)
    requires i < MAX_BLOCKS && j < ITEMS_PER_BLOCK && kind != ITEM_BLANK
    requires NewItem(Content(fs, n, i), c, j, inumber, kind, name)
    requires Content(after, n, i) == c && Elsewhere(fs, after, n, i)
    ensures var p := ITEMS_PER_BLOCK * i + j;
            && Named(after, n, p, name) && BindingAt(after, n, p) == (inumber, kind)
            && ItemAt(after, n, p).nameLength <= NAME_MAX
            && (forall k: nat :: k != p ==> KeepsItem(fs, after, n, k))
  {
    hide ItemIn, Content;
    ItemPlace(i, j);
    forall k: nat | k != ITEMS_PER_BLOCK * i + j ensures KeepsItem(fs, after, n, k) {
      if k / ITEMS_PER_BLOCK != i {
        assert SameContent(fs, after, n, k / ITEMS_PER_BLOCK);
      }
    }
  }

  // The same, for a block that held nothing and is overwritten whole.
  lemma {:induction false} AppendKeeps(fs: Fs, after: Fs, n: nat, i: nat, c: Block, inumber: Word, kind: Byte,
        name: Bytes)
    requires i < MAX_BLOCKS && kind != ITEM_BLANK
    requires NewItem(Zeros(), c, 0, inumber, kind, name)
    requires Content(after, n, i) == c && Elsewhere(fs, after, n, i)
    requires forall k: nat :: ITEMS_PER_BLOCK * i <= k ==> !Holds(fs, n, k)
    ensures var p := ITEMS_PER_BLOCK * i;
            && Named(after, n, p, name) && BindingAt(after, n, p) == (inumber, kind)
            && ItemAt(after, n, p).nameLength <= NAME_MAX
            && (forall k: nat :: k != p ==> KeepsItem(fs, after, n, k))
  {
    hide ItemIn, Content;
    ItemPlace(i, 0);
    forall k: nat | k != ITEMS_PER_BLOCK * i ensures KeepsItem(fs, after, n, k) {
      if k / ITEMS_PER_BLOCK != i {
        assert SameContent(fs, after, n, k / ITEMS_PER_BLOCK);
      } else {
        ZeroItem(k % ITEMS_PER_BLOCK);
        assert !Holds(fs, n, k);
      }
    }
  }

  lemma ZeroItem(j: nat)
    requires j < ITEMS_PER_BLOCK
    ensures ItemIn(Zeros(), j).kind == ITEM_BLANK
  {
  }

  // ---------------------------------------------------------------- lookup

  function BlocksOf(size: nat): nat {
    size / BLOCK_SIZE + if size % BLOCK_SIZE != 0 then 1 else 0
  }

  // No item in use lies past the blocks that are scanned.
  lemma {:induction false} PastTheEnd(fs: Fs, n: nat, size: nat)
    requires DirOK(fs, n, size)
    ensures BlocksOf(size) <= MAX_BLOCKS
    ensures forall k: nat :: ITEMS_PER_BLOCK * BlocksOf(size) <= k ==> !Holds(fs, n, k)
  {
    forall k: nat | ITEMS_PER_BLOCK * BlocksOf(size) <= k ensures !Holds(fs, n, k) {
      assert ItemOK(fs, n, size, k);
    }
  }

  // diskfs_dirent_lookup: exactly the map's answer.
  method Lookup(d: Dirent, name: Bytes) returns (t: Dirent?)
    requires d.Synced() && DirOK(d.volume.View(), d.inumber, d.size)
    ensures t == null <==> name !in DirMap(d.volume.View(), d.inumber)
    ensures t != null ==>
              && fresh(t) && t.Synced() && t.volume == d.volume
              && t.inumber == DirMap(d.volume.View(), d.inumber)[name].0
              && t.isdir == (DirMap(d.volume.View(), d.inumber)[name].1 == ITEM_DIR)
              && t.disk == d.volume.View().inodes[t.inumber]
  {
    hide Owned, ViewOf, Content, DirMap, Names, ItemAt, ItemIn;
    ghost var fs := d.volume.View();
    var nblocks := BlocksOf(d.size);
    PastTheEnd(fs, d.inumber, d.size);
    var i := 0;
    while i < nblocks
      invariant 0 <= i <= nblocks && unchanged(d) && unchanged(d.volume)
      invariant forall k: nat :: k < ITEMS_PER_BLOCK * i ==> !Named(fs, d.inumber, k, name)
    {
      var b, r := d.InodeRead(i);
      var j := 0;
      while j < ITEMS_PER_BLOCK
        invariant 0 <= j <= ITEMS_PER_BLOCK && unchanged(d) && unchanged(d.volume)
        invariant forall k: nat :: k < ITEMS_PER_BLOCK * i + j ==> !Named(fs, d.inumber, k, name)
      {
        ghost var k := ITEMS_PER_BLOCK * i + j;
        ReadItem(fs, d.inumber, d.size, i, j, name);
        if ItemIn(b, j).kind != ITEM_BLANK && NameIs(ItemIn(b, j), name) {
          MapHas(fs, d.inumber, d.size, k, name);
          var inumber := ItemIn(b, j).inumber;
          t := new Dirent(d.volume, inumber, ItemIn(b, j).kind);
          return;
        }
        j := j + 1;
      }
      i := i + 1;
    }
    MapLacks(fs, d.inumber, name);
    t := null;
  }

  lemma {:induction false} ReadItem(fs: Fs, n: nat, size: nat, i: nat, j: nat, name: Bytes)
    requires DirOK(fs, n, size) && i < MAX_BLOCKS && j < ITEMS_PER_BLOCK
    ensures var r := ItemIn(Content(fs, n, i), j);
            var k := ITEMS_PER_BLOCK * i + j;
            && k < MAX_ITEMS && r == ItemAt(fs, n, k) && (Holds(fs, n, k) <==> r.kind != ITEM_BLANK)
            && (Holds(fs, n, k) ==> InUse(fs, r.inumber))
            && (r.kind != ITEM_BLANK && NameIs(r, name) <==> Named(fs, n, k, name))
  {
    hide Content, ItemIn;
    ItemPlace(i, j);
    assert ItemOK(fs, n, size, ITEMS_PER_BLOCK * i + j);
  }

  // ---------------------------------------------------------------- adding a name

  ghost predicate FullBelow(fs: Fs, n: nat, k: nat) {
    forall l: nat :: l < k ==> Holds(fs, n, l)
  }

  lemma FullMore(fs: Fs, n: nat, k: nat)
    requires FullBelow(fs, n, k) && Holds(fs, n, k)
    ensures FullBelow(fs, n, k + 1) && k < MAX_ITEMS
  {
    hide ItemAt;
  }

  // Where the scan for a blank item stops.
  ghost function BlankFrom(fs: Fs, n: nat, k: nat): (p: nat)
    requires k <= MAX_ITEMS && FullBelow(fs, n, k)
    ensures k <= p <= MAX_ITEMS && !Holds(fs, n, p) && FullBelow(fs, n, p)
    decreases MAX_ITEMS - k
  {
    if Holds(fs, n, k) then FullMore(fs, n, k); BlankFrom(fs, n, k + 1) else k
  }

  ghost function FirstBlank(fs: Fs, n: nat): nat {
    BlankFrom(fs, n, 0)
  }

  lemma FirstBlankIs(fs: Fs, n: nat, p: nat)
    requires !Holds(fs, n, p) && forall l: nat :: l < p ==> Holds(fs, n, l)
    ensures FirstBlank(fs, n) == p
  {
  }

  // What a caller could ask beforehand: enough free blocks for the block that
  // the new item goes to.
  ghost predicate Room(fs: Fs, n: nat)
    requires Shaped(fs) && InUse(fs, n) && FirstBlank(fs, n) < MAX_ITEMS
  {
    |Free(fs)| >= Needed(fs, n, FirstBlank(fs, n) / ITEMS_PER_BLOCK)
  }

  // The state after an attempt to bind name.
  ghost predicate BindAttempt(fs: Fs, after: Fs, n: nat, size: nat, name: Bytes, inumber: Word, kind: Byte, ok: bool) {
    && Owned(after) && InUse(after, n) && OtherFiles(fs, after, n) && DirOK(after, n, size)
    && DirMap(after, n) == (if ok then DirMap(fs, n)[name := (inumber, kind)] else DirMap(fs, n))
    && FillsBlank(fs, after, n, ok) && (NoLeak(fs) ==> NoLeak(after))
  }

  // The name went to the first blank item, if it went anywhere.
  ghost predicate FillsBlank(fs: Fs, after: Fs, n: nat, ok: bool) {
    forall k: nat :: Holds(after, n, k) <==> Holds(fs, n, k) || (ok && k == FirstBlank(fs, n))
  }

  lemma {:induction false} OthersOnce(fs: Fs, after: Fs, n: nat, block: nat, data: Block, ok: bool)
    requires Shaped(fs) && InUse(fs, n) && block < MAX_BLOCKS && BlockWritten(fs, after, n, block, data, ok)
    ensures OtherFiles(fs, after, n)
  {
    WroteNothing(fs, n, 0, []);
    OthersStay(fs, fs, after, n, block, data, ok);
  }

  lemma InUseStays(fs: Fs, after: Fs, n: nat)
    requires OtherInodes(fs, after, n) && InUse(after, n)
    ensures StaysInUse(fs, after)
  {
  }

  // Item j of block i was blank and the block is written back with it filled.
  lemma {:induction false} FillAttempt(fs: Fs, after: Fs, n: nat, size: nat, size': nat, i: nat, j: nat, data: Block,
        inumber: Word, kind: Byte, name: Bytes, ok: bool)
    requires Shaped(fs) && InUse(fs, n) && InUse(fs, inumber) && DirOK(fs, n, size) && name !in DirMap(fs, n)
    requires i < MAX_BLOCKS && j < ITEMS_PER_BLOCK && |name| <= NAME_MAX && kind != ITEM_BLANK
    requires data == PutItem(Content(fs, n, i), j, inumber, kind, name)
    requires FirstBlank(fs, n) == ITEMS_PER_BLOCK * i + j && BlockWritten(fs, after, n, i, data, ok)
    requires size' == Max(size, BLOCK_SIZE * i + ITEM_SIZE * (j + 1))
    ensures BindAttempt(fs, after, n, size', name, inumber, kind, ok)
  {
    hide PutItem, Content, Holds, NameAt, DirMap, PtrOK, Apart, NewItem, KeepsItem, NamesDiffer, ItemOK, Elsewhere;
    OthersOnce(fs, after, n, i, data, ok);
    InUseStays(fs, after, n);
    if ok {
      PutIsNew(Content(fs, n, i), j, inumber, kind, name);
      PutKeeps(fs, after, n, i, j, data, inumber, kind, name);
      BindName(fs, after, n, size, size', ITEMS_PER_BLOCK * i + j, name);
      NamedHolds(fs, after, n, ITEMS_PER_BLOCK * i + j, name);
    } else {
      SameDirectory(fs, after, n, size, size');
    }
  }

  lemma NamedHolds(fs: Fs, after: Fs, n: nat, p: nat, name: Bytes)
    requires Named(after, n, p, name) && p == FirstBlank(fs, n)
    requires forall k: nat :: k != p ==> KeepsItem(fs, after, n, k)
    ensures FillsBlank(fs, after, n, true)
  {
    hide FirstBlank, NameAt, ItemAt, Holds;
    forall k: nat ensures Holds(after, n, k) <==> Holds(fs, n, k) || k == p {
      assert k != p ==> KeepsItem(fs, after, n, k);
    }
  }

  lemma AppendSizes(size: nat, i: nat)
    requires size == BLOCK_SIZE * i && i < MAX_BLOCKS
    ensures ITEMS_PER_BLOCK * i < MAX_ITEMS && size + ITEM_SIZE <= MAX_FILE && (size + ITEM_SIZE) % ITEM_SIZE == 0
    ensures ITEM_SIZE * (ITEMS_PER_BLOCK * i + 1) <= size + ITEM_SIZE
  {
  }

  lemma DirSize(fs: Fs, n: nat, size: nat)
    requires DirOK(fs, n, size)
    ensures size <= MAX_FILE && size % ITEM_SIZE == 0
  {
  }

  lemma {:induction false} AppendBinds(fs: Fs, after: Fs, n: nat, size: nat, i: nat, data: Block, inumber: Word,
        kind: Byte, name: Bytes)
    requires DirOK(fs, n, size) && StaysInUse(fs, after) && InUse(after, inumber) && name !in DirMap(fs, n)
    requires i < MAX_BLOCKS && |name| <= NAME_MAX && kind != ITEM_BLANK && i == BlocksOf(size)
    requires size == BLOCK_SIZE * i && data == PutItem(Zeros(), 0, inumber, kind, name)
    requires Content(after, n, i) == data && Elsewhere(fs, after, n, i)
    requires forall k: nat :: k < ITEMS_PER_BLOCK * i ==> Holds(fs, n, k)
    ensures DirOK(after, n, size + ITEM_SIZE) && DirMap(after, n) == DirMap(fs, n)[name := (inumber, kind)]
    ensures FillsBlank(fs, after, n, true)
  {
    hide PutItem, Content, Holds, NameAt, DirMap, NewItem, KeepsItem, NamesDiffer, ItemOK, Elsewhere, DirOK, Named,
         StaysInUse, FirstBlank, FillsBlank, BlocksOf;
    DirSize(fs, n, size);
    AppendSizes(size, i);
    PastTheEnd(fs, n, size);
    PutIsNew(Zeros(), 0, inumber, kind, name);
    AppendKeeps(fs, after, n, i, data, inumber, kind, name);
    BindName(fs, after, n, size, size + ITEM_SIZE, ITEMS_PER_BLOCK * i, name);
    FirstBlankIs(fs, n, ITEMS_PER_BLOCK * i);
    NamedHolds(fs, after, n, ITEMS_PER_BLOCK * i, name);
  }

  // Every scanned item was in use: the name goes into a block of its own.
  lemma {:induction false} AppendAttempt(fs: Fs, after: Fs, n: nat, size: nat, i: nat, data: Block, inumber: Word,
        kind: Byte, name: Bytes, ok: bool)
    requires Shaped(fs) && InUse(fs, n) && InUse(fs, inumber) && DirOK(fs, n, size) && name !in DirMap(fs, n)
    requires i < MAX_BLOCKS && |name| <= NAME_MAX && kind != ITEM_BLANK && i == BlocksOf(size)
    requires data == PutItem(Zeros(), 0, inumber, kind, name) && BlockWritten(fs, after, n, i, data, ok)
    requires forall k: nat :: k < ITEMS_PER_BLOCK * i ==> Holds(fs, n, k)
    ensures BindAttempt(fs, after, n, size + ITEM_SIZE, name, inumber, kind, ok)
  {
    hide PutItem, Content, Holds, NameAt, DirMap, PtrOK, Apart, NewItem, KeepsItem, NamesDiffer, ItemOK, Elsewhere,
         FirstBlank, FillsBlank, BlocksOf, Named;
    OthersOnce(fs, after, n, i, data, ok);
    InUseStays(fs, after, n);
    FullBlocks(fs, n, size, i);
    AppendSizes(size, i);
    if ok {
      AppendBinds(fs, after, n, size, i, data, inumber, kind, name);
    } else {
      SameDirectory(fs, after, n, size, size + ITEM_SIZE);
    }
  }

  lemma {:induction false} FullBlocks(fs: Fs, n: nat, size: nat, i: nat)
    requires DirOK(fs, n, size) && i == BlocksOf(size)
    requires forall k: nat :: k < ITEMS_PER_BLOCK * i ==> Holds(fs, n, k)
    ensures size == BLOCK_SIZE * i
  {
    if i > 0 {
      assert ItemOK(fs, n, size, ITEMS_PER_BLOCK * i - 1);
    }
  }

  // Saving the inode afterwards changes none of it.
  lemma {:induction false} SavedAttempt(fs: Fs, mid: Fs, n: nat, node: Inode, size: nat, name: Bytes, inumber: Word,
        kind: Byte, ok: bool)
    requires BindAttempt(fs, mid, n, size, name, inumber, kind, ok) && WellFormed(node) && node.inuse != 0
    requires node.direct == mid.inodes[n].direct && node.indirect == mid.inodes[n].indirect
    ensures BindAttempt(fs, mid.(inodes := mid.inodes[n := node]), n, size, name, inumber, kind, ok)
  {
    hide Content, Holds, NameAt, DirMap, PtrOK, Apart;
    var after := mid.(inodes := mid.inodes[n := node]);
    SaveSamePointers(mid, n, node);
    InUseStays(mid, after, n);
    SameDirectory(mid, after, n, size, size);
    forall m: nat, c: nat | m != n ensures SameContent(fs, after, m, c) {
      assert SameContent(fs, mid, m, c) && SameContent(mid, after, m, c);
    }
  }

  // The directory reaches just past the item that the name goes to.
  ghost predicate Grown(fs: Fs, n: nat, size: nat, size': nat) {
    size' == Max(size, ITEM_SIZE * (FirstBlank(fs, n) + 1))
  }

  // diskfs_dirent_add. It reports nothing: the name is bound exactly when
  // there was room for the block.
  method Add(d: Dirent, name: Bytes, kind: Byte, inumber: Word)
    requires d.Synced() && DirOK(d.volume.View(), d.inumber, d.size)
    requires |name| <= NAME_MAX && kind != ITEM_BLANK && InUse(d.volume.View(), inumber)
    requires name !in DirMap(d.volume.View(), d.inumber) && FirstBlank(d.volume.View(), d.inumber) < MAX_ITEMS
    modifies d, d.volume
    ensures d.Synced()
    ensures BindAttempt(old(d.volume.View()), d.volume.View(), d.inumber, d.size, name, inumber, kind,
                        Room(old(d.volume.View()), d.inumber))
    ensures Grown(old(d.volume.View()), d.inumber, old(d.size), d.size)
    ensures old(d.Saved()) || d.size != old(d.size) ==> d.Saved()
  {
    hide Owned, ViewOf, Content, DirMap, Names, ItemAt, ItemIn, PutItem, BindAttempt;
    ghost var fs := d.volume.View();
    ghost var n := d.inumber;
    var nblocks := BlocksOf(d.size);
    PastTheEnd(fs, n, d.size);
    var i := 0;
    while i < nblocks
      invariant 0 <= i <= nblocks && unchanged(d) && unchanged(d.volume)
      invariant forall k: nat :: k < ITEMS_PER_BLOCK * i ==> Holds(fs, n, k)
    {
      var b, r := d.InodeRead(i);
      var j := 0;
      while j < ITEMS_PER_BLOCK
        invariant 0 <= j <= ITEMS_PER_BLOCK && unchanged(d) && unchanged(d.volume)
        invariant forall k: nat :: k < ITEMS_PER_BLOCK * i + j ==> Holds(fs, n, k)
      {
        ReadItem(fs, n, d.size, i, j, name);
        if ItemIn(b, j).kind == ITEM_BLANK {
          FirstBlankIs(fs, n, ITEMS_PER_BLOCK * i + j);
          Fill(d, PutItem(b, j, inumber, kind, name), i, j, name, kind, inumber);
          return;
        }
        j := j + 1;
      }
      i := i + 1;
    }
    FirstBlankIs(fs, n, ITEMS_PER_BLOCK * i);
    Append(d, PutItem(Zeros(), 0, inumber, kind, name), i, name, kind, inumber);
  }

  // The first branch: item j of block i has been filled in b.
  method Fill(d: Dirent, b: Block, i: nat, j: nat, ghost name: Bytes, ghost kind: Byte, ghost inumber: Word)
    requires d.Synced() && DirOK(d.volume.View(), d.inumber, d.size) && i < MAX_BLOCKS && j < ITEMS_PER_BLOCK
    requires |name| <= NAME_MAX && kind != ITEM_BLANK && InUse(d.volume.View(), inumber)
    requires name !in DirMap(d.volume.View(), d.inumber)
    requires FirstBlank(d.volume.View(), d.inumber) == ITEMS_PER_BLOCK * i + j < MAX_ITEMS
    requires b == PutItem(Content(d.volume.View(), d.inumber, i), j, inumber, kind, name)
    modifies d, d.volume
    ensures d.Synced()
    ensures BindAttempt(old(d.volume.View()), d.volume.View(), d.inumber, d.size, name, inumber, kind,
                        Room(old(d.volume.View()), d.inumber))
    ensures Grown(old(d.volume.View()), d.inumber, old(d.size), d.size)
    ensures old(d.Saved()) || d.size != old(d.size) ==> d.Saved()
  {
    hide PtrOK, Apart, ViewOf, Content, DirMap, Names, Holds, PutItem, Elsewhere, SameContents, Free, Needed, ItemOK,
         NamesDiffer;
    ghost var fs := d.volume.View();
    ghost var n := d.inumber;
    ghost var size0 := d.size;
    ItemPlace(i, j);
    var w := d.InodeWrite(b, i);
    ghost var mid := d.volume.View();
    var newsize := i * BLOCK_SIZE + (j + 1) * ITEM_SIZE;
    FillAttempt(fs, mid, n, size0, Max(size0, newsize), i, j, b, inumber, kind, name, w == BLOCK_SIZE);
    if newsize > d.size {
      d.Resize(newsize);
      SavedAttempt(fs, mid, n, d.disk, newsize, name, inumber, kind, w == BLOCK_SIZE);
      d.volume.InodeSave(d.inumber, d.disk);
    }
  }

  method Append(d: Dirent, b: Block, i: nat, ghost name: Bytes, ghost kind: Byte, ghost inumber: Word)
    requires d.Synced() && DirOK(d.volume.View(), d.inumber, d.size) && i == BlocksOf(d.size)
    requires |name| <= NAME_MAX && kind != ITEM_BLANK && InUse(d.volume.View(), inumber)
    requires name !in DirMap(d.volume.View(), d.inumber)
    requires FirstBlank(d.volume.View(), d.inumber) == ITEMS_PER_BLOCK * i < MAX_ITEMS
    requires b == PutItem(Zeros(), 0, inumber, kind, name)
    modifies d, d.volume
    ensures d.Synced()
    ensures BindAttempt(old(d.volume.View()), d.volume.View(), d.inumber, d.size, name, inumber, kind,
                        Room(old(d.volume.View()), d.inumber))
    ensures Grown(old(d.volume.View()), d.inumber, old(d.size), d.size)
    ensures old(d.Saved()) || d.size != old(d.size) ==> d.Saved()
  {
    hide PtrOK, Apart, ViewOf, Content, DirMap, Names, Holds, PutItem, Elsewhere, SameContents, Free, Needed, ItemOK,
         NamesDiffer;
    ghost var fs := d.volume.View();
    ghost var n := d.inumber;
    ghost var size0 := d.size;
    ItemPlace(i, 0);
    FullBlocks(fs, n, size0, i);
    d.Resize(d.size + ITEM_SIZE);
    var w := d.InodeWrite(b, i);
    ghost var mid := d.volume.View();
    AppendAttempt(fs, mid, n, size0, i, b, inumber, kind, name, w == BLOCK_SIZE);
    SavedAttempt(fs, mid, n, d.disk, d.size, name, inumber, kind, w == BLOCK_SIZE);
    d.volume.InodeSave(d.inumber, d.disk);
  }

  // ---------------------------------------------------------------- creating

  // diskfs_dirent_create_file_or_dir. With an absent name and a free inode it
  // returns the new inode, whether or not the name could be bound.
  method Create(d: Dirent, name: Bytes, kind: Byte) returns (t: Dirent?)
    requires d.Synced() && DirOK(d.volume.View(), d.inumber, d.size) && kind != ITEM_BLANK
    requires FirstBlank(d.volume.View(), d.inumber) < MAX_ITEMS
    modifies d, d.volume
    ensures d.Synced()
    ensures t == null <==> |name| > NAME_MAX || name in old(DirMap(d.volume.View(), d.inumber))
                           || forall m :: 0 <= m < |old(d.volume.View()).inodes| ==> InUse(old(d.volume.View()), m)
    ensures t == null ==> d.volume.View() == old(d.volume.View()) && d.size == old(d.size)
    ensures old(d.Saved()) || d.size != old(d.size) ==> d.Saved()
    ensures t != null ==>
              && Grown(old(d.volume.View()), d.inumber, old(d.size), d.size)
              && fresh(t) && t.Synced() && t.volume == d.volume && t.size == 0 && t.isdir == (kind == ITEM_DIR)
              && !InUse(old(d.volume.View()), t.inumber)
              && (forall m :: 0 <= m < t.inumber ==> InUse(old(d.volume.View()), m))
              && Created(old(d.volume.View()), d.volume.View(), d.inumber, d.size, name, t.inumber, kind,
                         Room(old(d.volume.View()), d.inumber))
  {
    hide PtrOK, Apart, ViewOf, Content, DirMap, Names, Holds, PutItem, Elsewhere, SameContents, Free, Needed, ItemOK,
         NamesDiffer, BindAttempt, OtherFiles;
    ghost var fs := d.volume.View();
    if |name| > NAME_MAX {
      return null;
    }
    t := Lookup(d, name);
    if t != null {
      t.Close();
      return null;
    }
    var inumber := d.volume.InumberAlloc();
    if inumber == 0 {
      return null;
    }
    var inode := BlankInode().(inuse := 1);
    AddInode(fs, inumber, inode);
    d.volume.InodeSave(inumber, inode);
    ghost var mid := d.volume.View();
    NewInodeKeeps(fs, mid, d.inumber, d.size, inumber);
    Add(d, name, kind, inumber);
    CreatedAfter(fs, mid, d.volume.View(), d.inumber, d.size, name, inumber, kind, Room(fs, d.inumber));
    t := new Dirent(d.volume, inumber, kind);
  }

  // The directory opened again from disk: it is in order, and the new name is found in it
  // exactly when there was room for it.
  method CreateAndReopen(d: Dirent, name: Bytes, kind: Byte) returns (t: Dirent?, e: Dirent, u: Dirent?)
    requires d.Synced() && d.Saved() && DirOK(d.volume.View(), d.inumber, d.size) && kind != ITEM_BLANK
    requires FirstBlank(d.volume.View(), d.inumber) < MAX_ITEMS
    modifies d, d.volume
    ensures fresh(e) && e.Synced() && e.volume == d.volume && e.inumber == d.inumber && e.size == d.size
    ensures DirOK(e.volume.View(), e.inumber, e.size)
    ensures t != null ==> (u != null <==> Room(old(d.volume.View()), d.inumber))
    ensures t != null && u != null ==> u.inumber == t.inumber && u.isdir == t.isdir && u.size == 0
  {
    hide PtrOK, Apart, ViewOf, DirOK, DirMap, Content, Holds, FirstBlank, SameContent, ZeroTail, FillsBlank;
    ghost var fs := d.volume.View();
    t := Create(d, name, kind);
    e := new Dirent(d.volume, d.inumber, ITEM_DIR);
    if t != null {
      CreatedOK(fs, d.volume.View(), d.inumber, d.size, name, t.inumber, kind, Room(fs, d.inumber));
    }
    u := Lookup(e, name);
  }

  // The new inode is empty, the name is bound if there was room, and nothing
  // else on the volume changed.
  ghost predicate Created(fs: Fs, after: Fs, n: nat, size: nat, name: Bytes, m: nat, kind: Byte, ok: bool) {
    && DirOK(after, n, size) && m < MODULUS
    && DirMap(after, n) == (if ok then DirMap(fs, n)[name := (m, kind)] else DirMap(fs, n))
    && FillsBlank(fs, after, n, ok) && (NoLeak(fs) ==> NoLeak(after))
    && m < |after.inodes| && after.inodes[m] == BlankInode().(inuse := 1) && ZeroTail(after, m, 0)
    && |after.inodes| == |fs.inodes|
    && (forall x :: 0 <= x < |fs.inodes| && x != n && x != m ==> after.inodes[x] == fs.inodes[x])
    && (forall x: nat, c: nat :: x != n && x != m ==> SameContent(fs, after, x, c))
  }

  // Taking a new inode leaves the directory and the room for a name alone.
  lemma {:induction false} NewInodeKeeps(fs: Fs, mid: Fs, n: nat, size: nat, m: nat)
    requires Owned(fs) && InUse(fs, n) && DirOK(fs, n, size) && FirstBlank(fs, n) < MAX_ITEMS
    requires m < |fs.inodes| && !InUse(fs, m) && mid == fs.(inodes := fs.inodes[m := BlankInode().(inuse := 1)])
    ensures Owned(mid) && SameContents(fs, mid) && InUse(mid, m) && DirOK(mid, n, size)
    ensures DirMap(mid, n) == DirMap(fs, n) && FirstBlank(mid, n) == FirstBlank(fs, n)
    ensures Room(mid, n) == Room(fs, n)
  {
    hide Content, NameAt, DirMap, PtrOK, Apart, Holds;
    AddInode(fs, m, BlankInode().(inuse := 1));
    SameDirectory(fs, mid, n, size, size);
    SameFirstBlank(fs, mid, n);
  }

  lemma {:induction false} SameFirstBlank(fs: Fs, mid: Fs, n: nat)
    requires SameContents(fs, mid)
    ensures FirstBlank(mid, n) == FirstBlank(fs, n)
  {
    hide Content, ItemIn;
    var p := FirstBlank(fs, n);
    SameHolds(fs, mid, n);
    FirstBlankIs(mid, n, p);
  }

  lemma {:induction false} SameHolds(fs: Fs, mid: Fs, n: nat)
    requires SameContents(fs, mid)
    ensures forall k: nat :: Holds(mid, n, k) <==> Holds(fs, n, k)
  {
    hide Content, ItemIn;
    forall k: nat ensures Holds(mid, n, k) <==> Holds(fs, n, k) {
      assert SameContent(fs, mid, n, k / ITEMS_PER_BLOCK);
    }
  }

  lemma {:induction false} EmptyInode(fs: Fs, m: nat)
    requires Owned(fs) && m < |fs.inodes| && fs.inodes[m] == BlankInode().(inuse := 1)
    ensures forall c: nat :: c < MAX_BLOCKS ==> Content(fs, m, c) == Zeros()
  {
    forall c: nat | c < MAX_BLOCKS ensures Content(fs, m, c) == Zeros() {
      if c >= DIRECT_POINTERS {
        ZeroPointers(c - DIRECT_POINTERS);
      }
    }
  }

  lemma {:induction false} CreatedAfter(fs: Fs, mid: Fs, after: Fs, n: nat, size: nat, name: Bytes, m: Word,
        kind: Byte, ok: bool)
    requires Owned(fs) && InUse(fs, n) && m < |fs.inodes| && !InUse(fs, m)
    requires mid == fs.(inodes := fs.inodes[m := BlankInode().(inuse := 1)]) && Owned(mid)
    requires SameContents(fs, mid) && DirMap(mid, n) == DirMap(fs, n) && (NoLeak(fs) ==> NoLeak(mid))
    requires BindAttempt(mid, after, n, size, name, m, kind, ok)
    ensures Created(fs, after, n, size, name, m, kind, ok)
  {
    hide Content, DirMap, PtrOK, Apart, DirOK, Holds, FirstBlank;
    SameHolds(fs, mid, n);
    SameFirstBlank(fs, mid, n);
    EmptyInode(mid, m);
    forall x: nat, c: nat | x != n && x != m ensures SameContent(fs, after, x, c) {
      assert SameContent(fs, mid, x, c) && SameContent(mid, after, x, c);
    }
    forall pos: nat | pos < MAX_FILE ensures ByteAt(after, m, pos) == 0 {
      assert SameContent(mid, after, m, pos / BLOCK_SIZE);
    }
  }

  // A formatted volume has the one name ".", bound to the root itself.
  lemma {:induction false} RootDirectory(fs: Fs)
    requires Owned(fs) && |fs.inodes| > 0 && fs.inodes[0] == RootInode()
    requires Content(fs, 0, 0) == PutItem(Zeros(), 0, 0, ITEM_DIR, [0x2e])
    ensures DirOK(fs, 0, ITEM_SIZE) && DirMap(fs, 0) == map[[0x2e] := (0, ITEM_DIR)]
  {
    hide ItemIn, PutItem, PtrOK, Apart, DirMap;
    var dot: Bytes := [0x2e];
    RootHoles(fs);
    PutIsNew(Zeros(), 0, 0, ITEM_DIR, dot);
    RootItems(fs);
    RootItem(fs);
    forall k: nat ensures ItemOK(fs, 0, ITEM_SIZE, k) {
    }
    forall k: nat, l: nat ensures NamesDiffer(fs, 0, k, l) {
    }
    MapHas(fs, 0, ITEM_SIZE, 0, dot);
    forall nm | nm in DirMap(fs, 0) ensures nm == dot {
      MapLacks(fs, 0, nm);
    }
    assert DirMap(fs, 0).Keys == {dot};
  }

  // Its one item is the first.
  lemma {:induction false} RootItems(fs: Fs)
    requires Owned(fs) && |fs.inodes| > 0 && fs.inodes[0] == RootInode()
    requires Content(fs, 0, 0) == PutItem(Zeros(), 0, 0, ITEM_DIR, [0x2e])
    ensures forall k: nat :: Holds(fs, 0, k) <==> k == 0
  {
    hide ItemIn, PutItem, PtrOK, Apart, DirMap;
    RootHoles(fs);
    PutIsNew(Zeros(), 0, 0, ITEM_DIR, [0x2e]);
    forall k: nat ensures Holds(fs, 0, k) <==> k == 0 {
      if k < MAX_ITEMS {
        ZeroItem(k % ITEMS_PER_BLOCK);
      }
    }
  }

  lemma {:induction false} RootHoles(fs: Fs)
    requires Owned(fs) && |fs.inodes| > 0 && fs.inodes[0] == RootInode()
    ensures forall c: nat :: 0 < c < MAX_BLOCKS ==> Content(fs, 0, c) == Zeros()
  {
    forall c: nat | 0 < c < MAX_BLOCKS ensures Content(fs, 0, c) == Zeros() {
      if c >= DIRECT_POINTERS {
        ZeroPointers(c - DIRECT_POINTERS);
      }
    }
  }

  lemma {:induction false} RootItem(fs: Fs)
    requires Content(fs, 0, 0) == PutItem(Zeros(), 0, 0, ITEM_DIR, [0x2e])
    ensures Named(fs, 0, 0, [0x2e]) && BindingAt(fs, 0, 0) == (0, ITEM_DIR) && ItemAt(fs, 0, 0).inumber == 0
        && ItemAt(fs, 0, 0).nameLength == 1
  {
    hide ItemIn, PutItem, Content;
    PutIsNew(Zeros(), 0, 0, ITEM_DIR, [0x2e]);
    ItemPlace(0, 0);
  }

  // ---------------------------------------------------------------- a name that is lost

  // The root directory of a volume with one block for files: its first k items are in
  // use, and the names that are not "." have two bytes.
  ghost predicate Filled(fs: Fs, k: nat) {
    && Owned(fs) && InUse(fs, 0) && |fs.data| == 2 && (forall p: nat :: Holds(fs, 0, p) <==> p < k)
    && (forall nm :: nm in DirMap(fs, 0) ==> |nm| == 1 || (|nm| == 2 && nm[1] < k))
    && |fs.inodes| == FORMAT_INODE_BLOCKS * INODES_PER_BLOCK && |Used(fs)| == k
  }

  ghost function Used(fs: Fs): set<nat> {
    UsedBelow(fs, |fs.inodes|)
  }

  ghost function UsedBelow(fs: Fs, n: nat): set<nat> {
    set m: nat | m < n && InUse(fs, m)
  }

  lemma {:induction false} OneBlock(fs: Fs, k: nat)
    requires Filled(fs, k) && 0 < k <= ITEMS_PER_BLOCK
    ensures FirstBlank(fs, 0) == k && (Room(fs, 0) <==> k < ITEMS_PER_BLOCK)
    ensures exists m :: 0 <= m < |fs.inodes| && !InUse(fs, m)
  {
    hide FirstBlank, Used, DirMap, Owned, Holds, Needed, Free;
    FirstBlankIs(fs, 0, k);
    OnlyBlock(fs);
    FullInodes(fs);
  }

  lemma {:induction false} OnlyBlock(fs: Fs)
    requires Owned(fs) && InUse(fs, 0) && |fs.data| == 2 && Holds(fs, 0, 0)
    ensures Needed(fs, 0, 0) == 0 && Needed(fs, 0, 1) == 1 && Free(fs) == {}
  {
    ZeroItem(0);
    assert PtrOK(fs, Direct(0, 0)) && PtrOK(fs, Direct(0, 1));
    assert Apart(fs, Direct(0, 0), Direct(0, 1));
  }

  lemma {:induction false} FullInodes(fs: Fs)
    requires |Used(fs)| < |fs.inodes|
    ensures exists m :: 0 <= m < |fs.inodes| && !InUse(fs, m)
  {
    if forall m :: 0 <= m < |fs.inodes| ==> InUse(fs, m) {
      CountUsed(fs, |fs.inodes|);
    }
  }

  lemma {:induction false} CountUsed(fs: Fs, n: nat)
    requires forall m :: 0 <= m < n ==> InUse(fs, m)
    ensures |UsedBelow(fs, n)| == n
  {
    if n > 0 {
      CountUsed(fs, n - 1);
      assert UsedBelow(fs, n) == UsedBelow(fs, n - 1) + {n - 1};
    }
  }

  lemma {:induction false} OneMore(fs: Fs, after: Fs, size: nat, k: nat, m: nat, kind: Byte)
    requires Filled(fs, k) && 0 < k < ITEMS_PER_BLOCK && !InUse(fs, m) && Owned(after) && InUse(after, 0)
    requires Created(fs, after, 0, size, [1, k], m, kind, true) && |after.data| == 2
    ensures Filled(after, k + 1)
  {
    hide Holds, FirstBlank, DirMap, Owned, DirOK, SameContent, ZeroTail;
    FirstBlankIs(fs, 0, k);
    assert Used(after) == Used(fs) + {m};
    forall nm | nm in DirMap(after, 0) ensures |nm| == 1 || (|nm| == 2 && nm[1] < k + 1) {
      assert nm == [1, k] || nm in DirMap(fs, 0);
    }
  }

  lemma {:induction false} RootFilled(fs: Fs)
    requires Owned(fs) && |fs.inodes| == FORMAT_INODE_BLOCKS * INODES_PER_BLOCK && |fs.data| == 2
    requires fs.inodes[0] == RootInode() && (forall n :: 0 < n < |fs.inodes| ==> fs.inodes[n] == BlankInode())
    requires Content(fs, 0, 0) == PutItem(Zeros(), 0, 0, ITEM_DIR, [0x2e])
    ensures Filled(fs, 1) && DirOK(fs, 0, ITEM_SIZE)
  {
    hide PutItem, Owned, DirMap, ItemIn, Content;
    RootDirectory(fs);
    RootItems(fs);
    assert Used(fs) == {0};
  }

  // Files are created in the root directory until its one block is full.
  method FillRoot(d: Dirent)
    requires d.Synced() && d.inumber == 0 && DirOK(d.volume.View(), 0, d.size) && Filled(d.volume.View(), 1)
    modifies d, d.volume
    ensures d.Synced() && DirOK(d.volume.View(), 0, d.size) && Filled(d.volume.View(), ITEMS_PER_BLOCK)
  {
    hide Owned, DirOK, DirMap, Filled, Created, Holds, FirstBlank, Room, Content, ViewOf;
    var k := 1;
    while k < ITEMS_PER_BLOCK
      invariant 1 <= k <= ITEMS_PER_BLOCK
      invariant d.Synced() && DirOK(d.volume.View(), 0, d.size) && Filled(d.volume.View(), k)
    {
      ghost var fs := d.volume.View();
      ViewSize(d.volume.sb, d.volume.disk);
      OneBlock(fs, k);
      NewName(fs, k, [1, k]);
      var t := Create(d, [1, k], ITEM_FILE);
      TwoBlocks(fs, d.volume.sb, d.volume.disk, k);
      OneMore(fs, d.volume.View(), d.size, k, t.inumber, ITEM_FILE);
      CreatedOK(fs, d.volume.View(), 0, d.size, [1, k], t.inumber, ITEM_FILE, true);
      k := k + 1;
    }
  }

  lemma ViewSize(sb: Super, disk: seq<Block>)
    requires Laid(sb, |disk|)
    ensures |ViewOf(sb, disk).data| == sb.dataBlocks
  {
  }

  lemma TwoBlocks(fs: Fs, sb: Super, disk: seq<Block>, k: nat)
    requires Filled(fs, k) && Laid(sb, |disk|) && |fs.data| == sb.dataBlocks
    ensures |ViewOf(sb, disk).data| == 2
  {
    hide Owned, Holds, DirMap;
  }

  // With no other block free, one more call returns a file, but binds no name to it.
  method NameLost() returns (d: Dirent, name: Bytes, t: Dirent?)
    ensures fresh(d) && d.Synced() && DirOK(d.volume.View(), d.inumber, d.size)
    ensures t != null && t.Synced() && t.volume == d.volume && name !in DirMap(d.volume.View(), d.inumber)
  {
    hide Owned, DirOK, DirMap, Filled, Created, Holds, FirstBlank, Room, Content;
    var v := new Volume.Format(seq(32, i => Zeros()), 31);
    d := new Dirent(v, 0, ITEM_DIR);
    RootFilled(v.View());
    FillRoot(d);
    name := [1, ITEMS_PER_BLOCK];
    ghost var fs := v.View();
    OneBlock(fs, ITEMS_PER_BLOCK);
    NewName(fs, ITEMS_PER_BLOCK, name);
    t := Create(d, name, ITEM_FILE);
    CreatedOK(fs, v.View(), 0, d.size, name, t.inumber, ITEM_FILE, false);
  }

  lemma NewName(fs: Fs, k: nat, name: Bytes)
    requires Filled(fs, k) && k < 256 && name == [1, k]
    ensures name !in DirMap(fs, 0)
  {
    hide DirMap, Holds, Owned;
  }

  lemma CreatedOK(fs: Fs, after: Fs, n: nat, size: nat, name: Bytes, m: nat, kind: Byte, ok: bool)
    requires Created(fs, after, n, size, name, m, kind, ok)
    ensures DirOK(after, n, size) && (!ok ==> DirMap(after, n) == DirMap(fs, n))
  {
    hide DirMap, DirOK;
  }
}

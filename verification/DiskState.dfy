// What is on a formatted volume: inodes, the block bitmap and the data blocks,
// with the rule that keeps files apart: every block pointer of every inode in
// use is either zero or names a marked block that no other pointer names.
module DiskState {
  import opened Words
  import opened DiskBlocks

  const MAX_BLOCKS := DIRECT_POINTERS + POINTERS_PER_BLOCK

  datatype Fs = Fs(inodes: seq<Inode>, marked: seq<bool>, data: seq<Block>)

  // The places that hold a block number: the direct pointers of an inode, its
  // pointer to the indirect table, and the entries of that table.
  datatype Key = Direct(n: nat, i: nat) | Table(n: nat) | Entry(n: nat, i: nat)

  ghost predicate InUse(fs: Fs, n: nat) {
    n < |fs.inodes| && fs.inodes[n].inuse != 0
  }

  ghost predicate Shaped(fs: Fs) {
    && |fs.marked| == BLOCK_BITS && 0 < |fs.data| <= BLOCK_BITS && fs.data[0] == Zeros()
    && forall n :: 0 <= n < |fs.inodes| ==> WellFormed(fs.inodes[n])
  }

  // A block number outside the data area names nothing.
  ghost function Data(fs: Fs, p: nat): Block {
    if p < |fs.data| then fs.data[p] else Zeros()
  }

  ghost predicate IsKey(fs: Fs, k: Key) {
    && InUse(fs, k.n) && WellFormed(fs.inodes[k.n])
    && (k.Direct? ==> k.i < DIRECT_POINTERS) && (k.Entry? ==> k.i < POINTERS_PER_BLOCK)
  }

  // Without a table the entries are read from data block 0, which is all zero.
  ghost function Ptr(fs: Fs, k: Key): nat
    requires IsKey(fs, k)
  {
    match k
    case Direct(n, i) => fs.inodes[n].direct[i]
    case Table(n) => fs.inodes[n].indirect
    case Entry(n, i) => PointerIn(Data(fs, fs.inodes[n].indirect), i)
  }

  ghost predicate PtrOK(fs: Fs, k: Key)
    requires |fs.marked| == BLOCK_BITS && |fs.data| <= BLOCK_BITS
  {
    IsKey(fs, k) ==> Ptr(fs, k) < |fs.data| && (Ptr(fs, k) != 0 ==> fs.marked[Ptr(fs, k)])
  }

  ghost predicate Apart(fs: Fs, k: Key, l: Key) {
    IsKey(fs, k) && IsKey(fs, l) && k != l && Ptr(fs, k) != 0 ==> Ptr(fs, k) != Ptr(fs, l)
  }

  ghost predicate Owned(fs: Fs) {
    && Shaped(fs)
    && (forall k :: PtrOK(fs, k))
    && (forall k, l :: Apart(fs, k, l))
  }

  // The blocks that diskfs_data_block_alloc may hand out.
  ghost function Free(fs: Fs): set<nat>
    requires |fs.marked| == BLOCK_BITS && |fs.data| <= BLOCK_BITS
  {
    set p: nat | 0 < p < |fs.data| && !fs.marked[p]
  }

  ghost predicate Pointed(fs: Fs, p: nat) {
    exists k :: IsKey(fs, k) && Ptr(fs, k) == p
  }

  // No block is lost: every marked block, other than number 0, has a pointer to it.
  ghost predicate NoLeak(fs: Fs) {
    Shaped(fs) && forall p: nat :: 0 < p < |fs.data| && fs.marked[p] ==> Pointed(fs, p)
  }

  // ---------------------------------------------------------------- block contents

  ghost function ContentKey(n: nat, b: nat): Key {
    if b < DIRECT_POINTERS then Direct(n, b) else Entry(n, b - DIRECT_POINTERS)
  }

  // Block b of inode n as a reader sees it; a hole shows data block 0.
  ghost function Content(fs: Fs, n: nat, b: nat): Block
    requires b < MAX_BLOCKS
  {
    if IsKey(fs, ContentKey(n, b)) then Data(fs, Ptr(fs, ContentKey(n, b))) else Zeros()
  }

  ghost predicate SameContent(fs: Fs, after: Fs, n: nat, b: nat) {
    b < MAX_BLOCKS ==> Content(after, n, b) == Content(fs, n, b)
  }

  // All blocks of all files but one block keep their contents.
  ghost predicate Elsewhere(fs: Fs, after: Fs, n: nat, b: nat) {
    forall m: nat, c: nat :: (m, c) != (n, b) ==> SameContent(fs, after, m, c)
  }

  ghost predicate SameContents(fs: Fs, after: Fs) {
    forall m: nat, c: nat :: SameContent(fs, after, m, c)
  }

  // ---------------------------------------------------------------- steps

  // Only key k0 changed, from nothing to the fresh block p.
  ghost predicate PtrSame(fs: Fs, after: Fs, k: Key) {
    (IsKey(fs, k) <==> IsKey(after, k)) && (IsKey(fs, k) ==> Ptr(after, k) == Ptr(fs, k))
  }

  ghost predicate PointsOnce(fs: Fs, after: Fs, k0: Key, p: nat)
    requires Shaped(fs)
  {
    && IsKey(fs, k0) && IsKey(after, k0) && Ptr(fs, k0) == 0 && Ptr(after, k0) == p && p in Free(fs)
    && (forall k :: k != k0 ==> PtrSame(fs, after, k))
    && |after.data| == |fs.data| && after.marked == fs.marked[p := true] && Shaped(after)
  }

  lemma {:induction false} NobodyHolds(fs: Fs, p: nat, k: Key)
    requires Owned(fs) && p in Free(fs) && IsKey(fs, k)
    ensures Ptr(fs, k) != p
  {
    assert PtrOK(fs, k);
  }

  lemma {:induction false} PointsOnceTight(fs: Fs, after: Fs, k0: Key, p: nat)
    requires Shaped(fs) && PointsOnce(fs, after, k0, p) && NoLeak(fs)
    ensures NoLeak(after)
  {
    hide Ptr, IsKey;
    forall q: nat | 0 < q < |after.data| && after.marked[q] ensures Pointed(after, q) {
      if q != p {
        assert Pointed(fs, q);
        var k :| IsKey(fs, k) && Ptr(fs, k) == q;
        assert PtrSame(fs, after, k);
      }
    }
  }

  lemma {:induction false} SamePtrsTight(fs: Fs, after: Fs)
    requires NoLeak(fs) && Shaped(after) && after.marked == fs.marked && |after.data| == |fs.data|
    requires forall k :: PtrSame(fs, after, k)
    ensures NoLeak(after)
  {
    hide Ptr, IsKey;
    forall q: nat | 0 < q < |after.data| && after.marked[q] ensures Pointed(after, q) {
      assert Pointed(fs, q);
      var k :| IsKey(fs, k) && Ptr(fs, k) == q;
      assert PtrSame(fs, after, k);
    }
  }

  lemma {:induction false} PointsOnceOwned(fs: Fs, after: Fs, k0: Key, p: nat)
    requires Owned(fs) && PointsOnce(fs, after, k0, p)
    ensures Owned(after) && (NoLeak(fs) ==> NoLeak(after))
  {
    hide Ptr, IsKey, NoLeak;
    if NoLeak(fs) { PointsOnceTight(fs, after, k0, p); }
    forall k ensures PtrOK(after, k) {
      if IsKey(after, k) && k != k0 {
        assert PtrSame(fs, after, k);
        assert PtrOK(fs, k);
      }
    }
    forall k, l ensures Apart(after, k, l) {
      if IsKey(after, k) && IsKey(after, l) && k != l {
        assert Apart(fs, k, l);
        if k != k0 {
          assert PtrSame(fs, after, k);
          NobodyHolds(fs, p, k);
        }
        if l != k0 {
          assert PtrSame(fs, after, l);
          NobodyHolds(fs, p, l);
        }
      }
    }
  }

  // inode->direct[i] = p, saved, with p newly marked.
  ghost function WithDirect(fs: Fs, n: nat, node: Inode, p: nat): Fs
    requires n < |fs.inodes| && p < |fs.marked|
  {
    Fs(fs.inodes[n := node], fs.marked[p := true], fs.data)
  }

  ghost predicate SetsDirect(before: Inode, node: Inode, i: nat, p: nat) {
    && i < DIRECT_POINTERS && WellFormed(before) && WellFormed(node)
    && node.direct == before.direct[i := node.direct[i]] && node.direct[i] == p
    && node.indirect == before.indirect && node.inuse != 0
  }

  lemma {:induction false} GrowDirect(fs: Fs, n: nat, i: nat, node: Inode, p: nat)
    requires Owned(fs) && InUse(fs, n) && SetsDirect(fs.inodes[n], node, i, p)
    requires fs.inodes[n].direct[i] == 0 && p in Free(fs)
    ensures var after := WithDirect(fs, n, node, p);
            Owned(after) && Elsewhere(fs, after, n, i) && Free(after) == Free(fs) - {p}
            && (NoLeak(fs) ==> NoLeak(after))
  {
    hide NoLeak;
    var after := WithDirect(fs, n, node, p);
    forall k | k != Direct(n, i) ensures PtrSame(fs, after, k) {
    }
    PointsOnceOwned(fs, after, Direct(n, i), p);
    forall m: nat, c: nat | (m, c) != (n, i) ensures SameContent(fs, after, m, c) {
      assert ContentKey(m, c) != Direct(n, i);
      assert PtrSame(fs, after, ContentKey(m, c));
    }
  }

  // A zeroed block p becomes the table of n.
  ghost function WithTable(fs: Fs, n: nat, node: Inode, p: nat): Fs
    requires n < |fs.inodes| && p < |fs.marked| && p < |fs.data|
  {
    Fs(fs.inodes[n := node], fs.marked[p := true], fs.data[p := Zeros()])
  }

  ghost predicate SetsTable(before: Inode, node: Inode, p: nat) {
    && WellFormed(before) && WellFormed(node) && node.direct == before.direct
    && node.indirect == p && node.inuse != 0
  }

  lemma {:induction false} GrowTable(fs: Fs, n: nat, node: Inode, p: nat)
    requires Owned(fs) && InUse(fs, n) && SetsTable(fs.inodes[n], node, p)
    requires fs.inodes[n].indirect == 0 && p in Free(fs)
    ensures var after := WithTable(fs, n, node, p);
            Owned(after) && SameContents(fs, after) && Free(after) == Free(fs) - {p}
            && (NoLeak(fs) ==> NoLeak(after))
  {
    hide NoLeak;
    var after := WithTable(fs, n, node, p);
    forall k | k != Table(n) ensures PtrSame(fs, after, k) {
      if k.Entry? && InUse(fs, k.n) && WellFormed(fs.inodes[k.n]) {
        NobodyHolds(fs, p, Table(k.n));
        if k.n == n && k.i < POINTERS_PER_BLOCK {
          ZeroPointers(k.i);
        }
      }
    }
    PointsOnceOwned(fs, after, Table(n), p);
    forall m: nat, c: nat ensures SameContent(fs, after, m, c) {
      var k := ContentKey(m, c);
      assert PtrSame(fs, after, k);
      if IsKey(fs, k) {
        NobodyHolds(fs, p, k);
      }
    }
  }

  // Entry i of the table of n names p.
  ghost function WithEntry(fs: Fs, n: nat, i: nat, p: Word): Fs
    requires Shaped(fs) && InUse(fs, n) && i < POINTERS_PER_BLOCK && p < |fs.marked|
    requires fs.inodes[n].indirect < |fs.data|
  {
    var t := fs.inodes[n].indirect;
    Fs(fs.inodes, fs.marked[p := true], fs.data[t := PutPointer(fs.data[t], i, p)])
  }

  lemma {:induction false} GrowEntry(fs: Fs, n: nat, i: nat, p: Word)
    requires Owned(fs) && InUse(fs, n) && i < POINTERS_PER_BLOCK
    requires 0 < fs.inodes[n].indirect < |fs.data| && Ptr(fs, Entry(n, i)) == 0 && p in Free(fs)
    ensures var after := WithEntry(fs, n, i, p);
            Owned(after) && Elsewhere(fs, after, n, i + DIRECT_POINTERS) && Free(after) == Free(fs) - {p}
            && (NoLeak(fs) ==> NoLeak(after))
  {
    hide NoLeak;
    var after := WithEntry(fs, n, i, p);
    var t := fs.inodes[n].indirect;
    forall k | k != Entry(n, i) ensures PtrSame(fs, after, k) {
      EntryOnly(fs, n, i, p, k);
    }
    PointerLaw(fs.data[t], i, p, i);
    PointsOnceOwned(fs, after, Entry(n, i), p);
    forall m: nat, c: nat | (m, c) != (n, i + DIRECT_POINTERS) ensures SameContent(fs, after, m, c) {
      var k := ContentKey(m, c);
      assert k != Entry(n, i);
      assert PtrSame(fs, after, k);
      assert Apart(fs, Table(n), k);
    }
  }

  lemma {:induction false} EntryOnly(fs: Fs, n: nat, i: nat, p: Word, k: Key)
    requires Owned(fs) && InUse(fs, n) && i < POINTERS_PER_BLOCK && p < |fs.marked|
    requires 0 < fs.inodes[n].indirect < |fs.data| && k != Entry(n, i)
    ensures PtrSame(fs, WithEntry(fs, n, i, p), k)
  {
    var t := fs.inodes[n].indirect;
    if k.Entry? && IsKey(fs, k) {
      assert IsKey(fs, Table(k.n)) && IsKey(fs, Table(n));
      assert Apart(fs, Table(n), Table(k.n));
      if k.n == n {
        PointerLaw(fs.data[t], i, p, k.i);
      }
    }
  }

  // Writing the block that content key k names changes that content only.
  ghost function WithData(fs: Fs, p: nat, b: Block): Fs
    requires p < |fs.data|
  {
    Fs(fs.inodes, fs.marked, fs.data[p := b])
  }

  lemma {:induction false} StoreContent(fs: Fs, n: nat, c: nat, b: Block)
    requires Owned(fs) && c < MAX_BLOCKS && IsKey(fs, ContentKey(n, c)) && Ptr(fs, ContentKey(n, c)) != 0
    ensures Ptr(fs, ContentKey(n, c)) < |fs.data|
    ensures var after := WithData(fs, Ptr(fs, ContentKey(n, c)), b);
            Owned(after) && Free(after) == Free(fs)
            && Content(after, n, c) == b && Elsewhere(fs, after, n, c)
            && (NoLeak(fs) ==> NoLeak(after))
  {
    hide NoLeak;
    var k0 := ContentKey(n, c);
    assert PtrOK(fs, k0);
    var p := Ptr(fs, k0);
    var after := WithData(fs, p, b);
    forall k ensures PtrSame(fs, after, k) {
      StoreKeeps(fs, k0, b, k);
    }
    SamePtrsOwned(fs, after);
    assert PtrSame(fs, after, k0);
    forall m: nat, d: nat | (m, d) != (n, c) ensures SameContent(fs, after, m, d) {
      var k := ContentKey(m, d);
      assert k != k0;
      assert PtrSame(fs, after, k);
      assert Apart(fs, k0, k);
    }
  }

  lemma {:induction false} StoreKeeps(fs: Fs, k0: Key, b: Block, k: Key)
    requires Owned(fs) && IsKey(fs, k0) && !k0.Table? && 0 < Ptr(fs, k0) < |fs.data|
    ensures PtrSame(fs, WithData(fs, Ptr(fs, k0), b), k)
  {
    if k.Entry? && IsKey(fs, k) {
      assert IsKey(fs, Table(k.n));
      assert Apart(fs, k0, Table(k.n));
    }
  }

  lemma {:induction false} SamePtrsOwned(fs: Fs, after: Fs)
    requires Owned(fs) && Shaped(after) && after.marked == fs.marked && |after.data| == |fs.data|
    requires forall k :: PtrSame(fs, after, k)
    ensures Owned(after) && (NoLeak(fs) ==> NoLeak(after))
  {
    hide Ptr, IsKey, NoLeak;
    if NoLeak(fs) { SamePtrsTight(fs, after); }
    forall k ensures PtrOK(after, k) {
      assert PtrSame(fs, after, k);
      assert PtrOK(fs, k);
    }
    forall k, l ensures Apart(after, k, l) {
      assert PtrSame(fs, after, k) && PtrSame(fs, after, l);
      assert Apart(fs, k, l);
    }
  }

  // Saving an inode with the same pointers changes no contents.
  lemma {:induction false} SaveSamePointers(fs: Fs, n: nat, node: Inode)
    requires Owned(fs) && InUse(fs, n) && WellFormed(node) && node.inuse != 0
    requires node.direct == fs.inodes[n].direct && node.indirect == fs.inodes[n].indirect
    ensures var after := fs.(inodes := fs.inodes[n := node]);
            Owned(after) && SameContents(fs, after) && Free(after) == Free(fs)
            && (NoLeak(fs) ==> NoLeak(after))
  {
    hide NoLeak;
    var after := fs.(inodes := fs.inodes[n := node]);
    forall k ensures PtrSame(fs, after, k) {
    }
    SamePtrsOwned(fs, after);
    forall m: nat, c: nat ensures SameContent(fs, after, m, c) {
      assert PtrSame(fs, after, ContentKey(m, c));
    }
  }

  lemma {:induction false} NewInodeTight(fs: Fs, n: nat, node: Inode)
    requires NoLeak(fs) && n < |fs.inodes| && !InUse(fs, n) && WellFormed(node)
    ensures NoLeak(fs.(inodes := fs.inodes[n := node]))
  {
    var after := fs.(inodes := fs.inodes[n := node]);
    forall q: nat | 0 < q < |after.data| && after.marked[q] ensures Pointed(after, q) {
      assert Pointed(fs, q);
      var k :| IsKey(fs, k) && Ptr(fs, k) == q;
      assert IsKey(after, k) && Ptr(after, k) == q;
    }
  }

  // A new inode without pointers, in a slot that was not in use.
  lemma {:induction false} AddInode(fs: Fs, n: nat, node: Inode)
    requires Owned(fs) && n < |fs.inodes| && !InUse(fs, n)
    requires node == BlankInode().(inuse := 1)
    ensures var after := fs.(inodes := fs.inodes[n := node]);
            Owned(after) && SameContents(fs, after) && Free(after) == Free(fs)
            && (NoLeak(fs) ==> NoLeak(after))
  {
    hide NoLeak;
    if NoLeak(fs) { NewInodeTight(fs, n, node); }
    var after := fs.(inodes := fs.inodes[n := node]);
    forall k: Key | k.n != n ensures PtrSame(fs, after, k) {
    }
    forall k: Key | k.n == n && IsKey(after, k) ensures Ptr(after, k) == 0 {
      if k.Entry? {
        ZeroPointers(k.i);
      }
    }
    forall k ensures PtrOK(after, k) {
      assert PtrOK(fs, k);
      assert k.n != n ==> PtrSame(fs, after, k);
    }
    forall k, l ensures Apart(after, k, l) {
      assert Apart(fs, k, l);
      assert k.n != n ==> PtrSame(fs, after, k);
      assert l.n != n ==> PtrSame(fs, after, l);
    }
    forall m: nat, c: nat ensures SameContent(fs, after, m, c) {
      assert m != n ==> PtrSame(fs, after, ContentKey(m, c));
    }
  }
}

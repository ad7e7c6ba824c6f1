// One open file: diskfs_inode_read and diskfs_inode_write, and the unaligned
// byte loops of fs.c above them.
module DiskFile {
  import opened Words
  import opened DiskBlocks
  import opened DiskState
  import opened DiskVolume

  // How many free blocks a write to block b of inode n takes.
  ghost function Needed(fs: Fs, n: nat, b: nat): nat
    requires Shaped(fs) && InUse(fs, n) && b < MAX_BLOCKS
  {
    if Ptr(fs, ContentKey(n, b)) != 0 then 0
    else if b < DIRECT_POINTERS || fs.inodes[n].indirect != 0 then 1
    else 2
  }

  // Only inode n may have changed.
  ghost predicate OtherInodes(fs: Fs, after: Fs, n: nat) {
    && |after.inodes| == |fs.inodes|
    && forall m :: 0 <= m < |fs.inodes| && m != n ==> after.inodes[m] == fs.inodes[m]
  }

  // The outcome of writing block b of inode n: all or nothing.
  ghost predicate BlockWritten(fs: Fs, after: Fs, n: nat, b: nat, data: Block, ok: bool)
    requires Shaped(fs) && InUse(fs, n) && b < MAX_BLOCKS
  {
    && Owned(after) && InUse(after, n) && OtherInodes(fs, after, n) && |after.data| == |fs.data|
    && (if ok then Content(after, n, b) == data && Elsewhere(fs, after, n, b) else SameContents(fs, after))
    && (ok <==> |Free(fs)| >= Needed(fs, n, b)) && (NoLeak(fs) ==> NoLeak(after))
    && (!ok ==> |Free(after)| < Needed(after, n, b))
  }

  lemma {:induction false} PtrInRange(fs: Fs, k: Key)
    requires Owned(fs) && IsKey(fs, k)
    ensures Ptr(fs, k) < |fs.data|
  {
    assert PtrOK(fs, k);
  }

  lemma FreeSome(s: set<nat>, p: nat)
    requires p in s
    ensures |s| >= 1 && |s - {p}| == |s| - 1
  {
  }

  // The block already exists.
  lemma {:induction false} OverwriteBlock(fs: Fs, n: nat, b: nat, data: Block)
    requires Owned(fs) && InUse(fs, n) && b < MAX_BLOCKS && Ptr(fs, ContentKey(n, b)) != 0
    ensures Ptr(fs, ContentKey(n, b)) < |fs.data|
    ensures BlockWritten(fs, WithData(fs, Ptr(fs, ContentKey(n, b)), data), n, b, data, true)
  {
    StoreContent(fs, n, b, data);
  }

  // A step that leaves every other block alone, then the write of the block
  // the step made room for.
  lemma {:induction false} AfterGrowth(fs: Fs, mid: Fs, n: nat, b: nat, data: Block)
    requires Owned(fs) && InUse(fs, n) && b < MAX_BLOCKS && Owned(mid) && InUse(mid, n)
    requires Elsewhere(fs, mid, n, b) && OtherInodes(fs, mid, n) && |mid.data| == |fs.data|
    requires |Free(fs)| >= Needed(fs, n, b) && Ptr(mid, ContentKey(n, b)) != 0 && (NoLeak(fs) ==> NoLeak(mid))
    ensures Ptr(mid, ContentKey(n, b)) < |mid.data|
    ensures BlockWritten(fs, WithData(mid, Ptr(mid, ContentKey(n, b)), data), n, b, data, true)
  {
    hide PtrOK, Apart, Content, Free, NoLeak;
    StoreContent(mid, n, b, data);
    var after := WithData(mid, Ptr(mid, ContentKey(n, b)), data);
    forall m: nat, c: nat | (m, c) != (n, b) ensures SameContent(fs, after, m, c) {
      assert SameContent(fs, mid, m, c) && SameContent(mid, after, m, c);
    }
  }

  // No room: nothing happened.
  lemma {:induction false} NoRoom(fs: Fs, n: nat, b: nat, data: Block)
    requires Owned(fs) && InUse(fs, n) && b < MAX_BLOCKS
    requires Free(fs) == {} && Ptr(fs, ContentKey(n, b)) == 0
    ensures BlockWritten(fs, fs, n, b, data, false)
  {
  }

  // A table was added first; then the entry was written, or found no room.
  lemma {:induction false} ThroughTable(fs: Fs, mid: Fs, after: Fs, n: nat, b: nat, data: Block, ok: bool)
    requires Owned(fs) && InUse(fs, n) && DIRECT_POINTERS <= b < MAX_BLOCKS && fs.inodes[n].indirect == 0
    requires Owned(mid) && InUse(mid, n) && mid.inodes[n].indirect != 0 && Ptr(mid, ContentKey(n, b)) == 0
    requires SameContents(fs, mid) && OtherInodes(fs, mid, n) && |mid.data| == |fs.data|
    requires |Free(mid)| == |Free(fs)| - 1 && (NoLeak(fs) ==> NoLeak(mid))
    requires BlockWritten(mid, after, n, b, data, ok)
    ensures BlockWritten(fs, after, n, b, data, ok)
  {
    hide PtrOK, Apart, Content, Free, NoLeak;
    ZeroPointers(b - DIRECT_POINTERS);
    FirstBlockZero(fs);
    if ok {
      Compose(fs, mid, after, n, b);
    } else {
      forall m: nat, c: nat ensures SameContent(fs, after, m, c) {
        assert SameContent(fs, mid, m, c) && SameContent(mid, after, m, c);
      }
    }
  }

  lemma FirstBlockZero(fs: Fs)
    requires Owned(fs)
    ensures Data(fs, 0) == Zeros()
  {
  }

  lemma {:induction false} Compose(fs: Fs, mid: Fs, after: Fs, n: nat, b: nat)
    requires SameContents(fs, mid) && Elsewhere(mid, after, n, b)
    ensures Elsewhere(fs, after, n, b)
  {
    forall m: nat, c: nat | (m, c) != (n, b) ensures SameContent(fs, after, m, c) {
      assert SameContent(fs, mid, m, c) && SameContent(mid, after, m, c);
    }
  }

  class Dirent {
    const volume: Volume
    const inumber: nat
    const isdir: bool
    var size: Word
    var disk: Inode

    // The copy in memory has the pointers that are on disk. Only the size may
    // be ahead of the disk.
    ghost predicate Synced()
      reads this, volume
    {
      && volume.Valid() && InUse(volume.View(), inumber) && WellFormed(disk) && disk.inuse != 0 && size == disk.size
      && disk.direct == volume.View().inodes[inumber].direct && disk.indirect == volume.View().inodes[inumber].indirect
    }

    // The inode on disk is the copy in memory, size included.
    ghost predicate Saved()
      requires Synced()
      reads this, volume
    {
      volume.View().inodes[inumber] == disk
    }

    // The inode on disk is as it was, or as it is now in memory if that has changed.
    ghost predicate SavedIfChanged(fs: Fs, was: Inode)
      requires Synced()
      reads this, volume
    {
      && |fs.inodes| == |volume.View().inodes|
      && volume.View().inodes[inumber] == if disk == was then fs.inodes[inumber] else disk
    }

    // diskfs_dirent_create
    constructor (v: Volume, n: nat, kind: Byte)
      requires v.Valid() && InUse(v.View(), n)
      ensures volume == v && inumber == n && isdir == (kind == ITEM_DIR) && Synced()
      ensures disk == v.View().inodes[n]
    {
      volume, inumber, isdir := v, n, kind == ITEM_DIR;
      var node := v.InodeLoad(n);
      disk, size := node, node.size;
    }

    // diskfs_dirent_close
    method Close()
      requires Synced()
      modifies volume
      ensures Synced() && SameContents(old(volume.View()), volume.View())
      ensures NoLeak(old(volume.View())) ==> NoLeak(volume.View())
      ensures volume.View() == old(volume.View()).(inodes := old(volume.View()).inodes[inumber := disk])
    {
      hide NoLeak, PtrOK, Apart, Content;
      SaveSamePointers(volume.View(), inumber, disk);
      volume.InodeSave(inumber, disk);
    }

    method Resize(length: Word)
      modifies this
      ensures size == length && disk == old(disk).(size := length)
    {
      disk := disk.(size := length);
      size := length;
    }

    // diskfs_inode_read: what the block holds, zeros for a hole.
    method InodeRead(block: nat) returns (b: Block, r: int)
      requires Synced() && block < MAX_BLOCKS
      ensures r == BLOCK_SIZE && b == Content(volume.View(), inumber, block)
    {
      hide PtrOK, Apart, ViewOf;
      ghost var fs := volume.View();
      PtrInRange(fs, ContentKey(inumber, block));
      b := *;
      var actual: nat;
      if block < DIRECT_POINTERS {
        actual := disk.direct[block];
      } else {
        PtrInRange(fs, Table(inumber));
        b, r := volume.DataBlockRead(b, disk.indirect);
        actual := PointerIn(b, block - DIRECT_POINTERS);
      }
      b, r := volume.DataBlockRead(b, actual);
    }

    // diskfs_inode_write: the block is written, or there was no room for it.
    method InodeWrite(b: Block, block: nat) returns (r: int)
      requires Synced() && block < MAX_BLOCKS
      modifies this`disk, volume
      ensures Synced() && disk.size == old(disk.size)
      ensures r == BLOCK_SIZE || r == KERROR_OUT_OF_SPACE
      ensures BlockWritten(old(volume.View()), volume.View(), inumber, block, b, r == BLOCK_SIZE)
      ensures SavedIfChanged(old(volume.View()), old(disk))
    {
      if block < DIRECT_POINTERS {
        r := WriteDirect(b, block);
      } else {
        r := WriteIndirect(b, block);
      }
    }

    method WriteDirect(b: Block, block: nat) returns (r: int)
      requires Synced() && block < DIRECT_POINTERS
      modifies this`disk, volume
      ensures Synced() && disk.size == old(disk.size)
      ensures r == BLOCK_SIZE || r == KERROR_OUT_OF_SPACE
      ensures BlockWritten(old(volume.View()), volume.View(), inumber, block, b, r == BLOCK_SIZE)
      ensures SavedIfChanged(old(volume.View()), old(disk))
    {
      hide NoLeak, PtrOK, Apart, ViewOf, Content, Elsewhere, SameContents, Free;
      ghost var fs := volume.View();
      var actual: Word := disk.direct[block];
      if actual == 0 {
        actual := volume.DataBlockAlloc();
        if actual == 0 {
          NoRoom(fs, inumber, block, b);
          return KERROR_OUT_OF_SPACE;
        }
        disk := disk.(direct := disk.direct[block := actual]);
        volume.InodeSave(inumber, disk);
        GrowDirect(fs, inumber, block, disk, actual);
        FreeSome(Free(fs), actual);
        AfterGrowth(fs, volume.View(), inumber, block, b);
      } else {
        OverwriteBlock(fs, inumber, block, b);
      }
      r := volume.DataBlockWrite(b, actual);
    }

    method WriteIndirect(b: Block, block: nat) returns (r: int)
      requires Synced() && DIRECT_POINTERS <= block < MAX_BLOCKS
      modifies this`disk, volume
      ensures Synced() && disk.size == old(disk.size)
      ensures r == BLOCK_SIZE || r == KERROR_OUT_OF_SPACE
      ensures BlockWritten(old(volume.View()), volume.View(), inumber, block, b, r == BLOCK_SIZE)
      ensures SavedIfChanged(old(volume.View()), old(disk))
    {
      hide NoLeak, PtrOK, Apart, ViewOf, Content, Elsewhere, SameContents, Free, BlockWritten, Needed;
      ghost var fs := volume.View();
      if disk.indirect == 0 {
        var ok := AddTable();
        if !ok {
          NoEntry(fs, inumber, block);
          NoRoom(fs, inumber, block, b);
          return KERROR_OUT_OF_SPACE;
        }
        ghost var mid := volume.View();
        NoEntry(mid, inumber, block);
        r := WriteEntry(b, block);
        ThroughTable(fs, mid, volume.View(), inumber, block, b, r == BLOCK_SIZE);
      } else {
        r := WriteEntry(b, block);
      }
    }

    // The first branch of the indirect case: a zeroed table.
    method AddTable() returns (ok: bool)
      requires Synced() && disk.indirect == 0
      modifies this`disk, volume
      ensures Synced() && disk.size == old(disk.size)
      ensures !ok ==> disk == old(disk) && volume.View() == old(volume.View()) && Free(volume.View()) == {}
      ensures ok ==> Saved() && (NoLeak(old(volume.View())) ==> NoLeak(volume.View()))
      ensures ok ==>
                && disk.indirect != 0 && SameContents(old(volume.View()), volume.View())
                && OtherInodes(old(volume.View()), volume.View(), inumber)
                && |volume.View().data| == |old(volume.View()).data|
                && |Free(volume.View())| == |Free(old(volume.View()))| - 1
                && Data(volume.View(), disk.indirect) == Zeros()
    {
      hide NoLeak, PtrOK, Apart, ViewOf, Content, SameContents, Free;
      ghost var fs := volume.View();
      var actual := volume.DataBlockAlloc();
      if actual == 0 {
        return false;
      }
      disk := disk.(indirect := actual);
      volume.InodeSave(inumber, disk);
      FreeInRange(fs, actual);
      var r := volume.DataBlockWrite(Zeros(), disk.indirect);
      GrowTable(fs, inumber, disk, actual);
      FreeSome(Free(fs), actual);
      ok := true;
    }

    // The rest: an entry of the table, allocated on demand, and its block.
    method WriteEntry(b: Block, block: nat) returns (r: int)
      requires Synced() && DIRECT_POINTERS <= block < MAX_BLOCKS && disk.indirect != 0
      modifies volume
      ensures Synced()
      ensures r == BLOCK_SIZE || r == KERROR_OUT_OF_SPACE
      ensures BlockWritten(old(volume.View()), volume.View(), inumber, block, b, r == BLOCK_SIZE)
      ensures volume.View().inodes == old(volume.View()).inodes
    {
      hide NoLeak, PtrOK, Apart, ViewOf, Content, Elsewhere, SameContents, Free, PointerIn, PutPointer;
      ghost var fs := volume.View();
      PtrInRange(fs, Table(inumber));
      var iblock: Block := *;
      iblock, r := volume.DataBlockRead(iblock, disk.indirect);
      var actual := PointerIn(iblock, block - DIRECT_POINTERS);
      if actual == 0 {
        actual := volume.DataBlockAlloc();
        if actual == 0 {
          NoRoom(fs, inumber, block, b);
          return KERROR_OUT_OF_SPACE;
        }
        iblock := PutPointer(iblock, block - DIRECT_POINTERS, actual);
        r := volume.DataBlockWrite(iblock, disk.indirect);
        GrowEntry(fs, inumber, block - DIRECT_POINTERS, actual);
        FreeSome(Free(fs), actual);
        PointerLaw(fs.data[disk.indirect], block - DIRECT_POINTERS, actual, block - DIRECT_POINTERS);
        AfterGrowth(fs, volume.View(), inumber, block, b);
      } else {
        OverwriteBlock(fs, inumber, block, b);
      }
      r := volume.DataBlockWrite(b, actual);
    }
  }

  lemma FreeInRange(fs: Fs, p: nat)
    requires Shaped(fs) && p in Free(fs)
    ensures 0 < p < |fs.data|
  {
  }

  // A zero table, or none, has no entry for the block.
  lemma NoEntry(fs: Fs, n: nat, b: nat)
    requires Owned(fs) && InUse(fs, n) && DIRECT_POINTERS <= b < MAX_BLOCKS
    requires fs.inodes[n].indirect == 0 || Data(fs, fs.inodes[n].indirect) == Zeros()
    ensures Ptr(fs, ContentKey(n, b)) == 0
  {
    ZeroPointers(b - DIRECT_POINTERS);
  }
}

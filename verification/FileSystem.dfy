// fs.c: reading and writing a file at any byte offset, block by block, seen as
// operations on one flat zero-filled byte array.
module FileSystem {
  import opened DiskBlocks
  import opened DiskState
  import opened DiskVolume
  import opened DiskFile

  const MAX_FILE := MAX_BLOCKS * BLOCK_SIZE

  ghost function ByteAt(fs: Fs, n: nat, pos: nat): Byte
    requires pos < MAX_FILE
  {
    Content(fs, n, pos / BLOCK_SIZE)[pos % BLOCK_SIZE]
  }

  // The file as the flat array a caller thinks of.
  ghost function FileBytes(fs: Fs, n: nat, size: nat): (r: Bytes)
    requires size <= MAX_FILE
    ensures |r| == size
  {
    seq(size, pos requires 0 <= pos < size => ByteAt(fs, n, pos))
  }

  // Beyond its size a file holds zeros.
  ghost predicate ZeroTail(fs: Fs, n: nat, size: nat) {
    forall pos: nat :: size <= pos < MAX_FILE ==> ByteAt(fs, n, pos) == 0
  }

  // The first t bytes of the buffer are in place from offset on; every other
  // byte of the file is as it was.
  ghost predicate Wrote(fs: Fs, after: Fs, n: nat, offset: nat, buffer: Bytes, t: nat)
    requires t <= |buffer|
  {
    forall pos: nat :: pos < MAX_FILE ==>
      ByteAt(after, n, pos) == if offset <= pos < offset + t then buffer[pos - offset] else ByteAt(fs, n, pos)
  }

  ghost predicate OtherFiles(fs: Fs, after: Fs, n: nat) {
    && OtherInodes(fs, after, n)
    && forall m: nat, c: nat :: m != n ==> SameContent(fs, after, m, c)
  }

  function Max(x: int, y: int): int { if x < y then y else x }

  function Min(x: int, y: int): int { if x < y then x else y }

  function Extended(f: Bytes, size: nat): (r: Bytes)
    requires |f| <= size
    ensures |r| == size
  {
    f + seq(size - |f|, i => 0)
  }

  // The meaning of a write: grow the file with zeros, lay the bytes over it.
  function Patched(f: Bytes, offset: nat, length: nat, data: Bytes): (r: Bytes)
    requires |data| <= length
    ensures |r| == Max(|f|, offset + length)
  {
    Splice(Extended(f, Max(|f|, offset + length)), offset, data)
  }

  // A flat file answers a read of what was just written, and zeros in the gap.
  lemma PatchedReads(f: Bytes, offset: nat, data: Bytes)
    ensures var g := Patched(f, offset, |data|, data);
            && g[offset..offset + |data|] == data
            && (forall k :: 0 <= k < offset && k < |f| ==> g[k] == f[k])
            && (forall k :: |f| <= k < offset ==> g[k] == 0)
            && (forall k :: offset + |data| <= k < |f| ==> g[k] == f[k])
  {
  }

  lemma {:induction false} WroteFlat(fs: Fs, after: Fs, n: nat, size: nat, offset: nat, buffer: Bytes, t: nat)
    requires t <= |buffer| && size <= MAX_FILE && offset + |buffer| <= MAX_FILE
    requires Wrote(fs, after, n, offset, buffer, t) && ZeroTail(fs, n, size)
    ensures var size' := Max(size, offset + |buffer|);
            && ZeroTail(after, n, size')
            && FileBytes(after, n, size') == Patched(FileBytes(fs, n, size), offset, |buffer|, buffer[..t])
  {
    hide ByteAt;
    var size' := Max(size, offset + |buffer|);
    var want := Patched(FileBytes(fs, n, size), offset, |buffer|, buffer[..t]);
    forall pos: nat | pos < size' ensures FileBytes(after, n, size')[pos] == want[pos] {
      assert ByteAt(after, n, pos) == if offset <= pos < offset + t then buffer[pos - offset] else ByteAt(fs, n, pos);
    }
    assert FileBytes(after, n, size') == want;
  }

  // One block rewritten with a piece of the buffer laid over it extends the
  // part that is in place.
  lemma {:induction false} WroteMore(fs: Fs, mid: Fs, after: Fs, n: nat, offset: nat, buffer: Bytes, t: nat,
        block: nat, piece: nat, data: Block)
    requires t + piece <= |buffer| && offset + |buffer| <= MAX_FILE && piece > 0
    requires block == (offset + t) / BLOCK_SIZE && (offset + t) % BLOCK_SIZE + piece <= BLOCK_SIZE
    requires Wrote(fs, mid, n, offset, buffer, t)
    requires data == Splice(Content(mid, n, block), (offset + t) % BLOCK_SIZE, buffer[t..t + piece])
    requires Content(after, n, block) == data && Elsewhere(mid, after, n, block)
    ensures Wrote(fs, after, n, offset, buffer, t + piece)
  {
    hide Content;
    forall pos: nat | pos < MAX_FILE
      ensures ByteAt(after, n, pos) == if offset <= pos < offset + t + piece then buffer[pos - offset]
                                       else ByteAt(fs, n, pos)
    {
      assert ByteAt(mid, n, pos) == if offset <= pos < offset + t then buffer[pos - offset] else ByteAt(fs, n, pos);
      var b := pos / BLOCK_SIZE;
      if b != block {
        assert SameContent(mid, after, n, b);
      }
    }
  }

  lemma {:induction false} OthersStay(fs: Fs, mid: Fs, after: Fs, n: nat, block: nat, data: Block, ok: bool)
    requires Shaped(mid) && InUse(mid, n) && block < MAX_BLOCKS
    requires OtherFiles(fs, mid, n) && BlockWritten(mid, after, n, block, data, ok)
    ensures OtherFiles(fs, after, n)
  {
    hide Content, PtrOK, Apart;
    forall m: nat, c: nat | m != n ensures SameContent(fs, after, m, c) {
      assert SameContent(fs, mid, m, c) && SameContent(mid, after, m, c);
    }
  }

  lemma {:induction false} SameBytes(fs: Fs, mid: Fs, after: Fs, n: nat, offset: nat, buffer: Bytes, t: nat)
    requires t <= |buffer| && Wrote(fs, mid, n, offset, buffer, t) && SameContents(mid, after)
    ensures Wrote(fs, after, n, offset, buffer, t)
  {
    hide Content;
    forall pos: nat | pos < MAX_FILE ensures ByteAt(after, n, pos) == ByteAt(mid, n, pos) {
      assert SameContent(mid, after, n, pos / BLOCK_SIZE);
    }
  }

  // fs_dirent_read. The range is cut to the file; nothing past the bytes read
  // changes in the buffer.
  method DirentRead(d: Dirent, buffer: array<Byte>, length0: nat, offset0: nat) returns (total: int)
    requires d.Synced() && d.size <= MAX_FILE && length0 <= buffer.Length && offset0 + length0 < 0x1_0000_0000
    modifies buffer
    ensures total == if offset0 > d.size then 0 else Min(length0, d.size - offset0)
    ensures forall k :: 0 <= k < total ==> buffer[k] == ByteAt(d.volume.View(), d.inumber, offset0 + k)
    ensures forall k :: total <= k < buffer.Length ==> buffer[k] == old(buffer[k])
  {
    hide Owned, ViewOf, Content;
    total := 0;
    if offset0 > d.size {
      return;
    }
    var length, offset, at := length0, offset0, 0;
    if offset + length > d.size {
      length := d.size - offset;
    }
    ghost var end := offset + length;
    while length > 0
      invariant d.Synced() && d.size == old(d.size) && d.volume.View() == old(d.volume.View())
      invariant total >= 0 && length >= 0 && at == total && offset == offset0 + total && offset + length == end
      invariant end == offset0 + Min(length0, d.size - offset0)
      invariant forall k :: 0 <= k < total ==> buffer[k] == ByteAt(d.volume.View(), d.inumber, offset0 + k)
      invariant forall k :: total <= k < buffer.Length ==> buffer[k] == old(buffer[k])
      decreases length
    {
      var blocknum := offset / BLOCK_SIZE;
      var actual: int;
      var temp: Block;
      if offset % BLOCK_SIZE != 0 {
        temp, actual := d.InodeRead(blocknum);
        if actual != BLOCK_SIZE {
          return if total == 0 then -1 else total;
        }
        actual := Min(BLOCK_SIZE - offset % BLOCK_SIZE, length);
        Copy(buffer, at, temp, offset % BLOCK_SIZE, actual);
      } else if length >= BLOCK_SIZE {
        temp, actual := d.InodeRead(blocknum);
        if actual != BLOCK_SIZE {
          return if total == 0 then -1 else total;
        }
        Copy(buffer, at, temp, 0, BLOCK_SIZE);
      } else {
        temp, actual := d.InodeRead(blocknum);
        if actual != BLOCK_SIZE {
          return if total == 0 then -1 else total;
        }
        actual := length;
        Copy(buffer, at, temp, 0, actual);
      }
      OneBlock(d.volume.View(), d.inumber, offset, actual);
      at := at + actual;
      length := length - actual;
      offset := offset + actual;
      total := total + actual;
    }
  }

  // Positions in one block share its contents.
  lemma OneBlock(fs: Fs, n: nat, offset: nat, count: nat)
    requires offset % BLOCK_SIZE + count <= BLOCK_SIZE && offset + count <= MAX_FILE && count > 0
    ensures forall k {:trigger ByteAt(fs, n, k)} :: offset <= k < offset + count ==>
              ByteAt(fs, n, k) == Content(fs, n, offset / BLOCK_SIZE)[offset % BLOCK_SIZE + (k - offset)]
  {
    hide Content;
    forall k | offset <= k < offset + count
      ensures k / BLOCK_SIZE == offset / BLOCK_SIZE && k % BLOCK_SIZE == offset % BLOCK_SIZE + (k - offset)
    {
      assert k == BLOCK_SIZE * (offset / BLOCK_SIZE) + (offset % BLOCK_SIZE + (k - offset));
    }
  }

  // memcpy
  method Copy(buffer: array<Byte>, at: nat, temp: Block, from: nat, count: nat)
    requires at + count <= buffer.Length && from + count <= BLOCK_SIZE
    modifies buffer
    ensures forall k :: 0 <= k < buffer.Length ==>
              buffer[k] == if at <= k < at + count then temp[from + (k - at)] else old(buffer[k])
  {
    forall k | at <= k < at + count {
      buffer[k] := temp[from + (k - at)];
    }
  }

  // The inode on disk is the one in memory, or neither has changed but for the size in
  // memory: that one is saved with the next new block, or when the file is closed.
  ghost predicate NodeSaved(fs: Fs, after: Fs, n: nat, was: Inode, now: Inode) {
    n < |fs.inodes| == |after.inodes|
    && (after.inodes[n] == now || (now == was && after.inodes[n] == fs.inodes[n]))
  }

  lemma NodeSavedOn(fs: Fs, mid: Fs, after: Fs, n: nat, was: Inode, old_: Inode, now: Inode)
    requires NodeSaved(fs, mid, n, was, old_) && |mid.inodes| == |after.inodes|
    requires after.inodes[n] == if now == old_ then mid.inodes[n] else now
    ensures NodeSaved(fs, after, n, was, now)
  {
  }

  // fs_dirent_write. The size is set first, even if the bytes then do not fit;
  // the bytes written are a prefix of the buffer.
  method DirentWrite(d: Dirent, buffer: Bytes, offset0: nat) returns (total: int)
    requires d.Synced() && offset0 + |buffer| <= MAX_FILE
    modifies d, d.volume
    ensures d.Synced() && d.size == Max(old(d.size), offset0 + |buffer|)
    ensures 0 <= total <= |buffer| || (total == -1 && |buffer| > 0)
    ensures Wrote(old(d.volume.View()), d.volume.View(), d.inumber, offset0, buffer, Max(total, 0))
    ensures OtherFiles(old(d.volume.View()), d.volume.View(), d.inumber)
    ensures NoLeak(old(d.volume.View())) ==> NoLeak(d.volume.View())
    ensures NodeSaved(old(d.volume.View()), d.volume.View(), d.inumber, old(d.disk).(size := d.size), d.disk)
    ensures total < |buffer| ==>
              |Free(d.volume.View())| < Needed(d.volume.View(), d.inumber, (offset0 + Max(total, 0)) / BLOCK_SIZE)
    ensures old(d.size) <= MAX_FILE && ZeroTail(old(d.volume.View()), d.inumber, old(d.size)) ==>
              && ZeroTail(d.volume.View(), d.inumber, d.size)
              && FileBytes(d.volume.View(), d.inumber, d.size)
                 == Patched(FileBytes(old(d.volume.View()), d.inumber, old(d.size)), offset0, |buffer|,
                            buffer[..Max(total, 0)])
  {
    hide Owned, NoLeak, NodeSaved, ViewOf, Content, Wrote, OtherFiles, BlockWritten, ZeroTail, FileBytes, Patched;
    ghost var fs := d.volume.View();
    ghost var n := d.inumber;
    if offset0 + |buffer| > d.size {
      d.Resize(offset0 + |buffer|);
    }
    total := WriteLoop(d, buffer, offset0);
    if old(d.size) <= MAX_FILE && ZeroTail(fs, n, old(d.size)) {
      WroteFlat(fs, d.volume.View(), n, old(d.size), offset0, buffer, Max(total, 0));
    }
  }

  lemma SpliceWhole(b: Block, data: Block)
    ensures data == Splice(b, 0, data)
  {
  }

  method WriteLoop(d: Dirent, buffer: Bytes, offset0: nat) returns (total: int)
    requires d.Synced() && offset0 + |buffer| <= MAX_FILE
    modifies d`disk, d.volume
    ensures d.Synced()
    ensures 0 <= total <= |buffer| || (total == -1 && |buffer| > 0)
    ensures Wrote(old(d.volume.View()), d.volume.View(), d.inumber, offset0, buffer, Max(total, 0))
    ensures OtherFiles(old(d.volume.View()), d.volume.View(), d.inumber)
    ensures NoLeak(old(d.volume.View())) ==> NoLeak(d.volume.View())
    ensures NodeSaved(old(d.volume.View()), d.volume.View(), d.inumber, old(d.disk), d.disk)
    ensures total < |buffer| ==>
              |Free(d.volume.View())| < Needed(d.volume.View(), d.inumber, (offset0 + Max(total, 0)) / BLOCK_SIZE)
  {
    hide PtrOK, Apart, ViewOf, Content, Elsewhere, SameContents, OtherFiles, OtherInodes, Wrote, Free, Needed, ByteAt,
         Splice, NoLeak, NodeSaved;
    ghost var fs := d.volume.View();
    ghost var n := d.inumber;
    var length, offset := |buffer|, offset0;
    total := 0;
    WroteNothing(fs, n, offset0, buffer);
    NodeAsIs(fs, n, d.disk);
    while length > 0
      invariant d.Synced() && d.size == old(d.size)
      invariant 0 <= total <= |buffer| && length == |buffer| - total && offset == offset0 + total
      invariant Wrote(fs, d.volume.View(), n, offset0, buffer, total)
      invariant NodeSaved(fs, d.volume.View(), n, old(d.disk), d.disk)
      invariant OtherFiles(fs, d.volume.View(), n) && (NoLeak(fs) ==> NoLeak(d.volume.View()))
      decreases length
    {
      ghost var mid, node := d.volume.View(), d.disk;
      var blocknum := offset / BLOCK_SIZE;
      var actual: int;
      var wactual: int;
      var temp: Block;
      if offset % BLOCK_SIZE != 0 {
        temp, actual := d.InodeRead(blocknum);
        if actual != BLOCK_SIZE {
          return if total == 0 then -1 else total;
        }
        actual := Min(BLOCK_SIZE - offset % BLOCK_SIZE, length);
        temp := Splice(temp, offset % BLOCK_SIZE, buffer[total..total + actual]);
        wactual := d.InodeWrite(temp, blocknum);
      } else if length >= BLOCK_SIZE {
        temp := buffer[total..total + BLOCK_SIZE];
        actual := BLOCK_SIZE;
        wactual := d.InodeWrite(temp, blocknum);
        SpliceWhole(Content(mid, n, blocknum), temp);
      } else {
        temp, actual := d.InodeRead(blocknum);
        if actual != BLOCK_SIZE {
          return if total == 0 then -1 else total;
        }
        actual := length;
        temp := Splice(temp, 0, buffer[total..total + actual]);
        wactual := d.InodeWrite(temp, blocknum);
      }
      NodeSavedOn(fs, mid, d.volume.View(), n, old(d.disk), node, d.disk);
      OthersStay(fs, mid, d.volume.View(), n, blocknum, temp, wactual == BLOCK_SIZE);
      if wactual != BLOCK_SIZE {
        SameBytes(fs, mid, d.volume.View(), n, offset0, buffer, total);
        return if total == 0 then -1 else total;
      }
      WroteMore(fs, mid, d.volume.View(), n, offset0, buffer, total, blocknum, actual, temp);
      length := length - actual;
      offset := offset + actual;
      total := total + actual;
    }
  }

  lemma NodeAsIs(fs: Fs, n: nat, node: Inode)
    requires n < |fs.inodes|
    ensures NodeSaved(fs, fs, n, node, node)
  {
  }

  lemma WroteNothing(fs: Fs, n: nat, offset: nat, buffer: Bytes)
    ensures Wrote(fs, fs, n, offset, buffer, 0) && OtherFiles(fs, fs, n)
  {
  }

  // A write through one open file leaves every other open file in step with
  // the disk, with the same bytes.
  twostate lemma OtherFileKept(d: Dirent, e: Dirent)
    requires e.volume == d.volume && e.inumber != d.inumber && unchanged(e) && old(e.Synced()) && e.size <= MAX_FILE
    requires d.volume.Valid() && OtherFiles(old(d.volume.View()), d.volume.View(), d.inumber)
    ensures e.Synced()
    ensures FileBytes(e.volume.View(), e.inumber, e.size) == old(FileBytes(e.volume.View(), e.inumber, e.size))
  {
    hide Owned, Content;
    var fs, after := old(d.volume.View()), d.volume.View();
    assert after.inodes[e.inumber] == fs.inodes[e.inumber];
    forall pos: nat | pos < e.size ensures ByteAt(after, e.inumber, pos) == ByteAt(fs, e.inumber, pos) {
      assert SameContent(fs, after, e.inumber, pos / BLOCK_SIZE);
    }
  }
}

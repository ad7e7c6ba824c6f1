// diskfs.c below the file level: scanning the bitmap, and loading and saving
// inodes, on a device of 4096-byte blocks.
module DiskVolume {
  import opened Words
  import opened DiskBlocks
  import opened DiskState

  const KERROR_OUT_OF_SPACE := -20
  const FORMAT_INODE_BLOCKS := 28

  // struct diskfs_superblock, without magic and block size.
  datatype Super = Super(inodeStart: nat, inodeBlocks: nat, bitmapStart: nat, bitmapBlocks: nat,
                         dataStart: nat, dataBlocks: nat)

  // The areas follow one another and fit the device; one bitmap block covers
  // the data blocks.
  predicate Laid(sb: Super, blocks: nat) {
    && 0 < sb.inodeStart && 0 < sb.inodeBlocks && sb.inodeBlocks * INODES_PER_BLOCK < MODULUS
    && sb.inodeStart + sb.inodeBlocks <= sb.bitmapStart
    && sb.bitmapBlocks == 1 && sb.bitmapStart < sb.dataStart
    && 0 < sb.dataBlocks <= BLOCK_BITS && sb.dataStart + sb.dataBlocks <= blocks
  }

  ghost function Inodes(sb: Super, disk: seq<Block>): (r: seq<Inode>)
    requires Laid(sb, |disk|)
    ensures |r| == sb.inodeBlocks * INODES_PER_BLOCK
  {
    seq(sb.inodeBlocks * INODES_PER_BLOCK,
        n requires 0 <= n < sb.inodeBlocks * INODES_PER_BLOCK =>
          InodeIn(disk[sb.inodeStart + n / INODES_PER_BLOCK], n % INODES_PER_BLOCK))
  }

  ghost function Marked(sb: Super, disk: seq<Block>): (r: seq<bool>)
    requires Laid(sb, |disk|)
    ensures |r| == BLOCK_BITS
  {
    seq(BLOCK_BITS, p requires 0 <= p < BLOCK_BITS => BitIn(disk[sb.bitmapStart], p))
  }

  ghost function ViewOf(sb: Super, disk: seq<Block>): Fs
    requires Laid(sb, |disk|)
  {
    Fs(Inodes(sb, disk), Marked(sb, disk), disk[sb.dataStart..sb.dataStart + sb.dataBlocks])
  }

  // ---------------------------------------------------------------- what a block write means

  lemma {:induction false} SavedInode(sb: Super, disk: seq<Block>, n: nat, node: Inode)
    requires Laid(sb, |disk|) && n < |Inodes(sb, disk)| && WellFormed(node)
    ensures var at := sb.inodeStart + n / INODES_PER_BLOCK;
            ViewOf(sb, disk[at := PutInode(disk[at], n % INODES_PER_BLOCK, node)])
            == ViewOf(sb, disk).(inodes := Inodes(sb, disk)[n := node])
  {
    hide PutInode, InodeIn, BitIn;
    var at := sb.inodeStart + n / INODES_PER_BLOCK;
    var after := disk[at := PutInode(disk[at], n % INODES_PER_BLOCK, node)];
    forall m | 0 <= m < |Inodes(sb, disk)| ensures Inodes(sb, after)[m] == Inodes(sb, disk)[n := node][m] {
      if m / INODES_PER_BLOCK == n / INODES_PER_BLOCK {
        InodeLaw(disk[at], n % INODES_PER_BLOCK, node, m % INODES_PER_BLOCK);
      }
    }
    assert Inodes(sb, after) == Inodes(sb, disk)[n := node];
    assert Marked(sb, after) == Marked(sb, disk);
    assert ViewOf(sb, after).data == ViewOf(sb, disk).data;
  }

  lemma {:induction false} MarkedBlock(sb: Super, disk: seq<Block>, p: nat)
    requires Laid(sb, |disk|) && p < BLOCK_BITS
    ensures var at := sb.bitmapStart;
            ViewOf(sb, disk[at := SetBit(disk[at], p)])
            == ViewOf(sb, disk).(marked := Marked(sb, disk)[p := true])
  {
    hide SetBit, InodeIn, BitIn;
    var after := disk[sb.bitmapStart := SetBit(disk[sb.bitmapStart], p)];
    forall q | 0 <= q < BLOCK_BITS ensures Marked(sb, after)[q] == Marked(sb, disk)[p := true][q] {
      BitLaw(disk[sb.bitmapStart], p, q);
    }
    assert Inodes(sb, after) == Inodes(sb, disk);
    assert Marked(sb, after) == Marked(sb, disk)[p := true];
    assert ViewOf(sb, after).data == ViewOf(sb, disk).data;
  }

  lemma {:induction false} UnmarkedBlock(sb: Super, disk: seq<Block>, p: nat)
    requires Laid(sb, |disk|) && p < BLOCK_BITS
    ensures var at := sb.bitmapStart;
            ViewOf(sb, disk[at := DropBit(disk[at], p)])
            == ViewOf(sb, disk).(marked := Marked(sb, disk)[p := false])
  {
    hide DropBit, InodeIn, BitIn;
    var after := disk[sb.bitmapStart := DropBit(disk[sb.bitmapStart], p)];
    forall q | 0 <= q < BLOCK_BITS ensures Marked(sb, after)[q] == Marked(sb, disk)[p := false][q] {
      ClearLaw(disk[sb.bitmapStart], p, q);
    }
    assert Inodes(sb, after) == Inodes(sb, disk);
    assert Marked(sb, after) == Marked(sb, disk)[p := false];
    assert ViewOf(sb, after).data == ViewOf(sb, disk).data;
  }

  lemma {:induction false} StoredBlock(sb: Super, disk: seq<Block>, p: nat, b: Block)
    requires Laid(sb, |disk|) && p < sb.dataBlocks
    ensures ViewOf(sb, disk[sb.dataStart + p := b]) == ViewOf(sb, disk).(data := ViewOf(sb, disk).data[p := b])
  {
    hide InodeIn, BitIn;
    var after := disk[sb.dataStart + p := b];
    assert Inodes(sb, after) == Inodes(sb, disk);
    assert Marked(sb, after) == Marked(sb, disk);
    assert ViewOf(sb, after).data == ViewOf(sb, disk).data[p := b];
  }

  // ---------------------------------------------------------------- formatting

  // One direct block, holding one item.
  function RootInode(): Inode {
    Inode(1, ITEM_SIZE, [1, 0, 0, 0, 0, 0], 0)
  }

  ghost predicate Wiped(sb: Super, disk: seq<Block>) {
    && Laid(sb, |disk|) && sb.dataBlocks >= 2 && disk[sb.dataStart] == Zeros() && disk[sb.bitmapStart] == Zeros()
    && forall at :: sb.inodeStart <= at < sb.inodeStart + sb.inodeBlocks ==> disk[at] == Zeros()
  }

  lemma {:induction false} EmptyView(sb: Super, disk: seq<Block>)
    requires Wiped(sb, disk)
    ensures forall n :: 0 <= n < |Inodes(sb, disk)| ==> Inodes(sb, disk)[n] == BlankInode()
    ensures forall p :: 0 <= p < BLOCK_BITS ==> !Marked(sb, disk)[p]
  {
    forall n | 0 <= n < |Inodes(sb, disk)| ensures Inodes(sb, disk)[n] == BlankInode() {
      ZeroInodes(n % INODES_PER_BLOCK);
      assert disk[sb.inodeStart + n / INODES_PER_BLOCK] == Zeros();
    }
    forall p | 0 <= p < BLOCK_BITS ensures !Marked(sb, disk)[p] {
      ZeroBitmap(p);
    }
  }

  // The three writes that create the root directory, as steps on the view.
  lemma {:induction false} FormatSteps(sb: Super, disk: seq<Block>, b: Block)
    requires Wiped(sb, disk)
    ensures ViewOf(sb, disk[sb.bitmapStart := SetBit(SetBit(Zeros(), 0), 1)]
                   [sb.inodeStart := PutInode(Zeros(), 0, RootInode())][sb.dataStart + 1 := b])
            == Fs(Inodes(sb, disk)[0 := RootInode()], Marked(sb, disk)[0 := true][1 := true],
                  ViewOf(sb, disk).data[1 := b])
  {
    hide SetBit, PutInode, Inodes, Marked;
    MarkedBlock(sb, disk, 0);
    var d1 := disk[sb.bitmapStart := SetBit(Zeros(), 0)];
    MarkedBlock(sb, d1, 1);
    assert d1[sb.bitmapStart := SetBit(d1[sb.bitmapStart], 1)]
        == disk[sb.bitmapStart := SetBit(SetBit(Zeros(), 0), 1)];
    var d2 := disk[sb.bitmapStart := SetBit(SetBit(Zeros(), 0), 1)];
    assert d2[sb.inodeStart] == Zeros();
    SavedInode(sb, d2, 0, RootInode());
    var d3 := d2[sb.inodeStart := PutInode(Zeros(), 0, RootInode())];
    StoredBlock(sb, d3, 1, b);
  }

  lemma {:induction false} FormatMeets(sb: Super, disk: seq<Block>, after: seq<Block>)
    requires Wiped(sb, disk)
    requires after == disk[sb.bitmapStart := Zeros()[0 := 3]][sb.inodeStart := PutInode(Zeros(), 0, RootInode())]
                          [sb.dataStart + 1 := PutItem(Zeros(), 0, 0, ITEM_DIR, [0x2e])]
    ensures var fs := ViewOf(sb, after);
            && Owned(fs) && |fs.inodes| > 0 && fs.inodes[0] == RootInode()
            && (forall n :: 0 < n < |fs.inodes| ==> fs.inodes[n] == BlankInode())
            && (forall p: nat :: p in Free(fs) <==> 1 < p < sb.dataBlocks)
            && Content(fs, 0, 0) == PutItem(Zeros(), 0, 0, ITEM_DIR, [0x2e]) && NoLeak(fs)
  {
    hide SetBit, PutInode, PutItem, Inodes, Marked, NoLeak;
    var b := PutItem(Zeros(), 0, 0, ITEM_DIR, [0x2e]);
    ByteThree();
    EmptyView(sb, disk);
    FormatSteps(sb, disk, b);
    var fs := ViewOf(sb, after);
    assert fs.data == ViewOf(sb, disk).data[1 := b];
    FreshOwned(fs);
    assert PtrOK(fs, Direct(0, 0));
  }

  // ---------------------------------------------------------------- the volume

  class Volume {
    const sb: Super
    var disk: seq<Block>

    ghost function View(): Fs
      reads this
      requires Laid(sb, |disk|)
    {
      ViewOf(sb, disk)
    }

    ghost predicate Valid()
      reads this
    {
      Laid(sb, |disk|) && Owned(View()) && InUse(View(), 0)
    }

    // diskfs_volume_format and diskfs_volume_open. The device must hold one
    // block more than it reports: the superblock is not subtracted. Data block
    // 0 must already be zero: nothing writes it.
    constructor Format(device: seq<Block>, nblocks: nat)
      requires 31 <= nblocks && nblocks - FORMAT_INODE_BLOCKS < BLOCK_BITS && nblocks + 1 <= |device|
      requires device[2 + FORMAT_INODE_BLOCKS] == Zeros()
      ensures Valid() && sb.dataBlocks == nblocks - 29
      ensures |View().inodes| == FORMAT_INODE_BLOCKS * INODES_PER_BLOCK
      ensures View().inodes[0] == RootInode()
      ensures forall n :: 0 < n < |View().inodes| ==> View().inodes[n] == BlankInode()
      ensures forall p: nat :: p in Free(View()) <==> 1 < p < sb.dataBlocks
      ensures Content(View(), 0, 0) == PutItem(Zeros(), 0, 0, ITEM_DIR, [0x2e]) && NoLeak(View())
    {
      hide Owned, Inodes, Marked, SetBit, PutInode, PutItem, Content, IsKey, Shaped;
      var remaining := nblocks - FORMAT_INODE_BLOCKS;
      var bitmapBlocks := 1 + remaining / BLOCK_BITS;
      sb := Super(1, FORMAT_INODE_BLOCKS, 1 + FORMAT_INODE_BLOCKS, bitmapBlocks,
                  1 + FORMAT_INODE_BLOCKS + bitmapBlocks, remaining - bitmapBlocks);
      disk := device;
      new;
      ZeroBlocks(sb.inodeStart, sb.inodeBlocks);
      ZeroBlocks(sb.bitmapStart, sb.bitmapBlocks);
      ghost var wiped := disk;
      disk := disk[sb.bitmapStart := Zeros()[0 := 3]];
      disk := disk[sb.inodeStart := PutInode(Zeros(), 0, RootInode())];
      disk := disk[sb.dataStart + 1 := PutItem(Zeros(), 0, 0, ITEM_DIR, [0x2e])];
      FormatMeets(sb, wiped, disk);
    }

    // The two loops of the formatter, each from the last block down.
    method ZeroBlocks(start: nat, count: nat)
      requires start + count <= |disk|
      modifies this
      ensures |disk| == |old(disk)|
      ensures forall at :: 0 <= at < |disk| ==>
                disk[at] == if start <= at < start + count then Zeros() else old(disk)[at]
    {
      var i := count - 1;
      while i >= 0
        invariant -1 <= i < count && |disk| == |old(disk)|
        invariant forall at :: 0 <= at < |disk| ==>
                    disk[at] == if start + i < at < start + count then Zeros() else old(disk)[at]
      {
        disk := disk[start + i := Zeros()];
        i := i - 1;
      }
    }

    // ---------------------------------------------------------------- data blocks

    // A read outside the area leaves the buffer alone.
    method DataBlockRead(b: Block, blockno: nat) returns (c: Block, r: int)
      requires Laid(sb, |disk|)
      ensures blockno < |View().data| ==> r == BLOCK_SIZE && c == View().data[blockno]
      ensures blockno >= |View().data| ==> r == KERROR_OUT_OF_SPACE && c == b
    {
      if blockno >= sb.dataBlocks {
        return b, KERROR_OUT_OF_SPACE;
      }
      return disk[sb.dataStart + blockno], BLOCK_SIZE;
    }

    method DataBlockWrite(b: Block, blockno: nat) returns (r: int)
      requires Laid(sb, |disk|)
      modifies this
      ensures Laid(sb, |disk|)
      ensures blockno < |old(View()).data| ==>
                r == BLOCK_SIZE && View() == old(View()).(data := old(View()).data[blockno := b])
      ensures blockno >= |old(View()).data| ==> r == KERROR_OUT_OF_SPACE && disk == old(disk)
    {
      if blockno >= sb.dataBlocks {
        return KERROR_OUT_OF_SPACE;
      }
      StoredBlock(sb, disk, blockno, b);
      disk := disk[sb.dataStart + blockno := b];
      r := BLOCK_SIZE;
    }

    // diskfs_data_block_alloc: the lowest unmarked block, never block zero.
    method DataBlockAlloc() returns (p: Word)
      requires Laid(sb, |disk|)
      modifies this
      ensures Laid(sb, |disk|)
      ensures p == 0 ==> disk == old(disk) && Free(old(View())) == {}
      ensures p != 0 ==>
                && p in Free(old(View())) && (forall q :: q in Free(old(View())) ==> p <= q)
                && View() == old(View()).(marked := old(View()).marked[p := true])
    {
      hide SetBit, BitIn, Inodes;
      var i := 0;
      while i < sb.bitmapBlocks
        invariant 0 <= i <= 1 && disk == old(disk)
        invariant i == 1 ==> NoneBelow(BLOCK_BITS)
      {
        var b := disk[sb.bitmapStart + i];
        var j := 0;
        while j < BLOCK_SIZE
          invariant 0 <= j <= BLOCK_SIZE && disk == old(disk) && NoneBelow(8 * j)
        {
          var k := 0;
          while k < 8
            invariant 0 <= k <= 8 && disk == old(disk) && NoneBelow(8 * j + k)
          {
            BitClear(b, j, k);
            if And(Pow2(k), b[j]) == 0 {
              var blockno := i * BLOCK_SIZE + j * 8 + k;
              if blockno != 0 {
                if blockno >= sb.dataBlocks {
                  break;
                }
                MarkedBlock(sb, disk, blockno);
                disk := disk[sb.bitmapStart + i := SetBit(b, blockno)];
                return blockno;
              }
            }
            k := k + 1;
          }
          assert NoneBelow(8 * (j + 1));
          j := j + 1;
        }
        i := i + 1;
      }
      p := 0;
    }

    ghost predicate NoneBelow(n: nat)
      reads this
      requires Laid(sb, |disk|)
    {
      forall q :: q in Free(View()) ==> n <= q
    }

    // diskfs_data_block_free. The division is by bytes, not bits, so numbers
    // from 4096 on fall outside the bitmap and nothing is cleared.
    method DataBlockFree(blockno: nat)
      requires Laid(sb, |disk|)
      modifies this
      ensures Laid(sb, |disk|)
      ensures blockno < BLOCK_SIZE ==> View() == old(View()).(marked := old(View()).marked[blockno := false])
      ensures blockno >= BLOCK_SIZE ==> disk == old(disk)
      ensures 0 < blockno < sb.dataBlocks && blockno !in Free(old(View())) ==>
                (blockno in Free(View()) <==> blockno < BLOCK_SIZE)
    {
      hide DropBit, BitIn, Inodes;
      var bitmapBlock := blockno / BLOCK_SIZE;
      var bitmapByte := blockno % BLOCK_SIZE / 8;
      var bitmapBit := blockno % BLOCK_SIZE % 8;
      if bitmapBlock < sb.bitmapBlocks {
        UnmarkedBlock(sb, disk, blockno);
        ClearBytes(disk[sb.bitmapStart], blockno);
        var b := disk[sb.bitmapStart + bitmapBlock];
        PowMonotone(bitmapBit + 1, 8);
        ByteBound();
        b := b[bitmapByte := And(b[bitmapByte], Not(Pow2(bitmapBit)))];
        disk := disk[sb.bitmapStart + bitmapBlock := b];
      }
    }

    // ---------------------------------------------------------------- inodes

    // diskfs_inumber_alloc: the first inode not in use; 0 when there is none.
    method InumberAlloc() returns (n: Word)
      requires Laid(sb, |disk|) && InUse(View(), 0)
      modifies this
      ensures Laid(sb, |disk|)
      ensures n == 0 ==> disk == old(disk) && forall m :: 0 <= m < |View().inodes| ==> InUse(View(), m)
      ensures n != 0 ==>
                && n < |old(View()).inodes| && !InUse(old(View()), n)
                    && (forall m :: 0 <= m < n ==> InUse(old(View()), m))
                && View() == old(View()).(inodes := old(View()).inodes[n := old(View()).inodes[n].(inuse := 1)])
    {
      hide InodeIn, PutInode, Inodes, Marked;
      var i := 0;
      while i < sb.inodeBlocks
        invariant 0 <= i <= sb.inodeBlocks && disk == old(disk)
        invariant forall m :: 0 <= m < INODES_PER_BLOCK * i ==> InUse(View(), m)
      {
        var b := disk[sb.inodeStart + i];
        var j := 0;
        while j < INODES_PER_BLOCK
          invariant 0 <= j <= INODES_PER_BLOCK && disk == old(disk)
          invariant forall m :: 0 <= m < INODES_PER_BLOCK * i + j ==> InUse(View(), m)
        {
          ghost var m := INODES_PER_BLOCK * i + j;
          Position(i, j);
          if InodeIn(b, j).inuse == 0 {
            SavedInode(sb, disk, m, InodeIn(b, j).(inuse := 1));
            disk := disk[sb.inodeStart + i := PutInode(b, j, InodeIn(b, j).(inuse := 1))];
            return i * INODES_PER_BLOCK + j;
          }
          j := j + 1;
        }
        i := i + 1;
      }
      n := 0;
    }

    lemma Position(i: nat, j: nat)
      requires i < sb.inodeBlocks && j < INODES_PER_BLOCK
      requires Laid(sb, |disk|)
      ensures var m := INODES_PER_BLOCK * i + j;
              && m / INODES_PER_BLOCK == i && m % INODES_PER_BLOCK == j && m < |View().inodes|
              && View().inodes[m] == InodeIn(disk[sb.inodeStart + i], j)
    {
    }

    method InodeLoad(n: nat) returns (node: Inode)
      requires Laid(sb, |disk|) && n < |View().inodes|
      ensures node == View().inodes[n] && WellFormed(node)
    {
      node := InodeIn(disk[sb.inodeStart + n / INODES_PER_BLOCK], n % INODES_PER_BLOCK);
    }

    method InodeSave(n: nat, node: Inode)
      requires Laid(sb, |disk|) && n < |View().inodes| && WellFormed(node)
      modifies this
      ensures Laid(sb, |disk|) && View() == old(View()).(inodes := old(View()).inodes[n := node])
    {
      hide InodeIn, PutInode;
      SavedInode(sb, disk, n, node);
      var at := sb.inodeStart + n / INODES_PER_BLOCK;
      disk := disk[at := PutInode(disk[at], n % INODES_PER_BLOCK, node)];
    }
  }

  // The view after formatting is owned: its one pointer names block 1.
  lemma {:induction false} FreshOwned(fs: Fs)
    requires Shaped(fs) && |fs.inodes| > 0 && |fs.data| >= 2 && fs.marked[1]
    requires fs.inodes[0] == RootInode()
    requires forall n :: 0 < n < |fs.inodes| ==> fs.inodes[n] == BlankInode()
    ensures Owned(fs) && ((forall p: nat :: 1 < p < |fs.data| ==> p in Free(fs)) ==> NoLeak(fs))
  {
    assert IsKey(fs, Direct(0, 0)) && Ptr(fs, Direct(0, 0)) == 1;
    assert Pointed(fs, 1);
    forall p: nat | 1 < p < |fs.data| && p in Free(fs) ensures !fs.marked[p] {
    }
    forall k | IsKey(fs, k) ensures Ptr(fs, k) == if k == Direct(0, 0) then 1 else 0 {
      if k.Entry? {
        ZeroPointers(k.i);
      }
    }
    forall k ensures PtrOK(fs, k) {
    }
    forall k, l ensures Apart(fs, k, l) {
    }
  }

  lemma ByteThree()
    ensures SetBit(SetBit(Zeros(), 0), 1) == Zeros()[0 := 3]
  {
    assert Pow2(0) == 1 && Pow2(1) == 2;
    assert Or(0, 1) == 1 by { assert Or(0, 0) == 0; }
    assert Or(1, 2) == 3 by { assert Or(0, 1) == 1; }
  }

  lemma ClearBytes(b: Block, p: nat)
    requires p < BLOCK_SIZE
    ensures Pow2(p % 8) < MODULUS
    ensures DropBit(b, p) == b[p / 8 := And(b[p / 8], Not(Pow2(p % 8)))]
  {
    ByteBound();
    PowMonotone(p % 8, 8);
  }

  // A volume of 4171 data blocks, all handed out up to number 4096; giving that one back
  // does not make it free again.
  method BlockNotFreed() returns (v: Volume, p: Word)
    ensures fresh(v) && Laid(v.sb, |v.disk|) && 0 < p < v.sb.dataBlocks && p !in Free(v.View())
  {
    hide Free, Owned, InUse, Content;
    v := new Volume.Format(seq(4300, i => Zeros()), 4200);
    p := 1;
    while p != BLOCK_SIZE
      invariant 1 <= p <= BLOCK_SIZE && Laid(v.sb, |v.disk|) && v.sb.dataBlocks == 4171
      invariant forall q: nat :: q in Free(v.View()) <==> p < q < v.sb.dataBlocks
      decreases BLOCK_SIZE - p
    {
      ghost var fs := v.View();
      assert p + 1 in Free(fs);
      p := v.DataBlockAlloc();
      FreeMarked(fs, p);
    }
    v.DataBlockFree(p);
  }

  lemma FreeMarked(fs: Fs, p: nat)
    requires |fs.marked| == BLOCK_BITS && |fs.data| <= BLOCK_BITS && p < BLOCK_BITS
    ensures Free(fs.(marked := fs.marked[p := true])) == Free(fs) - {p}
  {
  }
}

// diskfs.h: the views of one 4096-byte block (inodes, directory items, block
// pointers, bitmap bits) as little-endian bytes, and the laws that let the
// rest of the file system forget the bytes.
module DiskBlocks {
  import opened Words

  const BLOCK_SIZE := 4096
  const DIRECT_POINTERS := 6
  const INODE_SIZE := 36
  const INODES_PER_BLOCK := 113
  const ITEM_SIZE := 32
  const ITEMS_PER_BLOCK := 128
  const POINTERS_PER_BLOCK := 1024
  const BLOCK_BITS := 32768
  const NAME_MAX := 26

  const ITEM_BLANK: Byte := 0
  const ITEM_FILE: Byte := 1
  const ITEM_DIR: Byte := 2

  type Byte = x: nat | x < 256
  type Bytes = seq<Byte>
  type Block = b: seq<Byte> | |b| == BLOCK_SIZE witness seq(BLOCK_SIZE, i => 0)

  function Zeros(): Block {
    seq(BLOCK_SIZE, i => 0)
  }

  // ---------------------------------------------------------------- words

  function WordAt(b: Bytes, off: nat): (v: Word)
    requires off + 4 <= |b|
  {
    var b0: nat, b1: nat, b2: nat, b3: nat := b[off], b[off + 1], b[off + 2], b[off + 3];
    b0 + 0x100 * (b1 + 0x100 * (b2 + 0x100 * b3))
  }

  function WordBytes(v: Word): (r: Bytes)
    ensures |r| == 4 && WordAt(r, 0) == v
  {
    var v1 := v / 0x100;
    var v2 := v1 / 0x100;
    [v % 0x100, v1 % 0x100, v2 % 0x100, v2 / 0x100]
  }

  function WordsBytes(ws: seq<Word>): (r: Bytes)
    ensures |r| == 4 * |ws|
  {
    if ws == [] then [] else WordBytes(ws[0]) + WordsBytes(ws[1..])
  }

  lemma {:induction false} WordsAt(ws: seq<Word>, i: nat)
    requires i < |ws|
    ensures WordAt(WordsBytes(ws), 4 * i) == ws[i]
    decreases i
  {
    var r := WordsBytes(ws);
    var tail := WordsBytes(ws[1..]);
    if i == 0 {
      assert WordAt(r, 0) == WordAt(WordBytes(ws[0]), 0);
    } else {
      WordsAt(ws[1..], i - 1);
      assert WordAt(r, 4 * i) == WordAt(tail, 4 * (i - 1));
    }
  }

  // memcpy of e into b at off.
  function Splice(b: Bytes, off: nat, e: Bytes): (r: Bytes)
    requires off + |e| <= |b|
    ensures |r| == |b|
    ensures forall k :: 0 <= k < |b| ==> r[k] == if off <= k < off + |e| then e[k - off] else b[k]
  {
    b[..off] + e + b[off + |e|..]
  }

  lemma WordInside(b: Bytes, off: nat, e: Bytes, k: nat)
    requires off + |e| <= |b| && k + 4 <= |e|
    ensures WordAt(Splice(b, off, e), off + k) == WordAt(e, k)
  {
    assert forall i :: 0 <= i < |e| ==> Splice(b, off, e)[off + i] == e[i];
  }

  lemma WordOutside(b: Bytes, off: nat, e: Bytes, at: nat)
    requires off + |e| <= |b| && at + 4 <= |b| && (at + 4 <= off || off + |e| <= at)
    ensures WordAt(Splice(b, off, e), at) == WordAt(b, at)
  {
  }

  // ---------------------------------------------------------------- pointers

  function PointerIn(b: Block, i: nat): Word
    requires i < POINTERS_PER_BLOCK
  {
    WordAt(b, 4 * i)
  }

  function PutPointer(b: Block, i: nat, v: Word): Block
    requires i < POINTERS_PER_BLOCK
  {
    Splice(b, 4 * i, WordBytes(v))
  }

  lemma PointerLaw(b: Block, i: nat, v: Word, j: nat)
    requires i < POINTERS_PER_BLOCK && j < POINTERS_PER_BLOCK
    ensures PointerIn(PutPointer(b, i, v), j) == if i == j then v else PointerIn(b, j)
  {
    if i == j {
      WordInside(b, 4 * i, WordBytes(v), 0);
    } else {
      WordOutside(b, 4 * i, WordBytes(v), 4 * j);
    }
  }

  lemma ZeroPointers(i: nat)
    requires i < POINTERS_PER_BLOCK
    ensures PointerIn(Zeros(), i) == 0
  {
  }

  // ---------------------------------------------------------------- inodes

  datatype Inode = Inode(inuse: Word, size: Word, direct: seq<Word>, indirect: Word)

  ghost predicate WellFormed(n: Inode) {
    |n.direct| == DIRECT_POINTERS
  }

  function BlankInode(): Inode {
    Inode(0, 0, [0, 0, 0, 0, 0, 0], 0)
  }

  // The nine words of struct diskfs_inode, in order.
  function Fields(n: Inode): (r: seq<Word>)
    requires WellFormed(n)
    ensures |r| == 9
  {
    [n.inuse, n.size] + n.direct + [n.indirect]
  }

  function FieldsIn(b: Block, j: nat): (r: seq<Word>)
    requires j < INODES_PER_BLOCK
    ensures |r| == 9
  {
    seq(9, w requires 0 <= w < 9 => WordAt(b, INODE_SIZE * j + 4 * w))
  }

  function InodeIn(b: Block, j: nat): (n: Inode)
    requires j < INODES_PER_BLOCK
    ensures WellFormed(n) && Fields(n) == FieldsIn(b, j)
  {
    var f := FieldsIn(b, j);
    Inode(f[0], f[1], f[2..8], f[8])
  }

  function PutInode(b: Block, j: nat, n: Inode): Block
    requires j < INODES_PER_BLOCK && WellFormed(n)
  {
    Splice(b, INODE_SIZE * j, WordsBytes(Fields(n)))
  }

  lemma {:induction false} InodeLaw(b: Block, i: nat, n: Inode, j: nat)
    requires i < INODES_PER_BLOCK && j < INODES_PER_BLOCK && WellFormed(n)
    ensures InodeIn(PutInode(b, i, n), j) == if i == j then n else InodeIn(b, j)
  {
    hide WordAt, WordsBytes, Splice;
    var c := PutInode(b, i, n);
    var want := if i == j then n else InodeIn(b, j);
    forall w: nat | w < 9 ensures FieldsIn(c, j)[w] == Fields(want)[w] {
      if i == j {
        WordInside(b, INODE_SIZE * i, WordsBytes(Fields(n)), 4 * w);
        WordsAt(Fields(n), w);
      } else {
        WordOutside(b, INODE_SIZE * i, WordsBytes(Fields(n)), INODE_SIZE * j + 4 * w);
        assert FieldsIn(b, j)[w] == Fields(want)[w];
      }
    }
    SameFields(InodeIn(c, j), want);
  }

  lemma SameFields(m: Inode, n: Inode)
    requires WellFormed(m) && WellFormed(n) && Fields(m) == Fields(n)
    ensures m == n
  {
    var f, g := Fields(m), Fields(n);
    assert f[0] == g[0] && f[1] == g[1] && f[8] == g[8];
    assert m.direct == f[2..8] && n.direct == g[2..8];
  }

  lemma ZeroInodes(j: nat)
    requires j < INODES_PER_BLOCK
    ensures InodeIn(Zeros(), j) == BlankInode()
  {
    assert FieldsIn(Zeros(), j) == Fields(BlankInode());
    SameFields(InodeIn(Zeros(), j), BlankInode());
  }

  // ---------------------------------------------------------------- directory items

  datatype Item = Item(inumber: Word, kind: Byte, nameLength: Byte, chars: Bytes)

  function ItemIn(b: Block, j: nat): (r: Item)
    requires j < ITEMS_PER_BLOCK
    ensures |r.chars| == NAME_MAX
  {
    var at := ITEM_SIZE * j;
    Item(WordAt(b, at), b[at + 4], b[at + 5], b[at + 6..at + ITEM_SIZE])
  }

  // The four assignments that fill an item; the rest of chars keeps its bytes.
  function PutItem(b: Block, j: nat, inumber: Word, kind: Byte, name: Bytes): Block
    requires j < ITEMS_PER_BLOCK && |name| <= NAME_MAX
  {
    Splice(b, ITEM_SIZE * j, WordBytes(inumber) + [kind, |name|] + name)
  }

  // diskfs_name_equals, for a name without a zero byte.
  predicate NameIs(r: Item, name: Bytes) {
    r.nameLength == |name| && |name| <= |r.chars| && r.chars[..|name|] == name
  }

  lemma ItemLaw(b: Block, i: nat, inumber: Word, kind: Byte, name: Bytes, j: nat)
    requires i < ITEMS_PER_BLOCK && j < ITEMS_PER_BLOCK && |name| <= NAME_MAX
    ensures var r := ItemIn(PutItem(b, i, inumber, kind, name), j);
            if i == j then r.inumber == inumber && r.kind == kind && NameIs(r, name) else r == ItemIn(b, j)
  {
    hide WordAt, WordBytes;
    var e := WordBytes(inumber) + [kind, |name|] + name;
    var at := ITEM_SIZE * i;
    var c := Splice(b, at, e);
    if i == j {
      WordInside(b, at, e, 0);
      WordPrefix(inumber, [kind, |name|] + name);
      assert e == WordBytes(inumber) + ([kind, |name|] + name);
      assert c[at + 4] == e[4] && c[at + 5] == e[5];
      var chars := ItemIn(c, i).chars;
      forall k | 0 <= k < |name| ensures chars[k] == name[k] {
        assert chars[k] == c[at + 6 + k] && e[6 + k] == name[k];
      }
    } else {
      WordOutside(b, at, e, ITEM_SIZE * j);
      assert c[ITEM_SIZE * j + 6..ITEM_SIZE * j + ITEM_SIZE] == b[ITEM_SIZE * j + 6..ITEM_SIZE * j + ITEM_SIZE];
    }
  }

  lemma WordPrefix(v: Word, rest: Bytes)
    ensures WordAt(WordBytes(v) + rest, 0) == v
  {
    assert forall k :: 0 <= k < 4 ==> (WordBytes(v) + rest)[k] == WordBytes(v)[k];
  }

  // ---------------------------------------------------------------- bitmap

  predicate BitIn(b: Block, p: nat)
    requires p < BLOCK_BITS
  {
    HasBit(b[p / 8], p % 8)
  }

  lemma ByteBound()
    ensures Pow2(8) == 256
  {
    assert Pow2(4) == 16 && Pow2(8) == 2 * (2 * (2 * (2 * Pow2(4))));
  }

  function SetBit(b: Block, p: nat): Block
    requires p < BLOCK_BITS
  {
    ByteBound();
    PowMonotone(p % 8 + 1, 8);
    OrBound(b[p / 8], Pow2(p % 8), 8);
    b[p / 8 := Or(b[p / 8], Pow2(p % 8))]
  }

  lemma BitLaw(b: Block, p: nat, q: nat)
    requires p < BLOCK_BITS && q < BLOCK_BITS
    ensures BitIn(SetBit(b, p), q) <==> p == q || BitIn(b, q)
  {
    if p / 8 == q / 8 {
      OrBit(b[p / 8], Pow2(p % 8), q % 8);
      PowBit(p % 8, q % 8);
      assert p == 8 * (p / 8) + p % 8 && q == 8 * (q / 8) + q % 8;
    }
  }

  function DropBit(b: Block, p: nat): Block
    requires p < BLOCK_BITS
  {
    ByteBound();
    PowMonotone(p % 8, 8);
    b[p / 8 := And(b[p / 8], Not(Pow2(p % 8)))]
  }

  lemma ClearLaw(b: Block, p: nat, q: nat)
    requires p < BLOCK_BITS && q < BLOCK_BITS
    ensures BitIn(DropBit(b, p), q) <==> p != q && BitIn(b, q)
  {
    if p / 8 == q / 8 {
      PowBound(p % 8, WORD_BITS);
      AndBit(b[p / 8], Not(Pow2(p % 8)), q % 8);
      ComplementBit(Pow2(p % 8), WORD_BITS, q % 8);
      PowBit(p % 8, q % 8);
      assert p == 8 * (p / 8) + p % 8 && q == 8 * (q / 8) + q % 8;
    }
  }

  // The test !((1<<k) & byte) of the allocator.
  lemma BitClear(b: Block, j: nat, k: nat)
    requires j < BLOCK_SIZE && k < 8
    ensures And(Pow2(k), b[j]) == 0 <==> !BitIn(b, 8 * j + k)
  {
    assert (8 * j + k) / 8 == j && (8 * j + k) % 8 == k;
    AndBit(Pow2(k), b[j], k);
    PowBit(k, k);
    if And(Pow2(k), b[j]) == 0 {
      ZeroBits(k);
    } else {
      var i := BitScan(And(Pow2(k), b[j]));
      AndBit(Pow2(k), b[j], i);
      PowBit(k, i);
    }
  }

  lemma ZeroBitmap(p: nat)
    requires p < BLOCK_BITS
    ensures !BitIn(Zeros(), p)
  {
    ZeroBits(p % 8);
  }
}

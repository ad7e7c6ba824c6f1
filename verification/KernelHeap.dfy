// kmalloc.c: a first-fit allocator over a doubly linked list of chunk headers
// kept in the arena itself.
module KernelHeap {
  import opened Blocks

  const STATE_FREE := 0xa1a1a1a1
  const STATE_USED := 0xbfbfbfbf

  // struct kmalloc_chunk; a null pointer is 0.
  datatype Header = Header(state: int, length: int, next: int, prev: int)

  // Memory by address. Where no header was ever written the word is unknown
  // and taken not to be one of the two states.
  function At(mem: map<int, Header>, a: int): Header
  {
    if a in mem then mem[a] else Header(0, 0, 0, 0)
  }

  function AddrAt(b: seq<Block>, i: int): int
  {
    if 0 <= i < |b| then b[i].addr else 0
  }

  function HeaderOf(b: seq<Block>, i: nat): Header
    requires i < |b|
  {
    Header(if b[i].used then STATE_USED else STATE_FREE, b[i].len, AddrAt(b, i + 1), AddrAt(b, i - 1))
  }

  // The headers in memory are those of the blocks, in order.
  ghost predicate HeaderAt(mem: map<int, Header>, b: seq<Block>, i: int)
  {
    0 <= i < |b| ==> b[i].addr in mem && mem[b[i].addr] == HeaderOf(b, i)
  }

  ghost predicate Linked(mem: map<int, Header>, b: seq<Block>)
  {
    forall i :: HeaderAt(mem, b, i)
  }

  // The header of block j is the same in both memories.
  ghost predicate Kept(mem: map<int, Header>, after: map<int, Header>, b: seq<Block>, j: int)
  {
    0 <= j < |b| ==> b[j].addr in after && after[b[j].addr] == At(mem, b[j].addr)
  }

  ghost predicate KeptBut(mem: map<int, Header>, after: map<int, Header>, b: seq<Block>, i: int, k: int)
  {
    forall j :: j != i && j != k ==> Kept(mem, after, b, j)
  }

  ghost predicate PrevSet(mem: map<int, Header>, after: map<int, Header>, b: seq<Block>, j: int, p: int)
  {
    0 <= j < |b| ==> b[j].addr in after && after[b[j].addr] == At(mem, b[j].addr).(prev := p)
  }

  lemma {:induction false} ChangeOne(mem: map<int, Header>, b: seq<Block>, c: seq<Block>, lo: int, hi: int, i: nat)
    requires Tiles(b, lo, hi) && Linked(mem, b) && |c| == |b| && i < |b| && c == b[i := c[i]] && c[i].addr == b[i].addr
    ensures Linked(mem[b[i].addr := HeaderOf(c, i)], c)
  {
    hide Tiles;
    var after := mem[b[i].addr := HeaderOf(c, i)];
    forall j ensures HeaderAt(after, c, j) {
      if 0 <= j < |b| {
        assert HeaderAt(mem, b, j);
        if b[j].addr == b[i].addr {
          SameAddress(b, lo, hi, i, j);
        }
      }
    }
  }

  // Splitting block i: a new header behind it, linked between it and its old
  // successor.
  ghost predicate SplitDone(mem: map<int, Header>, after: map<int, Header>, b: seq<Block>, i: nat, need: int)
    requires i < |b|
  {
    var x := b[i];
    && KeptBut(mem, after, b, i, i + 1) && PrevSet(mem, after, b, i + 1, x.addr + need)
    && x.addr + need in after
    && after[x.addr + need] == Header(STATE_FREE, x.len - need, AddrAt(b, i + 1), x.addr)
    && x.addr in after && after[x.addr] == Header(STATE_USED, need, x.addr + need, AddrAt(b, i - 1))
  }

  lemma {:induction false} SplitLinked(mem: map<int, Header>, after: map<int, Header>, b: seq<Block>, i: nat, need: int)
    requires Linked(mem, b) && i < |b| && b[i].len - need > 2 * KUNIT && SplitDone(mem, after, b, i, need)
    ensures Linked(after, Carve(b, i, need))
  {
    var c := Carve(b, i, need);
    forall j ensures HeaderAt(after, c, j) {
      if 0 <= j < i {
        assert HeaderAt(mem, b, j) && Kept(mem, after, b, j);
      } else if i + 1 < j < |c| {
        assert c[j] == b[j - 1];
        assert HeaderAt(mem, b, j - 1);
        assert j - 1 != i + 1 ==> Kept(mem, after, b, j - 1);
      }
    }
  }

  // Block i swallowing block i + 1: its length and next change, and the prev
  // of the block after.
  ghost predicate JoinDone(mem: map<int, Header>, after: map<int, Header>, b: seq<Block>, i: nat)
    requires i + 1 < |b|
  {
    && KeptBut(mem, after, b, i, i + 2) && PrevSet(mem, after, b, i + 2, b[i].addr)
    && b[i].addr in after
    && after[b[i].addr] == At(mem, b[i].addr).(length := b[i].len + b[i + 1].len, next := AddrAt(b, i + 2))
  }

  lemma {:induction false} JoinLinked(mem: map<int, Header>, after: map<int, Header>, b: seq<Block>, i: nat)
    requires Linked(mem, b) && i + 1 < |b| && JoinDone(mem, after, b, i)
    ensures Linked(after, Join(b, i))
  {
    var c := Join(b, i);
    forall j ensures HeaderAt(after, c, j) {
      if 0 <= j <= i {
        assert HeaderAt(mem, b, j);
        assert j != i ==> Kept(mem, after, b, j);
      } else if i < j < |c| {
        assert c[j] == b[j + 1];
        assert HeaderAt(mem, b, j + 1);
        assert j + 1 != i + 2 ==> Kept(mem, after, b, j + 1);
      }
    }
  }

  class KernelHeap {
    var mem: map<int, Header>
    var head: int
    ghost var blocks: seq<Block>
    ghost const lo: int
    ghost const hi: int

    ghost predicate Valid()
      reads this
    {
      && 0 < lo && hi - lo <= INT_MAX
      && Canonical(blocks, lo, hi) && Linked(mem, blocks) && head == lo
    }

    // kmalloc_init
    constructor (start: int, length: int)
      requires 0 < start && KUNIT <= length <= INT_MAX
      ensures Valid() && lo == start && hi == start + length
      ensures blocks == [Block(start, length, false)]
    {
      head := start;
      mem := map[start := Header(STATE_FREE, length, 0, 0)];
      blocks := [Block(start, length, false)];
      lo := start;
      hi := start + length;
    }

    method Kmalloc(length: int) returns (p: int)
      requires Valid() && -15 <= length <= MAX_REQUEST
      modifies this
      ensures Valid() && blocks == Allocated(old(blocks), Request(length))
      ensures var i := FirstFit(old(blocks), Request(length), 0);
              p == if i < |old(blocks)| then old(blocks)[i].addr + KUNIT else 0
    {
      hide Request, Carve, Tiles, NoFreePair, Linked;
      RequestCovers(length);
      FirstBlock();
      var need := Request(length);
      var c := head;
      ghost var i := 0;
      while c != 0
        invariant unchanged(this) && 0 <= i <= |blocks| && c == AddrAt(blocks, i)
        invariant FirstFit(blocks, need, 0) == FirstFit(blocks, need, i)
        decreases |blocks| - i
      {
        HeadersOf(i);
        HeadersOf(i + 1);
        if mem[c].state == STATE_FREE && mem[c].length >= need {
          break;
        }
        c := mem[c].next;
        i := i + 1;
      }
      HeadersOf(i);
      if c == 0 {
        return 0;
      }
      CarveCanonical(blocks, lo, hi, i, need);
      Take(c, need, i);
      p := c + KUNIT;
    }

    // The second half of kmalloc: split if more than two headers would remain,
    // then mark the chunk used.
    method Take(c: int, need: int, ghost i: nat)
      requires Valid() && KUNIT <= need && i < |blocks| && c == blocks[i].addr && Fits(blocks[i], need)
      requires Canonical(Carve(blocks, i, need), lo, hi)
      modifies this
      ensures Valid() && blocks == Carve(old(blocks), i, need)
    {
      hide Tiles, NoFreePair, Linked, Carve;
      ghost var b := blocks;
      HeadersOf(i);
      HeadersOf(i + 1);
      CarveFirst(b, i, need);
      if mem[c].length - need > 2 * KUNIT {
        var n := c + need;
        Outside(b, i, n);
        AddressesDiffer(b, i, i + 1);
        mem := mem[n := Header(STATE_FREE, mem[c].length - need, mem[c].next, c)];
        if mem[c].next != 0 {
          mem := mem[mem[c].next := mem[mem[c].next].(prev := n)];
        }
        mem := mem[c := mem[c].(next := n)];
        mem := mem[c := mem[c].(length := need)];
        mem := mem[c := mem[c].(state := STATE_USED)];
        OthersKept(old(mem), mem, b, i, i + 1, n);
        SplitLinked(old(mem), mem, b, i, need);
      } else {
        mem := mem[c := mem[c].(state := STATE_USED)];
        TakenWhole(b, i, need);
        ChangeOne(old(mem), b, Carve(b, i, need), lo, hi, i);
      }
      blocks := Carve(b, i, need);
    }

    lemma FirstBlock()
      requires Valid()
      ensures |blocks| > 0 && head == AddrAt(blocks, 0)
    {
    }

    lemma {:induction false} NoneAtNull()
      requires Tiles(blocks, lo, hi) && lo > 0
      ensures forall j :: 0 <= j < |blocks| ==> blocks[j].addr != 0
    {
      forall j | 0 <= j < |blocks| ensures blocks[j].addr != 0 {
        InArena(blocks, lo, hi, j);
      }
    }

    lemma HeadersOf(i: nat)
      requires Tiles(blocks, lo, hi) && Linked(mem, blocks) && lo > 0
      ensures i < |blocks| ==> blocks[i].addr in mem && mem[blocks[i].addr] == HeaderOf(blocks, i) && blocks[i].addr > 0
    {
      if i < |blocks| {
        InArena(blocks, lo, hi, i);
        assert HeaderAt(mem, blocks, i);
      }
    }

    // kfree. A pointer whose header is not in use is reported and ignored.
    method Kfree(p: int)
      requires Valid()
      requires Find(blocks, p, 0) < |blocks| || At(mem, p - KUNIT).state != STATE_USED
      modifies this
      ensures Valid() && blocks == Freed(old(blocks), p)
    {
      hide Tiles, NoFreePair, Linked, Released;
      var c := p - KUNIT;
      ghost var i := Find(blocks, p, 0);
      HeadersOf(i);
      if At(mem, c).state != STATE_USED {
        return;
      }
      ReleasedMeets(blocks, lo, hi, i);
      Release(c, i);
    }

    method Release(c: int, ghost i: nat)
      requires Valid() && i < |blocks| && blocks[i].used && c == blocks[i].addr
      requires Canonical(Released(blocks, i), lo, hi)
      modifies this
      ensures Valid() && blocks == Released(old(blocks), i)
    {
      hide Tiles, NoFreePair, Linked, JoinPrev, JoinNext;
      ghost var b := blocks;
      HeadersOf(i);
      MarkFreeLive(b, lo, hi, i);
      ChangeOne(mem, b, MarkFree(b, i), lo, hi, i);
      mem := mem[c := mem[c].(state := STATE_FREE)];
      blocks := MarkFree(b, i);
      MergeNext(c, i);
      MergePrev(c, i);
    }

    method MergeNext(c: int, ghost i: nat)
      requires Tiles(blocks, lo, hi) && Linked(mem, blocks) && lo > 0
      requires i < |blocks| && c == blocks[i].addr && !blocks[i].used
      modifies this`mem, this`blocks
      ensures blocks == JoinNext(old(blocks), i) && Tiles(blocks, lo, hi) && Linked(mem, blocks)
      ensures i < |blocks| && blocks[i].addr == c && !blocks[i].used
    {
      hide Tiles, Linked;
      ghost var b := blocks;
      HeadersOf(i);
      HeadersOf(i + 1);
      HeadersOf(i + 2);
      if mem[c].next != 0 && mem[mem[c].next].state == STATE_FREE {
        NoneAtNull();
        JoinTiles(b, lo, hi, i);
        AddressesDiffer(b, i, i + 1);
        AddressesDiffer(b, i, i + 2);
        mem := mem[c := mem[c].(length := mem[c].length + mem[mem[c].next].length)];
        mem := mem[c := mem[c].(next := mem[mem[c].next].next)];
        if mem[c].next != 0 {
          mem := mem[mem[c].next := mem[mem[c].next].(prev := c)];
        }
        OthersKept(old(mem), mem, b, i, i + 2, 0);
        JoinLinked(old(mem), mem, b, i);
        blocks := Join(b, i);
      }
    }

    method MergePrev(c: int, ghost i: nat)
      requires Tiles(blocks, lo, hi) && Linked(mem, blocks) && lo > 0
      requires i < |blocks| && c == blocks[i].addr && !blocks[i].used
      modifies this`mem, this`blocks
      ensures blocks == JoinPrev(old(blocks), i) && Tiles(blocks, lo, hi) && Linked(mem, blocks)
    {
      hide Tiles, Linked;
      ghost var b := blocks;
      HeadersOf(i);
      HeadersOf(i + 1);
      if i > 0 {
        HeadersOf(i - 1);
      }
      if mem[c].prev != 0 && mem[mem[c].prev].state == STATE_FREE {
        var p := mem[c].prev;
        NoneAtNull();
        JoinTiles(b, lo, hi, i - 1);
        AddressesDiffer(b, i - 1, i);
        AddressesDiffer(b, i - 1, i + 1);
        mem := mem[p := mem[p].(length := mem[p].length + mem[c].length)];
        mem := mem[p := mem[p].(next := mem[c].next)];
        if mem[c].next != 0 {
          mem := mem[mem[c].next := mem[mem[c].next].(prev := p)];
        }
        OthersKept(old(mem), mem, b, i - 1, i + 1, 0);
        JoinLinked(old(mem), mem, b, i - 1);
        blocks := Join(b, i - 1);
      }
    }

    // Memory that changed only at blocks i and k, and at n where no block is.
    lemma {:induction false} OthersKept(before: map<int, Header>, after: map<int, Header>, b: seq<Block>, i: int,
          k: int, n: int)
      requires Tiles(b, lo, hi) && Linked(before, b)
      requires forall j :: 0 <= j < |b| ==> b[j].addr != n
      requires forall a :: a in before && a != AddrAt(b, i) && a != AddrAt(b, k) && a != n ==>
                 a in after && after[a] == before[a]
      requires lo > 0
      ensures KeptBut(before, after, b, i, k)
    {
      hide Tiles;
      forall j | j != i && j != k ensures Kept(before, after, b, j) {
        AddressesDiffer(b, i, j);
        AddressesDiffer(b, k, j);
        if 0 <= j < |b| {
          InArena(b, lo, hi, j);
          assert HeaderAt(before, b, j);
        }
      }
    }

    lemma {:induction false} AddressesDiffer(b: seq<Block>, i: int, j: int)
      requires Tiles(b, lo, hi)
      ensures 0 <= i < |b| && 0 <= j < |b| && i != j ==> b[i].addr != b[j].addr
    {
      if 0 <= i < |b| && 0 <= j < |b| && b[i].addr == b[j].addr {
        SameAddress(b, lo, hi, i, j);
      }
    }

    // No block starts inside block i.
    lemma {:induction false} Outside(b: seq<Block>, i: nat, a: int)
      requires Tiles(b, lo, hi) && i < |b| && b[i].addr < a < b[i].addr + b[i].len
      ensures forall j :: 0 <= j < |b| ==> b[j].addr != a
    {
      forall j | 0 <= j < |b| ensures b[j].addr != a {
        if j < i {
          Ordered(b, lo, hi, j, i);
        } else if i < j {
          Ordered(b, lo, hi, i, j);
        }
      }
    }

    lemma TakenWhole(b: seq<Block>, i: nat, need: int)
      requires i < |b| && b[i].len - need <= 2 * KUNIT
      ensures Carve(b, i, need) == b[i := b[i].(used := true)]
    {
    }

    lemma CarveFirst(b: seq<Block>, i: nat, need: int)
      requires Tiles(b, lo, hi) && i < |b|
      ensures |Carve(b, i, need)| > 0 && Carve(b, i, need)[0].addr == lo
    {
    }
  }
}

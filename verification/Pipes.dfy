// pipe.c: a ring of bytes between writers and readers. A method runs from one
// wait point to the next, so any interleaving of calls is an interleaving of
// blocking readers and writers.
module Pipes {

  const PIPE_SIZE := 4096

  type Byte = x: int | 0 <= x < 256

  // The n bytes of the ring from position from on.
  function Ring(b: seq<Byte>, from: nat, n: nat): (r: seq<Byte>)
    requires |b| == PIPE_SIZE && from < PIPE_SIZE
    ensures |r| == n
  {
    seq(n, i requires 0 <= i < n => b[(from + i) % PIPE_SIZE])
  }

  function Count(readPos: int, writePos: int): (n: nat)
    ensures n < PIPE_SIZE
  {
    (writePos - readPos) % PIPE_SIZE
  }

  // The write position comes right after the bytes of the ring.
  lemma RingEnds(r: nat, w: nat, i: nat)
    requires r < PIPE_SIZE && w < PIPE_SIZE && i <= Count(r, w)
    ensures (r + i) % PIPE_SIZE == w <==> i == Count(r, w)
  {
    var n := Count(r, w);
    assert n == if r <= w then w - r else w + PIPE_SIZE - r;
    assert (r + i) % PIPE_SIZE == if r + i < PIPE_SIZE then r + i else r + i - PIPE_SIZE;
  }

  lemma CountMore(r: nat, w: nat)
    requires r < PIPE_SIZE && w < PIPE_SIZE && Count(r, w) < PIPE_SIZE - 1
    ensures Count(r, (w + 1) % PIPE_SIZE) == Count(r, w) + 1
  {
  }

  // Storing at the write position appends, as long as the ring is not full.
  lemma StoreAppends(b: seq<Byte>, r: nat, w: nat, x: Byte)
    requires |b| == PIPE_SIZE && r < PIPE_SIZE && w < PIPE_SIZE && Count(r, w) < PIPE_SIZE - 1
    ensures Count(r, (w + 1) % PIPE_SIZE) == Count(r, w) + 1
    ensures Ring(b[w := x], r, Count(r, w) + 1) == Ring(b, r, Count(r, w)) + [x]
  {
    hide Count;
    CountMore(r, w);
    var n := Count(r, w);
    var after := Ring(b[w := x], r, n + 1);
    var want := Ring(b, r, n) + [x];
    forall i | 0 <= i < n + 1 ensures after[i] == want[i] {
      RingEnds(r, w, i);
    }
  }

  // Reading at the read position takes the first byte.
  lemma FetchTakes(b: seq<Byte>, r: nat, w: nat)
    requires |b| == PIPE_SIZE && r < PIPE_SIZE && w < PIPE_SIZE && r != w
    ensures Count((r + 1) % PIPE_SIZE, w) == Count(r, w) - 1
    ensures Ring(b, r, Count(r, w)) == [b[r]] + Ring(b, (r + 1) % PIPE_SIZE, Count(r, w) - 1)
  {
    hide Count;
    CountNext(r, w);
    var n := Count(r, w);
    var all := Ring(b, r, n);
    var want := [b[r]] + Ring(b, (r + 1) % PIPE_SIZE, n - 1);
    forall i | 0 <= i < n ensures all[i] == want[i] {
      RingStep(r, i);
    }
  }

  lemma CountNext(r: nat, w: nat)
    requires r < PIPE_SIZE && w < PIPE_SIZE && r != w
    ensures Count((r + 1) % PIPE_SIZE, w) == Count(r, w) - 1 && Count(r, w) > 0
  {
  }

  lemma RingStep(r: nat, i: nat)
    requires r < PIPE_SIZE && i < PIPE_SIZE
    ensures i > 0 ==> ((r + 1) % PIPE_SIZE + (i - 1)) % PIPE_SIZE == (r + i) % PIPE_SIZE
    ensures i == 0 ==> (r + i) % PIPE_SIZE == r
  {
  }

  lemma FullIs(r: nat, w: nat)
    requires r < PIPE_SIZE && w < PIPE_SIZE
    ensures (w + 1) % PIPE_SIZE == r <==> Count(r, w) == PIPE_SIZE - 1
    ensures w == r <==> Count(r, w) == 0
  {
  }

  // The guard of the non-blocking write: right unless the read position is 0.
  lemma GuardIs(r: nat, w: nat)
    requires r < PIPE_SIZE && w < PIPE_SIZE
    ensures r != 0 ==> (w == CMod(r - 1) <==> Count(r, w) == PIPE_SIZE - 1)
    ensures r == 0 ==> CMod(r - 1) < 0
  {
  }

  // One step of a loop keeps the bytes in order.
  lemma StoreFifo(b: seq<Byte>, r: nat, w: nat, x: Byte, stored: seq<Byte>, delivered: seq<Byte>)
    requires |b| == PIPE_SIZE && r < PIPE_SIZE && w < PIPE_SIZE && Count(r, w) < PIPE_SIZE - 1
    requires stored == delivered + Ring(b, r, Count(r, w))
    ensures var n := Count(r, (w + 1) % PIPE_SIZE);
            n == Count(r, w) + 1 && stored + [x] == delivered + Ring(b[w := x], r, n)
  {
    hide Ring, Count;
    StoreAppends(b, r, w, x);
  }

  lemma FetchFifo(b: seq<Byte>, r: nat, w: nat, stored: seq<Byte>, delivered: seq<Byte>)
    requires |b| == PIPE_SIZE && r < PIPE_SIZE && w < PIPE_SIZE && r != w
    requires stored == delivered + Ring(b, r, Count(r, w))
    ensures var r' := (r + 1) % PIPE_SIZE;
            Count(r', w) == Count(r, w) - 1 && stored == delivered + [b[r]] + Ring(b, r', Count(r', w))
  {
    hide Ring, Count;
    FetchTakes(b, r, w);
  }

  function Min(a: int, b: int): int { if a <= b then a else b }

  // A position n bytes further on.
  function Moved(pos: nat, n: nat): nat { (pos + n) % PIPE_SIZE }

  lemma MovedOn(pos: nat, n: nat)
    requires pos < PIPE_SIZE
    ensures Moved(pos, 0) == pos && Moved(pos, n + 1) == (Moved(pos, n) + 1) % PIPE_SIZE
  {
  }

  // How a call stops: it is done, it was cut short by a flush, or it sleeps and
  // will go on from there.
  datatype Stop = Done | Flushed | Sleeps

  class Pipe {
    const buffer: array<Byte>
    var readPos: nat
    var writePos: nat
    var flushed: bool
    ghost var stored: seq<Byte>
    ghost var delivered: seq<Byte>

    ghost predicate Shaped()
      reads this
    {
      buffer.Length == PIPE_SIZE && readPos < PIPE_SIZE && writePos < PIPE_SIZE
    }

    ghost function Contents(): seq<Byte>
      reads this, buffer
      requires Shaped()
    {
      Ring(buffer[..], readPos, Count(readPos, writePos))
    }

    // First in, first out: what was delivered is a prefix of what was stored,
    // and the rest is in the ring.
    ghost predicate Fifo()
      reads this, buffer
    {
      Shaped() && stored == delivered + Contents()
    }

    // pipe_create
    constructor (page: array<Byte>)
      requires page.Length == PIPE_SIZE
      ensures Fifo() && buffer == page && stored == [] && delivered == [] && !flushed && readPos == writePos == 0
    {
      buffer, readPos, writePos, flushed, stored, delivered := page, 0, 0, false, [], [];
    }

    // pipe_flush
    method Flush()
      modifies this`flushed
      ensures flushed
    {
      flushed := true;
    }

    // pipe_write, from byte written0 of data on.
    method Write(data: seq<Byte>, written0: nat) returns (written: nat, stop: Stop)
      requires Fifo() && written0 <= |data|
      modifies this, buffer
      ensures Fifo() && written0 <= written <= |data| && delivered == old(delivered)
      ensures stored == old(stored) + data[written0..written]
      ensures stop.Done? ==> written == |data| && !flushed
      ensures !stop.Done? ==> written < |data| && |Contents()| == PIPE_SIZE - 1
      ensures !flushed && (stop.Flushed? <==> !stop.Done? && old(flushed))
      ensures readPos == old(readPos) && writePos == Moved(old(writePos), written - written0)
    {
      hide Ring, Count, Moved;
      MovedOn(writePos, 0);
      written := written0;
      while written < |data|
        invariant Fifo() && written0 <= written <= |data| && delivered == old(delivered)
        invariant readPos == old(readPos) && writePos == Moved(old(writePos), written - written0)
        invariant stored == old(stored) + data[written0..written] && flushed == old(flushed)
      {
        FullIs(readPos, writePos);
        if (writePos + 1) % PIPE_SIZE == readPos {
          if flushed {
            flushed := false;
            return written, Flushed;
          }
          return written, Sleeps;
        }
        ghost var b, w := buffer[..], writePos;
        StoreFifo(b, readPos, w, data[written], stored, delivered);
        buffer[writePos] := data[written];
        assert buffer[..] == b[w := data[written]];
        MovedOn(old(writePos), written - written0);
        writePos := (writePos + 1) % PIPE_SIZE;
        stored := stored + [data[written]];
        written := written + 1;
      }
      flushed := false;
      stop := Done;
    }

    // pipe_read into dest, from byte read0 on.
    method Read(dest: array<Byte>, size: nat, read0: nat) returns (read: nat, stop: Stop)
      requires Fifo() && read0 <= size <= dest.Length && dest != buffer
      modifies this, dest
      ensures Fifo() && read0 <= read <= size && stored == old(stored)
      ensures delivered == old(delivered) + dest[read0..read]
      ensures forall i :: 0 <= i < dest.Length && !(read0 <= i < read) ==> dest[i] == old(dest[i])
      ensures stop.Done? ==> read == size && !flushed
      ensures !stop.Done? ==> read < size && Contents() == []
      ensures !flushed && (stop.Flushed? <==> !stop.Done? && old(flushed))
      ensures writePos == old(writePos) && readPos == Moved(old(readPos), read - read0)
    {
      hide Ring, Count, Moved;
      MovedOn(readPos, 0);
      read := read0;
      while read < size
        invariant writePos == old(writePos) && readPos == Moved(old(readPos), read - read0)
        invariant Fifo() && read0 <= read <= size && stored == old(stored) && flushed == old(flushed)
        invariant delivered == old(delivered) + dest[read0..read]
        invariant forall i :: 0 <= i < dest.Length && !(read0 <= i < read) ==> dest[i] == old(dest[i])
      {
        FullIs(readPos, writePos);
        if writePos == readPos {
          if flushed {
            flushed := false;
            return read, Flushed;
          }
          return read, Sleeps;
        }
        FetchFifo(buffer[..], readPos, writePos, stored, delivered);
        dest[read] := buffer[readPos];
        MovedOn(old(readPos), read - read0);
        readPos := (readPos + 1) % PIPE_SIZE;
        delivered := delivered + [dest[read]];
        read := read + 1;
      }
      flushed := false;
      stop := Done;
    }

    // pipe_write_nonblock. In C the guard compares with (0 - 1) % 4096 == -1
    // when the read position is 0, and then never sees a full ring: order is
    // kept exactly when that is not the case or the bytes fit. It stores what fits,
    // and everything when the read position is 0.
    method WriteNonblock(data: seq<Byte>) returns (written: nat)
      requires Fifo()
      modifies this, buffer
      ensures Shaped() && written <= |data| && delivered == old(delivered)
      ensures stored == old(stored) + data[..written]
      ensures Fifo() <==> old(readPos) != 0 || |data| <= PIPE_SIZE - 1 - |old(Contents())|
      ensures written == if old(readPos) == 0 then |data| else Min(|data|, PIPE_SIZE - 1 - |old(Contents())|)
      ensures readPos == old(readPos) && writePos == Moved(old(writePos), written) && !flushed
    {
      hide Ring, Count, CMod, Moved;
      MovedOn(writePos, 0);
      written := 0;
      ghost var n0 := |Contents()|;
      GuardIs(readPos, writePos);
      ghost var fits := readPos != 0 || |data| <= PIPE_SIZE - 1 - n0;
      while written < |data| && writePos != CMod(readPos - 1)
        invariant Shaped() && written <= |data| && delivered == old(delivered) && readPos == old(readPos)
        invariant writePos == Moved(old(writePos), written)
        invariant stored == old(stored) + data[..written]
        invariant fits ==> Fifo() && |Contents()| == n0 + written
      {
        GuardIs(readPos, writePos);
        ghost var b, w := buffer[..], writePos;
        if fits {
          StoreFifo(b, readPos, w, data[written], stored, delivered);
        }
        buffer[writePos] := data[written];
        assert buffer[..] == b[w := data[written]];
        MovedOn(old(writePos), written);
        writePos := (writePos + 1) % PIPE_SIZE;
        stored := stored + [data[written]];
        written := written + 1;
      }
      GuardIs(readPos, writePos);
      flushed := false;
    }

    // pipe_read_nonblock
    method ReadNonblock(dest: array<Byte>, size: nat) returns (read: nat)
      requires Fifo() && size <= dest.Length && dest != buffer
      modifies this, dest
      ensures Fifo() && read <= size && stored == old(stored) && delivered == old(delivered) + dest[..read]
      ensures forall i :: read <= i < dest.Length ==> dest[i] == old(dest[i])
      ensures read == Min(size, |old(Contents())|) && (read < size ==> Contents() == [])
      ensures writePos == old(writePos) && readPos == Moved(old(readPos), read) && !flushed
    {
      hide Ring, Count, Moved;
      MovedOn(readPos, 0);
      read := 0;
      while read < size && readPos != writePos
        invariant Fifo() && read <= size && stored == old(stored) && delivered == old(delivered) + dest[..read]
        invariant forall i :: read <= i < dest.Length ==> dest[i] == old(dest[i])
        invariant writePos == old(writePos) && readPos == Moved(old(readPos), read)
        invariant |Contents()| == |old(Contents())| - read
      {
        FetchFifo(buffer[..], readPos, writePos, stored, delivered);
        dest[read] := buffer[readPos];
        MovedOn(old(readPos), read);
        readPos := (readPos + 1) % PIPE_SIZE;
        delivered := delivered + [dest[read]];
        read := read + 1;
      }
      FullIs(readPos, writePos);
      flushed := false;
    }
  }

  // The % of C on a difference that may be negative.
  function CMod(x: int): int {
    if x < 0 then -((-x) % PIPE_SIZE) else x % PIPE_SIZE
  }

  // A new pipe and one non-blocking write of 4096 bytes: the ring looks empty
  // and every byte is lost.
  method Overrun() returns (p: Pipe)
    ensures fresh(p) && p.Shaped() && |p.stored| == PIPE_SIZE && p.delivered == [] && !p.Fifo()
  {
    var page := new Byte[PIPE_SIZE];
    p := new Pipe(page);
    assert p.readPos == 0 && |p.Contents()| == 0;
    var n := p.WriteNonblock(seq(PIPE_SIZE, i => 1));
  }
}

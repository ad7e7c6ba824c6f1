// bcache.c: a bounded write-back cache in front of the block devices. Reads
// and writes behave as on plain devices; flushing makes the devices agree.
module BufferCache {

  const MAX_CACHE_SIZE := 100

  type Data = seq<int>

  // A block of a device.
  datatype Key = Key(device: int, block: int)

  // What the devices hold. A block never written reads as empty data.
  function At(disk: map<Key, Data>, k: Key): Data {
    if k in disk then disk[k] else []
  }

  class Entry {
    const key: Key
    var dirty: int
    var data: Data

    // bcache_entry_create: a zeroed page, and a dirty field nobody sets.
    constructor (k: Key, stale: int, zeros: Data)
      ensures key == k && dirty == stale && data == zeros
    {
      key, dirty, data := k, stale, zeros;
    }
  }

  // The position of the entry for k, from position i on; |c| if there is none.
  function IndexOf(c: seq<Entry>, k: Key, i: nat): (r: nat)
    requires i <= |c|
    ensures i <= r <= |c| && (r < |c| ==> c[r].key == k)
    ensures forall j :: i <= j < r ==> c[j].key != k
    decreases |c| - i
  {
    if i == |c| || c[i].key == k then i else IndexOf(c, k, i + 1)
  }

  ghost predicate KeysUnique(c: seq<Entry>) {
    forall i, j :: 0 <= i < j < |c| ==> c[i].key != c[j].key
  }

  // The devices overlaid by the cached entries.
  ghost function ViewOf(c: seq<Entry>, disk: map<Key, Data>, k: Key): Data
    reads c
  {
    var i := IndexOf(c, k, 0);
    if i < |c| then c[i].data else At(disk, k)
  }

  // A clean entry holds what its device holds.
  ghost predicate InStep(e: Entry, disk: map<Key, Data>)
    reads e
  {
    e.dirty == 0 ==> e.data == At(disk, e.key)
  }

  lemma {:induction false} IndexIs(c: seq<Entry>, k: Key, i: nat, j: nat)
    requires KeysUnique(c) && i < |c| && c[i].key == k && j <= i
    ensures IndexOf(c, k, j) == i
    decreases i - j
  {
    if j < i {
      assert c[j].key != c[i].key;
      IndexIs(c, k, i, j + 1);
    }
  }

  // The blocks in the cache, the one that entered it last in front.
  function KeysOf(c: seq<Entry>): (keys: seq<Key>)
    ensures |keys| == |c| && forall i :: 0 <= i < |c| ==> keys[i] == c[i].key
  {
    seq(|c|, i requires 0 <= i < |c| => c[i].key)
  }

  function Capped(keys: seq<Key>): seq<Key> {
    if |keys| > MAX_CACHE_SIZE then keys[..MAX_CACHE_SIZE] else keys
  }

  // The dirty marks of the entries.
  ghost function MarksOf(c: seq<Entry>): (marks: seq<int>)
    reads c
    ensures |marks| == |c| && forall i :: 0 <= i < |c| ==> marks[i] == c[i].dirty
  {
    seq(|c|, i requires 0 <= i < |c| reads c => c[i].dirty)
  }

  // How many of the first n blocks have to be written back, of one device or of all.
  function DirtyCount(keys: seq<Key>, marks: seq<int>, n: nat, device: int, all: bool): nat
    requires n <= |keys| == |marks|
  {
    if n == 0 then 0
    else
      DirtyCount(keys, marks, n - 1, device, all)
      + if marks[n - 1] != 0 && (all || keys[n - 1].device == device) then 1 else 0
  }

  lemma Others(c: seq<Entry>, n: nat)
    requires KeysUnique(c) && n < |c|
    ensures forall i :: 0 <= i < |c| && i != n ==> c[i] != c[n] && c[i].key != c[n].key
  {
  }

  class BufferCache {
    var cache: seq<Entry>
    var disk: map<Key, Data>
    const faults: map<Key, int>
    var readHits: int
    var readMisses: int
    var writeHits: int
    var writeMisses: int
    var writebacks: int

    ghost function View(k: Key): Data
      reads this, cache
    {
      ViewOf(cache, disk, k)
    }

    ghost predicate Faulty() {
      forall k :: k in faults ==> faults[k] <= 0
    }

    ghost predicate Valid()
      reads this, cache
    {
      && KeysUnique(cache) && |cache| <= MAX_CACHE_SIZE && Faulty()
      && forall e :: e in cache ==> InStep(e, disk)
    }

    // Devices with the given contents; the blocks in bad cannot be read.
    constructor (contents: map<Key, Data>, bad: map<Key, int>)
      requires forall k :: k in bad ==> bad[k] <= 0
      ensures Valid() && disk == contents && faults == bad && cache == []
      ensures forall k :: View(k) == At(contents, k)
    {
      cache, disk, faults := [], contents, bad;
      readHits, readMisses, writeHits, writeMisses, writebacks := 0, 0, 0, 0, 0;
    }

    // bcache_entry_clean
    method EntryClean(e: Entry)
      modifies this`disk, this`writebacks, e`dirty
      ensures e.dirty == 0
      ensures disk == if old(e.dirty) != 0 then old(disk)[e.key := e.data] else old(disk)
      ensures writebacks == old(writebacks) + if old(e.dirty) != 0 then 1 else 0
    {
      if e.dirty != 0 {
        disk := disk[e.key := e.data];
        e.dirty := 0;
        writebacks := writebacks + 1;
      }
    }

    // bcache_trim: eviction from the tail, written back first.
    method Trim(ghost e0: Entry?)
      requires KeysUnique(cache) && Faulty() && (forall e :: e in cache && e != e0 ==> InStep(e, disk))
      requires e0 != null ==> |cache| > 0 && cache[0] == e0
      modifies this`cache, this`disk, this`writebacks, cache
      ensures cache == if |old(cache)| > MAX_CACHE_SIZE then old(cache)[..MAX_CACHE_SIZE] else old(cache)
      ensures KeysUnique(cache)
      ensures |old(cache)| <= MAX_CACHE_SIZE ==> disk == old(disk) && writebacks == old(writebacks)
      ensures |old(cache)| == MAX_CACHE_SIZE + 1 ==>
                writebacks == old(writebacks) + old(if cache[MAX_CACHE_SIZE].dirty != 0 then 1 else 0)
      ensures forall e :: e in cache ==> At(disk, e.key) == At(old(disk), e.key)
      ensures forall e :: e in cache && e != e0 ==> InStep(e, disk)
      ensures forall e :: e in cache ==> e.data == old(e.data) && e.dirty == old(e.dirty)
      ensures forall k :: View(k) == old(View(k))
      ensures e0 != null ==> At(disk, e0.key) == At(old(disk), e0.key)
    {
      ghost var c0 := cache;
      while |cache| > MAX_CACHE_SIZE
        invariant cache <= c0 && KeysUnique(cache) && Faulty()
        invariant |c0| > MAX_CACHE_SIZE ==> |cache| >= MAX_CACHE_SIZE
        invariant |cache| == |c0| ==>
                    writebacks == old(writebacks) && forall e :: e in cache ==> e.dirty == old(e.dirty)
        invariant |cache| + 1 == |c0| ==>
                    writebacks == old(writebacks) + old(if cache[|cache| - 1].dirty != 0 then 1 else 0)
        invariant forall e :: e in cache ==> At(disk, e.key) == At(old(disk), e.key)
        invariant forall e :: e in cache ==> e.data == old(e.data) && e.dirty == old(e.dirty)
        invariant forall e :: e in cache && e != e0 ==> InStep(e, disk)
        invariant forall k :: View(k) == old(View(k))
        invariant e0 != null ==> |cache| > 0 && cache[0] == e0 && At(disk, e0.key) == At(old(disk), e0.key)
        invariant |c0| <= MAX_CACHE_SIZE ==> cache == c0 && disk == old(disk)
      {
        EvictLast(e0);
      }
    }

    method EvictLast(ghost e0: Entry?)
      requires |cache| > 1 && KeysUnique(cache) && (forall e :: e in cache && e != e0 ==> InStep(e, disk))
      requires e0 != null ==> cache[0] == e0
      modifies this`cache, this`disk, this`writebacks, cache
      ensures cache == old(cache)[..|old(cache)| - 1]
      ensures forall e :: e in cache ==> e.data == old(e.data) && e.dirty == old(e.dirty)
      ensures forall e :: e in cache && e != e0 ==> InStep(e, disk)
      ensures forall k :: View(k) == old(View(k))
      ensures writebacks == old(writebacks) + old(if cache[|cache| - 1].dirty != 0 then 1 else 0)
      ensures forall e :: e in cache ==> At(disk, e.key) == At(old(disk), e.key)
      ensures e0 != null ==> At(disk, e0.key) == At(old(disk), e0.key)
    {
      ghost var c0 := cache;
      ghost var d0 := disk;
      var n := |cache| - 1;
      var e := cache[n];
      cache := cache[..n];
      forall x | x in cache ensures x.key != e.key {
        var i :| 0 <= i < n && c0[i] == x;
      }
      assert e0 != null ==> c0[0].key != c0[n].key;
      assert e != e0 && InStep(e, d0);
      EntryClean(e);
      forall x | x in cache && x != e0 ensures InStep(x, disk) {
        assert x in c0 && old(InStep(x, d0));
      }
      forall k ensures View(k) == old(View(k)) {
        if k == e.key {
          IndexIs(c0, k, n, 0);
        } else if IndexOf(c0, k, 0) < |c0| {
          IndexIs(cache, k, IndexOf(c0, k, 0), 0);
        }
      }
    }

    // bcache_find
    method Find(k: Key) returns (e: Entry?)
      ensures e == null <==> IndexOf(cache, k, 0) == |cache|
      ensures e != null ==> e == cache[IndexOf(cache, k, 0)]
    {
      var n := 0;
      while n < |cache|
        invariant 0 <= n <= |cache| && IndexOf(cache, k, 0) == IndexOf(cache, k, n)
      {
        if cache[n].key == k {
          return cache[n];
        }
        n := n + 1;
      }
      e := null;
    }

    // Bringing in block k pushes an entry out that has to be written back.
    ghost function EvictedDirty(k: Key): nat
      reads this, cache
    {
      if IndexOf(cache, k, 0) == |cache| == MAX_CACHE_SIZE && cache[MAX_CACHE_SIZE - 1].dirty != 0 then 1 else 0
    }

    // The new entry in front, before anything is evicted.
    method PushNew(k: Key) returns (e: Entry)
      requires Valid() && IndexOf(cache, k, 0) == |cache|
      modifies this`cache
      ensures fresh(e) && e.key == k && cache == [e] + old(cache) && KeysUnique(cache)
      ensures forall x :: x in cache && x != e ==> InStep(x, disk)
      ensures At(disk, k) == old(View(k)) && forall j :: j != k ==> View(j) == old(View(j))
    {
      var stale: int := *;
      e := new Entry(k, stale, []);
      ghost var c0 := cache;
      cache := [e] + cache;
      PushedView(c0, disk, e);
    }

    // The branch of bcache_find_or_create for a block that is not in the cache.
    method Enter(k: Key) returns (e: Entry)
      requires Valid() && IndexOf(cache, k, 0) == |cache|
      modifies this`cache, this`disk, this`writebacks, cache
      ensures fresh(e) && e.key == k && KeysUnique(cache) && |cache| <= MAX_CACHE_SIZE && cache != [] && cache[0] == e
      ensures forall x :: x in cache ==> x == e || (x in old(cache) && x.data == old(x.data) && x.dirty == old(x.dirty))
      ensures At(disk, k) == old(View(k)) && forall x :: x in cache && x != e ==> InStep(x, disk)
      ensures KeysOf(cache) == Capped([k] + KeysOf(old(cache)))
      ensures forall x :: x in cache ==> At(disk, x.key) == At(old(disk), x.key)
      ensures writebacks == old(writebacks) + old(EvictedDirty(k))
      ensures forall j :: j != k ==> View(j) == old(View(j))
    {
      hide KeysOf, Capped, IndexOf, ViewOf, KeysUnique, EvictedDirty, InStep;
      ghost var c0, victim := cache, |cache| == MAX_CACHE_SIZE && cache[MAX_CACHE_SIZE - 1].dirty != 0;
      assert EvictedDirty(k) == if victim then 1 else 0 by { NotCached(k); }
      e := PushNew(k);
      Trim(e);
      KeysPushed(c0, e);
    }

    lemma NotCached(k: Key)
      requires IndexOf(cache, k, 0) == |cache|
      ensures View(k) == At(disk, k)
      ensures EvictedDirty(k) == if |cache| == MAX_CACHE_SIZE && cache[MAX_CACHE_SIZE - 1].dirty != 0 then 1 else 0
    {
    }

    lemma KeysPushed(c0: seq<Entry>, e: Entry)
      ensures var c := [e] + c0;
              KeysOf(if |c| > MAX_CACHE_SIZE then c[..MAX_CACHE_SIZE] else c) == Capped([e.key] + KeysOf(c0))
    {
    }

    // bcache_find_or_create. A new entry goes to the head and is never the one
    // evicted; until it is filled it hides its own block only.
    method FindOrCreate(k: Key) returns (e: Entry, hit: bool)
      requires Valid()
      modifies this`cache, this`disk, this`writebacks, cache
      ensures hit <==> IndexOf(old(cache), k, 0) < |old(cache)|
      ensures KeysUnique(cache) && |cache| <= MAX_CACHE_SIZE && e in cache && e.key == k
      ensures forall x :: x in cache ==> x == e || (x in old(cache) && x.data == old(x.data) && x.dirty == old(x.dirty))
      ensures hit ==> Valid() && e.data == View(k) == old(View(k)) && e in old(cache)
                      && cache == old(cache) && disk == old(disk)
      ensures !hit ==> fresh(e) && cache[0] == e && At(disk, k) == old(View(k))
      ensures KeysOf(cache) == if hit then KeysOf(old(cache)) else Capped([k] + KeysOf(old(cache)))
      ensures forall x :: x in cache ==> At(disk, x.key) == At(old(disk), x.key)
      ensures writebacks == old(writebacks) + old(EvictedDirty(k))
      ensures forall x :: x in cache && x != e ==> InStep(x, disk)
      ensures forall j :: j != k ==> View(j) == old(View(j))
    {
      hide KeysOf, Capped;
      var found := Find(k);
      if found != null {
        e, hit := found, true;
        Trim(null);
      } else {
        hit := false;
        e := Enter(k);
      }
    }

    // A new entry at the head hides its own key only.
    lemma {:induction false} PushedView(c0: seq<Entry>, d: map<Key, Data>, e: Entry)
      requires KeysUnique(c0) && IndexOf(c0, e.key, 0) == |c0|
      ensures KeysUnique([e] + c0)
      ensures forall j :: j != e.key ==> ViewOf([e] + c0, d, j) == ViewOf(c0, d, j)
    {
      var c := [e] + c0;
      forall j | j != e.key ensures ViewOf(c, d, j) == ViewOf(c0, d, j) {
        var i := IndexOf(c0, j, 0);
        if i < |c0| {
          IndexIs(c, j, i + 1, 0);
        }
      }
    }

    // The entry at the head is dropped or filled: every other block keeps its view.
    lemma {:induction false} HeadOnly(c: seq<Entry>, d: map<Key, Data>)
      requires |c| > 0 && KeysUnique(c)
      ensures KeysUnique(c[1..]) && c[0] !in c[1..]
      ensures forall j :: ViewOf(c[1..], d, j) == if j == c[0].key then At(d, j) else ViewOf(c, d, j)
    {
      forall j ensures ViewOf(c[1..], d, j) == if j == c[0].key then At(d, j) else ViewOf(c, d, j) {
        var i := IndexOf(c[1..], j, 0);
        if i < |c| - 1 {
          IndexIs(c, j, i + 1, 0);
        }
      }
    }

    // Changing the data of entry e changes the view of its block only.
    twostate lemma OnlyOwnBlock(e: Entry)
      requires e in cache && KeysUnique(cache) && cache == old(cache) && disk == old(disk)
      requires forall x :: x in cache && x != e ==> x.data == old(x.data)
      ensures forall j :: View(j) == if j == e.key then e.data else old(View(j))
    {
      var n :| 0 <= n < |cache| && cache[n] == e;
      IndexIs(cache, e.key, n, 0);
    }

    // What a call for block k does to the cache and the devices, besides the block itself:
    // a block that is not cached enters in front and stays unless it could not be read, the
    // last one goes if there are too many, and nothing else is written back or marked.
    twostate predicate Brought(k: Key, failed: bool)
      reads this, cache
    {
      && KeysOf(cache) == (if old(IndexOf(cache, k, 0) < |cache|) then KeysOf(old(cache))
                           else Capped([k] + KeysOf(old(cache)))[if failed then 1 else 0..])
      && writebacks == old(writebacks) + old(EvictedDirty(k))
      && (forall x :: x in cache ==> At(disk, x.key) == At(old(disk), x.key))
      && (forall x :: x in cache && x.key != k ==> x in old(cache) && x.dirty == old(x.dirty))
    }

    lemma KeysRest(c: seq<Entry>)
      ensures KeysOf(c)[0..] == KeysOf(c) && (c != [] ==> KeysOf(c[1..]) == KeysOf(c)[1..])
    {
    }

    // The part of bcache_read_block after the entry has been found or created.
    method Load(e: Entry, k: Key, hit: bool) returns (data: Data, result: int)
      requires KeysUnique(cache) && |cache| <= MAX_CACHE_SIZE && Faulty() && e in cache && e.key == k
      requires forall x :: x in cache && x != e ==> InStep(x, disk)
      requires if hit then InStep(e, disk) else cache[0] == e
      modifies this`cache, this`readHits, this`readMisses, e`data
      ensures Valid() && forall j :: View(j) == if j == k && !hit then At(disk, k) else old(View(j))
      ensures if hit || k !in faults then result == 1 && data == View(k) && cache == old(cache)
              else result == faults[k] && cache == old(cache)[1..]
      ensures readHits == old(readHits) + (if hit then 1 else 0)
      ensures readMisses == old(readMisses) + (if hit then 0 else 1)
    {
      hide IndexOf, ViewOf, KeysUnique;
      data := [];
      if hit {
        readHits := readHits + 1;
        result := 1;
      } else {
        readMisses := readMisses + 1;
        if k in faults {
          result := faults[k];
        } else {
          result := 1;
          e.data := At(disk, k);
        }
      }
      if result > 0 {
        data := e.data;
        OnlyOwnBlock(e);
      } else {
        HeadOnly(cache, disk);
        cache := cache[1..];
      }
    }

    // bcache_read_block: what the view says, or the device's error.
    method ReadBlock(k: Key) returns (data: Data, result: int)
      requires Valid()
      modifies this, cache
      ensures Valid() && forall j :: View(j) == old(View(j))
      ensures result > 0 ==> data == old(View(k))
      ensures result > 0 <==> IndexOf(old(cache), k, 0) < |old(cache)| || k !in faults
      ensures result <= 0 ==> result == faults[k]
      ensures var hit := IndexOf(old(cache), k, 0) < |old(cache)|;
              && readHits == old(readHits) + (if hit then 1 else 0)
              && readMisses == old(readMisses) + (if hit then 0 else 1)
              && writeHits == old(writeHits) && writeMisses == old(writeMisses)
      ensures Brought(k, result <= 0)
      ensures forall i :: 0 <= i < |cache| ==> cache[i] in old(cache) || fresh(cache[i])
    {
      hide IndexOf, ViewOf, KeysUnique, KeysOf, Capped, EvictedDirty, InStep;
      var e, hit := FindOrCreate(k);
      KeysRest(cache);
      data, result := Load(e, k, hit);
    }

    // The part of bcache_write_block after the entry has been found or created.
    method Store(e: Entry, data: Data)
      requires KeysUnique(cache) && |cache| <= MAX_CACHE_SIZE && Faulty() && e in cache
      requires forall x :: x in cache && x != e ==> InStep(x, disk)
      modifies e`data, e`dirty
      ensures Valid() && e.dirty == 1 && forall j :: View(j) == if j == e.key then data else old(View(j))
    {
      hide IndexOf, ViewOf, KeysUnique;
      e.data := data;
      e.dirty := 1;
      OnlyOwnBlock(e);
    }

    // bcache_write_block
    method WriteBlock(k: Key, data: Data) returns (result: int)
      requires Valid()
      modifies this, cache
      ensures Valid() && result == 1
      ensures forall j :: View(j) == if j == k then data else old(View(j))
      ensures var hit := IndexOf(old(cache), k, 0) < |old(cache)|;
              && writeHits == old(writeHits) + (if hit then 1 else 0)
              && writeMisses == old(writeMisses) + (if hit then 0 else 1)
              && readHits == old(readHits) && readMisses == old(readMisses)
      ensures Brought(k, false) && exists x :: x in cache && x.key == k && x.dirty == 1
      ensures forall i :: 0 <= i < |cache| ==> cache[i] in old(cache) || fresh(cache[i])
    {
      hide IndexOf, ViewOf, KeysUnique, KeysOf, Capped, EvictedDirty, InStep, At;
      var e, hit := FindOrCreate(k);
      KeysRest(cache);
      if hit {
        writeHits := writeHits + 1;
      } else {
        writeMisses := writeMisses + 1;
      }
      Store(e, data);
      result := 1;
    }

    // bcache_read: the blocks up to the first that fails.
    method Read(device: int, blocks: nat, offset: int) returns (data: seq<Data>, r: int)
      requires Valid()
      modifies this, cache
      ensures Valid() && forall j :: View(j) == old(View(j))
      ensures |data| <= blocks && (forall i :: 0 <= i < |data| ==> data[i] == old(View(Key(device, offset + i))))
      ensures |data| > 0 ==> r == |data|
      ensures |data| == 0 && blocks > 0 ==> r <= 0
      ensures |data| < blocks ==> Key(device, offset + |data|) in faults
      ensures readHits + readMisses == old(readHits + readMisses) + |data| + (if |data| < blocks then 1 else 0)
      ensures writeHits == old(writeHits) && writeMisses == old(writeMisses)
    {
      hide IndexOf, ViewOf, KeysUnique, Brought;
      data := [];
      r := *;
      var i := 0;
      while i < blocks
        invariant Valid() && i == |data| <= blocks && (forall j :: View(j) == old(View(j)))
        invariant forall n :: 0 <= n < |data| ==> data[n] == old(View(Key(device, offset + n)))
        invariant readHits + readMisses == old(readHits + readMisses) + |data|
        invariant writeHits == old(writeHits) && writeMisses == old(writeMisses)
        invariant forall i :: 0 <= i < |cache| ==> cache[i] in old(cache) || fresh(cache[i])
      {
        var block: Data;
        block, r := ReadBlock(Key(device, offset + i));
        if r < 1 {
          break;
        }
        data := data + [block];
        i := i + 1;
      }
      if |data| > 0 {
        r := |data|;
      }
    }

    // bcache_write. With no blocks the result is whatever r held, here and in bcache_read.
    method Write(device: int, data: seq<Data>, offset: int) returns (r: int)
      requires Valid()
      modifies this, cache
      ensures Valid() && (|data| > 0 ==> r == |data|)
      ensures forall j: Key :: View(j) == if j.device == device && offset <= j.block < offset + |data|
                                     then data[j.block - offset] else old(View(j))
      ensures writeHits + writeMisses == old(writeHits + writeMisses) + |data|
      ensures readHits == old(readHits) && readMisses == old(readMisses)
    {
      hide IndexOf, ViewOf, KeysUnique, Brought;
      r := *;
      var i := 0;
      while i < |data|
        invariant Valid() && 0 <= i <= |data|
        invariant writeHits + writeMisses == old(writeHits + writeMisses) + i
        invariant readHits == old(readHits) && readMisses == old(readMisses)
        invariant forall j: Key :: View(j) == if j.device == device && offset <= j.block < offset + i
                                         then data[j.block - offset] else old(View(j))
        invariant forall i :: 0 <= i < |cache| ==> cache[i] in old(cache) || fresh(cache[i])
      {
        r := WriteBlock(Key(device, offset + i), data[i]);
        if r < 1 {
          break;
        }
        i := i + 1;
      }
      if i > 0 {
        r := i;
      }
    }

    // Cleaning an entry of a valid cache moves no view, and settles its block.
    method Settle(e: Entry)
      requires Valid() && e in cache
      modifies this`disk, this`writebacks, e`dirty
      ensures Valid() && e.dirty == 0 && writebacks == old(writebacks) + if old(e.dirty) != 0 then 1 else 0
      ensures At(disk, e.key) == View(e.key) && forall j :: j != e.key ==> At(disk, j) == At(old(disk), j)
      ensures forall j :: View(j) == old(View(j))
    {
      ghost var n :| 0 <= n < |cache| && cache[n] == e;
      IndexIs(cache, e.key, n, 0);
      assert InStep(e, disk);
      forall x | x in cache && x != e ensures x.key != e.key && InStep(x, disk) {
        var m :| 0 <= m < |cache| && cache[m] == x;
      }
      label Before:
      EntryClean(e);
      forall x | x in cache ensures InStep(x, disk) {
        assert x != e ==> old@Before(InStep(x, disk));
      }
    }

    // bcache_flush_block
    method FlushBlock(k: Key)
      requires Valid()
      modifies this`disk, this`writebacks, cache
      ensures Valid() && (forall j :: View(j) == old(View(j))) && At(disk, k) == View(k)
      ensures forall j :: j != k ==> At(disk, j) == At(old(disk), j)
      ensures forall x :: x in cache ==> x.dirty == if x.key == k then 0 else old(x.dirty)
      ensures var i := IndexOf(cache, k, 0);
              writebacks == old(writebacks) + if i < |cache| && old(cache[i].dirty) != 0 then 1 else 0
    {
      var e := Find(k);
      if e != null {
        Settle(e);
      }
    }

    // With no entry of it to be written back, a block is on its device.
    lemma {:induction false} NothingDirty(device: int, all: bool)
      requires Valid()
      requires forall i :: 0 <= i < |cache| && (all || cache[i].key.device == device) ==> cache[i].dirty == 0
      ensures forall j: Key :: all || j.device == device ==> At(disk, j) == View(j)
    {
      forall j: Key | all || j.device == device ensures At(disk, j) == View(j) {
        var i := IndexOf(cache, j, 0);
        assert i < |cache| ==> InStep(cache[i], disk);
      }
    }

    // bcache_flush_device: the device now holds what its blocks read as, and
    // no other device changed.
    method FlushDevice(device: int)
      requires Valid()
      modifies this`disk, this`writebacks, cache
      ensures Valid() && (forall j :: View(j) == old(View(j)))
      ensures forall j: Key :: At(disk, j) == if j.device == device then View(j) else At(old(disk), j)
      ensures forall x :: x in cache ==> x.dirty == if x.key.device == device then 0 else old(x.dirty)
      ensures writebacks == old(writebacks) + DirtyCount(KeysOf(cache), old(MarksOf(cache)), |cache|, device, false)
    {
      hide IndexOf, ViewOf, KeysUnique, KeysOf, MarksOf, InStep, At;
      ghost var keys, marks := KeysOf(cache), MarksOf(cache);
      var n := 0;
      while n < |cache|
        invariant 0 <= n <= |cache| && Valid() && (forall j :: View(j) == old(View(j)))
        invariant forall j: Key :: j.device != device ==> At(disk, j) == At(old(disk), j)
        invariant forall i :: 0 <= i < |cache| ==>
                    cache[i].dirty == if i < n && cache[i].key.device == device then 0 else marks[i]
        invariant writebacks == old(writebacks) + DirtyCount(keys, marks, n, device, false)
      {
        Others(cache, n);
        var e := cache[n];
        if e.key.device == device {
          Settle(e);
        }
        n := n + 1;
      }
      NothingDirty(device, false);
    }

    // bcache_flush_all
    method FlushAll()
      requires Valid()
      modifies this`disk, this`writebacks, cache
      ensures Valid() && (forall j :: View(j) == old(View(j)))
      ensures forall j :: At(disk, j) == View(j)
      ensures forall x :: x in cache ==> x.dirty == 0
      ensures writebacks == old(writebacks) + DirtyCount(KeysOf(cache), old(MarksOf(cache)), |cache|, 0, true)
    {
      hide IndexOf, ViewOf, KeysUnique, KeysOf, MarksOf, InStep, At;
      ghost var keys, marks := KeysOf(cache), MarksOf(cache);
      var n := 0;
      while n < |cache|
        invariant 0 <= n <= |cache| && Valid() && (forall j :: View(j) == old(View(j)))
        invariant forall i :: 0 <= i < |cache| ==> cache[i].dirty == if i < n then 0 else marks[i]
        invariant writebacks == old(writebacks) + DirtyCount(keys, marks, n, 0, true)
      {
        Others(cache, n);
        Settle(cache[n]);
        n := n + 1;
      }
      NothingDirty(0, true);
    }
  }
}

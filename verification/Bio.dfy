// The buffer cache (bio.c): NBUF buffers on a doubly linked ring through a
// sentinel, most recently released first.  Buffers are named by their index
// in the buffer array; HEAD names the sentinel.
module Bio {
  import opened Basics
  import opened Bytes
  import opened Disk

  const HEAD: nat := NBUF
  const ROOTDEV: nat := 1

  datatype Buf = Buf(valid: bool, locked: bool, dev: nat, blockno: nat, refcnt: nat, data: Block)

  // ---------------------------------------------------------------- the ring

  // The k-th node met when walking the ring from the sentinel.
  function At(order: seq<nat>, k: nat): nat
    requires k <= |order| + 1
  {
    if k == 0 || k == |order| + 1 then HEAD else order[k - 1]
  }

  ghost predicate Distinct(order: seq<nat>) {
    && (forall k :: 0 <= k < |order| ==> order[k] < NBUF)
    && (forall j, k :: 0 <= j < k < |order| ==> order[j] != order[k])
  }

  // Following next from the sentinel visits exactly order, and prev is its inverse.
  ghost predicate IsRing(next: seq<nat>, prev: seq<nat>, order: seq<nat>) {
    && |next| == |prev| == NBUF + 1
    && Distinct(order)
    && (forall k :: 0 <= k <= |order| ==> next[At(order, k)] == At(order, k + 1))
    && (forall k :: 0 <= k <= |order| ==> prev[At(order, k + 1)] == At(order, k))
  }

  function Unlinked(next: seq<nat>, prev: seq<nat>, b: nat): (r: (seq<nat>, seq<nat>))
    requires b < |next| == |prev| && next[b] < |next| && prev[b] < |next|
    ensures |r.0| == |r.1| == |next|
  {
    var prev' := prev[next[b] := prev[b]];
    (next[prev'[b] := next[b]], prev')
  }

  function Pushed(next: seq<nat>, prev: seq<nat>, b: nat): (r: (seq<nat>, seq<nat>))
    requires b < |next| == |prev| == NBUF + 1 && next[HEAD] < |next| && b != HEAD
    ensures |r.0| == |r.1| == |next|
  {
    var first := next[HEAD];
    (next[b := first][HEAD := b], prev[b := HEAD][first := b])
  }

  lemma RingUnlink(next: seq<nat>, prev: seq<nat>, order: seq<nat>, j: nat)
    requires IsRing(next, prev, order) && j < |order|
    ensures next[order[j]] <= NBUF && prev[order[j]] <= NBUF
    ensures IsRing(Unlinked(next, prev, order[j]).0, Unlinked(next, prev, order[j]).1, Without(order, j))
  {
    var b := order[j];
    assert At(order, j + 1) == b;
    assert next[b] == At(order, j + 2) && prev[b] == At(order, j);
    var (n, p) := Unlinked(next, prev, b);
    var rest := Without(order, j);
    forall k | 0 <= k <= |rest|
      ensures n[At(rest, k)] == At(rest, k + 1) && p[At(rest, k + 1)] == At(rest, k)
    {
      var k' := if k <= j then k else k + 1;
      assert At(rest, k) == At(order, k');
      assert At(rest, k + 1) == At(order, if k < j then k + 1 else k + 2);
      assert next[At(order, k')] == At(order, k' + 1);
      assert prev[At(order, k' + 1)] == At(order, k');
    }
  }

  lemma RingPush(next: seq<nat>, prev: seq<nat>, order: seq<nat>, b: nat)
    requires IsRing(next, prev, order) && b < NBUF && b !in order
    ensures next[HEAD] <= NBUF
    ensures IsRing(Pushed(next, prev, b).0, Pushed(next, prev, b).1, [b] + order)
  {
    assert At(order, 0) == HEAD && next[HEAD] == At(order, 1);
    var (n, p) := Pushed(next, prev, b);
    var all := [b] + order;
    forall k | 0 <= k <= |all|
      ensures n[At(all, k)] == At(all, k + 1) && p[At(all, k + 1)] == At(all, k)
    {
      if k >= 1 {
        assert At(all, k + 1) == At(order, k);
        assert k >= 2 ==> At(all, k) == At(order, k - 1) != HEAD;
      }
    }
  }

  // A duplicate-free list of NBUF indices below NBUF misses none of them.
  lemma {:induction false} Pigeonhole(order: seq<nat>, n: nat, i: nat)
    requires |order| == n && i < n
    requires forall k :: 0 <= k < n ==> order[k] < n
    requires forall j, k :: 0 <= j < k < n ==> order[j] != order[k]
    ensures i in order
    decreases n
  {
    var last := order[n - 1];
    if last != i {
      // Drop the last element; it takes the place of n - 1, if that occurs.
      var rest := seq(n - 1, k requires 0 <= k < n - 1 => if order[k] == n - 1 then last else order[k]);
      assert forall k :: 0 <= k < n - 1 ==> order[k] != last;
      Pigeonhole(rest, n - 1, if i < n - 1 then i else last);
      var k :| 0 <= k < n - 1 && rest[k] == if i < n - 1 then i else last;
      assert order[k] == i;
    }
  }

  // Released times do not increase along the ring: the last unreferenced
  // buffer is the least recently used one.
  ghost predicate Ordered(order: seq<nat>, stamp: seq<nat>) {
    && |stamp| == NBUF
    && Distinct(order)
    && (forall j, k :: 0 <= j < k < |order| ==>
          stamp[order[j]] > stamp[order[k]] || stamp[order[j]] == stamp[order[k]] == 0)
  }

  lemma OrderedAfterRelease(order: seq<nat>, stamp: seq<nat>, j: nat, now: nat)
    requires Ordered(order, stamp) && j < |order|
    requires forall i :: 0 <= i < NBUF ==> stamp[i] < now
    ensures Ordered([order[j]] + Without(order, j), stamp[order[j] := now])
  {
  }

  // --------------------------------------------------------------- the cache

  // Buffer i holds block b of the root device.
  predicate Caches(buf: seq<Buf>, i: nat, b: nat)
    requires i < |buf|
  {
    buf[i].dev == ROOTDEV && buf[i].blockno == b
  }

  predicate Cached(buf: seq<Buf>, b: nat) {
    exists i :: 0 <= i < |buf| && Caches(buf, i, b)
  }

  // What bread returns for block b: a valid cached copy, else the disk's.
  ghost function View(buf: seq<Buf>, disk: seq<Block>, b: nat): Block
    requires b < |disk|
  {
    if exists i :: 0 <= i < |buf| && Caches(buf, i, b) && buf[i].valid
    then var i :| 0 <= i < |buf| && Caches(buf, i, b) && buf[i].valid; buf[i].data
    else disk[b]
  }

  // At most one buffer holds a given block of any device other than 0 (the
  // device number of a buffer that was never used).
  ghost predicate Unique(buf: seq<Buf>) {
    forall i, j :: 0 <= i < j < |buf| && buf[i].dev == buf[j].dev != 0 ==> buf[i].blockno != buf[j].blockno
  }

  // A buffer nobody refers to may be recycled, so it must agree with the disk.
  ghost predicate Coherent(buf: seq<Buf>, disk: seq<Block>) {
    forall i :: 0 <= i < |buf| && buf[i].dev == ROOTDEV ==>
      && buf[i].blockno < |disk|
      && (buf[i].valid && buf[i].refcnt == 0 ==> buf[i].data == disk[buf[i].blockno])
      && (buf[i].refcnt > 0 || buf[i].valid)
  }

  lemma ViewOfBuffer(buf: seq<Buf>, disk: seq<Block>, i: nat)
    requires Unique(buf) && i < |buf| && buf[i].dev == ROOTDEV && buf[i].valid && buf[i].blockno < |disk|
    ensures View(buf, disk, buf[i].blockno) == buf[i].data
  {
  }

  // Recycling an unreferenced buffer loses no data: whatever block it held,
  // every block reads the same afterwards.
  lemma RecycleKeepsView(buf: seq<Buf>, buf': seq<Buf>, disk: seq<Block>, v: nat, b: nat)
    requires |buf| == |buf'| && v < |buf| && b < |disk|
    requires Unique(buf) && Coherent(buf, disk) && buf[v].refcnt == 0
    requires forall i :: 0 <= i < |buf| && i != v ==> buf'[i] == buf[i]
    requires buf'[v].dev == ROOTDEV ==>
               buf'[v].blockno < |disk| && !Cached(buf, buf'[v].blockno) && buf'[v].data == disk[buf'[v].blockno]
    ensures View(buf', disk, b) == View(buf, disk, b)
  {
  }

  // Nor does reading a block into the buffer bget gives.
  lemma BreadKeepsView(buf: seq<Buf>, disk: seq<Block>, i: nat, v: Buf)
    requires i < |buf| && Unique(buf) && Coherent(buf, disk) && v.valid && v.dev == ROOTDEV && v.blockno < |disk|
    requires Caches(buf, i, v.blockno) || (buf[i].refcnt == 0 && !Cached(buf, v.blockno))
    requires v.data == if Caches(buf, i, v.blockno) && buf[i].valid then buf[i].data else disk[v.blockno]
    ensures forall b :: 0 <= b < |disk| ==> View(buf[i := v], disk, b) == View(buf, disk, b)
  {
    hide View, Coherent, Unique;
    forall b | 0 <= b < |disk| ensures View(buf[i := v], disk, b) == View(buf, disk, b) {
      if !Caches(buf, i, v.blockno) {
        RecycleKeepsView(buf, buf[i := v], disk, i, b);
      } else if buf[i].valid {
        SameContents(buf, buf[i := v], disk, b);
      } else {
        FillKeepsView(buf, buf[i := v], disk, i, b);
      }
    }
  }

  lemma ReleaseKeepsCoherent(buf: seq<Buf>, disk: seq<Block>, i: nat)
    requires Unique(buf) && Coherent(buf, disk) && i < |buf| && buf[i].valid && buf[i].refcnt > 0
    requires buf[i].dev == ROOTDEV && (buf[i].refcnt == 1 ==> buf[i].data == disk[buf[i].blockno])
    ensures var buf' := buf[i := buf[i].(locked := false, refcnt := buf[i].refcnt - 1)];
            Unique(buf') && Coherent(buf', disk)
  {
  }

  class Bcache {
    const buf: array<Buf>
    const next: array<nat>
    const prev: array<nat>
    const disk: Device
    ghost var order: seq<nat>   // the ring, most recently released first
    ghost var stamp: seq<nat>   // when each buffer was last released to zero
    ghost var now: nat

    ghost predicate Valid()
      reads this, buf, next, prev, disk
    {
      && buf.Length == NBUF
      && next != prev
      && IsRing(next[..], prev[..], order) && |order| == NBUF
      && Ordered(order, stamp) && (forall i :: 0 <= i < NBUF ==> stamp[i] < now)
      && Unique(buf[..])
      && Coherent(buf[..], disk.blocks)
    }

    ghost function Read(b: nat): Block
      reads this, buf, disk
      requires b < |disk.blocks|
    {
      View(buf[..], disk.blocks, b)
    }

    // binit: push every buffer in turn at the front of an empty ring.
    constructor (device: Device)
      ensures Valid() && disk == device
      ensures fresh(this) && fresh(buf) && fresh(next) && fresh(prev)
      ensures forall i :: 0 <= i < NBUF ==> buf[i].refcnt == 0 && !buf[i].locked && buf[i].dev == 0
    {
      disk := device;
      buf := new Buf[NBUF](_ => Buf(false, false, 0, 0, 0, Zeros(BSIZE)));
      next := new nat[NBUF + 1](_ => HEAD);
      prev := new nat[NBUF + 1](_ => HEAD);
      order, stamp, now := [], Zeros(NBUF), 1;
      new;
      assert IsRing(next[..], prev[..], order);
      for b := 0 to NBUF
        invariant IsRing(next[..], prev[..], order) && |order| == b
        invariant forall k :: 0 <= k < b ==> order[k] < b
        invariant stamp == Zeros(NBUF) && now == 1
        invariant forall i :: 0 <= i < NBUF ==> buf[i] == Buf(false, false, 0, 0, 0, Zeros(BSIZE))
      {
        RingPush(next[..], prev[..], order, b);
        ghost var n, p := next[..], prev[..];
        next[b] := next[HEAD];
        prev[b] := HEAD;
        prev[next[HEAD]] := b;
        next[HEAD] := b;
        assert next[..] == Pushed(n, p, b).0 && prev[..] == Pushed(n, p, b).1;
        order := [b] + order;
      }
    }

    // bget: a buffer that already holds the block; else the least recently
    // used unreferenced one; else a panic (None).
    method Bget(dev: nat, blockno: nat) returns (r: Option<nat>)
      requires Valid() && dev != 0 && (dev == ROOTDEV ==> blockno < |disk.blocks|)
      requires forall i :: 0 <= i < NBUF && buf[i].dev == dev && buf[i].blockno == blockno ==> !buf[i].locked
      modifies buf
      ensures IsRing(next[..], prev[..], order) && Unique(buf[..])
      ensures r.None? <==> forall i :: 0 <= i < NBUF ==>
                             old(buf[i].refcnt) > 0 && !(old(buf[i].dev) == dev && old(buf[i].blockno) == blockno)
      ensures r.None? ==> buf[..] == old(buf[..])
      ensures r.Some? ==>
                && r.value < NBUF
                && (forall j :: 0 <= j < NBUF && j != r.value ==> buf[j] == old(buf[j]))
                && buf[r.value].dev == dev && buf[r.value].blockno == blockno && buf[r.value].locked
      ensures r.Some? ==>
                var b := old(buf[r.value]);
                if b.dev == dev && b.blockno == blockno then buf[r.value] == b.(refcnt := b.refcnt + 1, locked := true)
                else
                  && b.refcnt == 0
                  && buf[r.value] == Buf(false, true, dev, blockno, 1, b.data)
                  && (forall i :: 0 <= i < NBUF ==> !(old(buf[i].dev) == dev && old(buf[i].blockno) == blockno))
                  && (forall i :: 0 <= i < NBUF && old(buf[i].refcnt) == 0 ==> stamp[r.value] <= stamp[i])
    {
      r := FindCached(dev, blockno);
      if r.Some? {
        buf[r.value] := buf[r.value].(refcnt := buf[r.value].refcnt + 1, locked := true);
        return;
      }
      r := FindUnused();
      if r.Some? {
        buf[r.value] := Buf(false, true, dev, blockno, 1, buf[r.value].data);
      }
    }

    // The first scan of bget, from the most recently released buffer.
    method FindCached(dev: nat, blockno: nat) returns (r: Option<nat>)
      requires Valid()
      ensures r.None? ==> forall i :: 0 <= i < NBUF ==> !(buf[i].dev == dev && buf[i].blockno == blockno)
      ensures r.Some? ==> r.value < NBUF && buf[r.value].dev == dev && buf[r.value].blockno == blockno
    {
      assert At(order, 0) == HEAD;
      var b := next[HEAD];
      ghost var k := 0;
      while b != HEAD
        invariant 0 <= k <= NBUF && b == At(order, k + 1)
        invariant forall j :: 0 <= j < k ==> !(buf[order[j]].dev == dev && buf[order[j]].blockno == blockno)
        decreases NBUF - k
      {
        if buf[b].dev == dev && buf[b].blockno == blockno {
          return Some(b);
        }
        b, k := next[b], k + 1;
      }
      forall i | 0 <= i < NBUF ensures !(buf[i].dev == dev && buf[i].blockno == blockno) {
        Pigeonhole(order, NBUF, i);
      }
      return None;
    }

    // The second scan of bget, from the least recently released buffer.
    method FindUnused() returns (r: Option<nat>)
      requires Valid()
      ensures r.None? <==> forall i :: 0 <= i < NBUF ==> buf[i].refcnt > 0
      ensures r.Some? ==> r.value < NBUF && buf[r.value].refcnt == 0
      ensures r.Some? ==> forall i :: 0 <= i < NBUF && buf[i].refcnt == 0 ==> stamp[r.value] <= stamp[i]
    {
      assert At(order, NBUF + 1) == HEAD && prev[At(order, NBUF + 1)] == At(order, NBUF);
      var b := prev[HEAD];
      ghost var k := NBUF;
      while b != HEAD
        invariant 0 <= k <= NBUF && b == At(order, k)
        invariant forall j :: k <= j < NBUF ==> buf[order[j]].refcnt > 0
        decreases k
      {
        if buf[b].refcnt == 0 {
          forall i | 0 <= i < NBUF && buf[i].refcnt == 0 ensures stamp[b] <= stamp[i] {
            Pigeonhole(order, NBUF, i);
            var j :| 0 <= j < NBUF && order[j] == i;
            assert j <= k - 1 && order[k - 1] == b;
          }
          return Some(b);
        }
        assert prev[At(order, k)] == At(order, k - 1);
        b, k := prev[b], k - 1;
      }
      forall i | 0 <= i < NBUF ensures buf[i].refcnt > 0 {
        Pigeonhole(order, NBUF, i);
      }
      return None;
    }

    // bread: the locked buffer of a block, with the contents of the block.
    method Bread(blockno: nat) returns (r: Option<nat>)
      requires Valid() && blockno < |disk.blocks|
      requires forall i :: 0 <= i < NBUF && Caches(buf[..], i, blockno) ==> !buf[i].locked
      modifies buf
      ensures Valid()
      ensures r.None? ==> buf[..] == old(buf[..])
      ensures r.None? <==> forall i :: 0 <= i < NBUF ==> old(buf[i].refcnt) > 0 && !old(Caches(buf[..], i, blockno))
      ensures r.Some? ==>
                && r.value < NBUF
                && (forall j :: 0 <= j < NBUF && j != r.value ==> buf[j] == old(buf[j]))
                && (old(Caches(buf[..], r.value, blockno)) ||
                    (old(buf[r.value].refcnt) == 0 && !old(Cached(buf[..], blockno))))
                && buf[r.value] == Buf(true, true, ROOTDEV, blockno, old(buf[r.value].refcnt) + 1, old(Read(blockno)))
      ensures forall b :: 0 <= b < |disk.blocks| ==> Read(b) == old(Read(b))
    {
      hide IsRing, Ordered, Distinct;
      ghost var was := buf[..];
      r := Bget(ROOTDEV, blockno);
      if r.None? {
        return;
      }
      var i := r.value;
      if !buf[i].valid {
        buf[i] := buf[i].(data := disk.blocks[blockno]);
        buf[i] := buf[i].(valid := true);
      }
      assert buf[..] == was[i := buf[i]];
      BreadKeepsView(was, disk.blocks, i, buf[i]);
      ViewOfBuffer(buf[..], disk.blocks, i);
    }

    // bwrite: write a locked buffer to its home block; anything else panics.
    method Bwrite(i: nat)
      requires Valid() && i < NBUF && buf[i].locked && buf[i].dev == ROOTDEV && buf[i].refcnt > 0 && buf[i].valid
      modifies disk
      ensures Valid()
      ensures disk.blocks == old(disk.blocks)[buf[i].blockno := buf[i].data]
      ensures forall b :: 0 <= b < |disk.blocks| ==> Read(b) == old(Read(b))
      ensures disk.trace == old(disk.trace) + [disk.blocks]
    {
      ghost var was := disk.blocks;
      ViewOfBuffer(buf[..], disk.blocks, i);
      disk.Write(buf[i].blockno, buf[i].data);
      ViewOfBuffer(buf[..], disk.blocks, i);
      forall b | 0 <= b < |disk.blocks| && b != buf[i].blockno ensures Read(b) == View(buf[..], was, b) {
        OtherContents(buf[..], buf[..], was, disk.blocks, i, b);
      }
    }

    // The caller of bread changes the contents of the buffer it has locked.
    method Store(i: nat, data: Block)
      requires Valid() && i < NBUF && buf[i].locked && buf[i].refcnt > 0 && buf[i].valid && buf[i].dev == ROOTDEV
      modifies buf
      ensures Valid()
      ensures buf[..] == old(buf[..])[i := old(buf[i]).(data := data)]
      ensures forall b :: 0 <= b < |disk.blocks| ==> Read(b) == if b == buf[i].blockno then data else old(Read(b))
    {
      ghost var was := buf[..];
      buf[i] := buf[i].(data := data);
      forall b | 0 <= b < |disk.blocks|
        ensures Read(b) == if b == buf[i].blockno then data else View(was, disk.blocks, b)
      {
        if b == buf[i].blockno {
          ViewOfBuffer(buf[..], disk.blocks, i);
        } else {
          OtherContents(was, buf[..], disk.blocks, disk.blocks, i, b);
        }
      }
    }

    // brelse: callers have written or pinned a buffer they changed, so the
    // last reference to a buffer is dropped only when it agrees with the disk.
    method Brelse(i: nat)
      requires Valid() && i < NBUF && buf[i].locked && buf[i].valid && buf[i].refcnt > 0
      requires buf[i].dev == ROOTDEV && (buf[i].refcnt == 1 ==> buf[i].data == disk.blocks[buf[i].blockno])
      modifies this, buf, next, prev
      ensures Valid()
      ensures buf[..] == old(buf[..])[i := old(buf[i]).(locked := false, refcnt := old(buf[i].refcnt) - 1)]
      ensures buf[i].refcnt == 0 ==>
                exists j :: 0 <= j < NBUF && old(order)[j] == i && order == [i] + Without(old(order), j)
      ensures buf[i].refcnt > 0 ==> order == old(order) && stamp == old(stamp) && now == old(now)
      ensures |stamp| == NBUF == |old(stamp)|
      ensures buf[i].refcnt == 0 ==> stamp[i] == old(now) < now
      ensures buf[i].refcnt == 0 ==> forall k :: 0 <= k < NBUF && k != i ==> stamp[k] == old(stamp)[k] < stamp[i]
      ensures forall b :: 0 <= b < |disk.blocks| ==> Read(b) == old(Read(b))
    {
      ghost var was := buf[..];
      buf[i] := buf[i].(locked := false);
      buf[i] := buf[i].(refcnt := buf[i].refcnt - 1);
      ReleaseKeepsCoherent(was, disk.blocks, i);
      assert buf[..] == was[i := was[i].(locked := false, refcnt := was[i].refcnt - 1)];
      forall b | 0 <= b < |disk.blocks| ensures Read(b) == View(was, disk.blocks, b) {
        SameContents(was, buf[..], disk.blocks, b);
      }
      if buf[i].refcnt == 0 {
        Pigeonhole(order, NBUF, i);
        ghost var j := ToFront(i);
        OrderedAfterRelease(order, stamp, j, now);
        order := [i] + Without(order, j);
        stamp, now := stamp[i := now], now + 1;
      }
    }

    // Unlink buffer i from the ring and push it at the front.
    method ToFront(i: nat) returns (ghost j: nat)
      requires next != prev && IsRing(next[..], prev[..], order) && i in order
      modifies next, prev
      ensures j < |order| && order[j] == i
      ensures IsRing(next[..], prev[..], [i] + Without(order, j))
    {
      j :| 0 <= j < |order| && order[j] == i;
      ghost var n, p := next[..], prev[..];
      RingUnlink(n, p, order, j);
      prev[next[i]] := prev[i];
      next[prev[i]] := next[i];
      ghost var (n', p') := Unlinked(n, p, i);
      assert next[..] == n' && prev[..] == p';
      RingPush(n', p', Without(order, j), i);
      next[i] := next[HEAD];
      prev[i] := HEAD;
      prev[next[HEAD]] := i;
      next[HEAD] := i;
      assert next[..] == Pushed(n', p', i).0 && prev[..] == Pushed(n', p', i).1;
    }

    method Bpin(i: nat)
      requires Valid() && i < NBUF && buf[i].valid
      modifies buf
      ensures Valid()
      ensures buf[..] == old(buf[..])[i := old(buf[i]).(refcnt := old(buf[i].refcnt) + 1)]
      ensures forall b :: 0 <= b < |disk.blocks| ==> Read(b) == old(Read(b))
    {
      ghost var was := buf[..];
      buf[i] := buf[i].(refcnt := buf[i].refcnt + 1);
      forall b | 0 <= b < |disk.blocks| ensures Read(b) == View(was, disk.blocks, b) {
        SameContents(was, buf[..], disk.blocks, b);
      }
    }

    method Bunpin(i: nat)
      requires Valid() && i < NBUF && buf[i].refcnt > 0 && buf[i].valid
      requires buf[i].dev == ROOTDEV && (buf[i].refcnt == 1 ==> buf[i].data == disk.blocks[buf[i].blockno])
      modifies buf
      ensures Valid()
      ensures buf[..] == old(buf[..])[i := old(buf[i]).(refcnt := old(buf[i].refcnt) - 1)]
      ensures forall b :: 0 <= b < |disk.blocks| ==> Read(b) == old(Read(b))
    {
      ghost var was := buf[..];
      buf[i] := buf[i].(refcnt := buf[i].refcnt - 1);
      forall b | 0 <= b < |disk.blocks| ensures Read(b) == View(was, disk.blocks, b) {
        SameContents(was, buf[..], disk.blocks, b);
      }
    }
  }

  lemma SameContents(buf: seq<Buf>, buf': seq<Buf>, disk: seq<Block>, b: nat)
    requires |buf| == |buf'| && b < |disk| && Unique(buf)
    requires forall i :: 0 <= i < |buf| ==>
               && buf'[i].dev == buf[i].dev && buf'[i].blockno == buf[i].blockno
               && buf'[i].valid == buf[i].valid && buf'[i].data == buf[i].data
    ensures View(buf', disk, b) == View(buf, disk, b)
  {
  }

  // Changing the contents of buffer v, or of its home block on the disk,
  // changes what no other block reads as.
  lemma OtherContents(buf: seq<Buf>, buf': seq<Buf>, disk: seq<Block>, disk': seq<Block>, v: nat, b: nat)
    requires |buf| == |buf'| && |disk| == |disk'| && v < |buf| && b < |disk| && Unique(buf)
    requires buf[v].dev == ROOTDEV && buf[v].blockno < |disk| && b != buf[v].blockno && disk[b] == disk'[b]
    requires forall i :: 0 <= i < |buf| && i != v ==> buf'[i] == buf[i]
    requires buf'[v].dev == buf[v].dev && buf'[v].blockno == buf[v].blockno
    ensures View(buf', disk', b) == View(buf, disk, b)
  {
  }

  // Reading a cached but not yet valid buffer from the disk.
  lemma FillKeepsView(buf: seq<Buf>, buf': seq<Buf>, disk: seq<Block>, v: nat, b: nat)
    requires |buf| == |buf'| && v < |buf| && b < |disk| && Unique(buf)
    requires forall i :: 0 <= i < |buf| && i != v ==> buf'[i] == buf[i]
    requires buf[v].dev == buf'[v].dev == ROOTDEV && buf[v].blockno == buf'[v].blockno < |disk|
    requires !buf[v].valid && buf'[v].valid && buf'[v].data == disk[buf[v].blockno]
    ensures View(buf', disk, b) == View(buf, disk, b)
  {
  }
}

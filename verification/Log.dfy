// The redo log over the buffer cache (log.c).  A buffer is referenced once by
// the operation that has it locked and once by the log if its block is logged.
module Log {
  import opened Basics
  import opened Bytes
  import opened Disk
  import opened Bio
  import opened LogSpec
  import P = LogProtocol

  // ------------------------------------------------------------ pinned buffers

  predicate Logs(b: Buf, targets: seq<nat>) { b.dev == ROOTDEV && b.blockno in targets }

  // The references to a buffer that are not the log's.
  function Held(b: Buf, targets: seq<nat>): int {
    b.refcnt - if Logs(b, targets) then 1 else 0
  }

  // The log refers once to each logged block, which is in the cache; all other
  // references belong to processes, and a locked buffer has one of these.
  ghost predicate Pinned(buf: seq<Buf>, targets: seq<nat>) {
    && (forall i :: 0 <= i < |buf| ==>
          && (buf[i].dev == 0 || buf[i].dev == ROOTDEV)
          && Held(buf[i], targets) >= if buf[i].locked then 1 else 0)
    && (forall t :: t in targets ==> exists i :: 0 <= i < |buf| && Caches(buf, i, t) && buf[i].valid)
  }

  // bread can take a buffer for a block that is not cached.
  ghost predicate Spare(buf: seq<Buf>) {
    exists i :: 0 <= i < |buf| && buf[i].refcnt == 0
  }

  // No process holds a buffer.
  ghost predicate Idle(buf: seq<Buf>) {
    forall i :: 0 <= i < |buf| ==> buf[i].refcnt == 0 && !buf[i].locked
  }

  // During a commit a process outside any operation may hold buffers, but it
  // only reads them: none of the log's own blocks, and a logged block only
  // until the commit wants it.
  ghost predicate Calm(buf: seq<Buf>, disk: seq<Block>, a: Area, targets: seq<nat>) {
    forall i :: 0 <= i < |buf| && buf[i].dev == ROOTDEV && buf[i].blockno < |disk| ==>
      && (a.Has(buf[i].blockno) ==> buf[i].refcnt == 0 && !buf[i].locked)
      && (buf[i].blockno in targets ==> !buf[i].locked)
      && (buf[i].valid && buf[i].blockno !in targets ==> buf[i].data == disk[buf[i].blockno])
  }

  // Every process still has the references it had.
  ghost predicate Kept(buf: seq<Buf>, targets: seq<nat>, buf': seq<Buf>, targets': seq<nat>) {
    |buf| == |buf'| && forall i :: 0 <= i < |buf| ==> Held(buf'[i], targets') == Held(buf[i], targets)
  }

  // The buffers referenced by processes alone.
  function Borrowed(buf: seq<Buf>, targets: seq<nat>): set<nat> {
    set i: nat | i < |buf| && buf[i].refcnt > 0 && !Logs(buf[i], targets)
  }

  lemma OneBuffer(buf: seq<Buf>, targets: seq<nat>, i: nat, j: nat)
    requires Unique(buf) && targets != [] && i < |buf| && Caches(buf, i, targets[0]) && j < |buf|
    ensures Logs(buf[j], targets) <==> Logs(buf[j], targets[1..]) || j == i
  {
    assert targets == [targets[0]] + targets[1..];
  }

  // The buffers of the pinned blocks, as many as there are blocks.
  lemma {:induction false} PinnedBuffers(buf: seq<Buf>, targets: seq<nat>) returns (at: set<nat>)
    requires Unique(buf) && (forall t :: t in targets ==> Cached(buf, t))
    requires forall j, k :: 0 <= j < k < |targets| ==> targets[j] != targets[k]
    ensures (forall i :: i in at <==> 0 <= i < |buf| && Logs(buf[i], targets)) && |at| == |targets|
    decreases |targets|
  {
    hide Unique, Logs;
    if targets == [] {
      at := {};
      NoneLogged(buf);
    } else {
      assert forall u :: u in targets[1..] ==> u in targets;
      var rest := PinnedBuffers(buf, targets[1..]);
      assert targets[0] in targets && Cached(buf, targets[0]);
      var i: nat :| i < |buf| && Caches(buf, i, targets[0]);
      at := rest + {i};
      forall j: nat | j < |buf| ensures Logs(buf[j], targets) <==> Logs(buf[j], targets[1..]) || j == i {
        OneBuffer(buf, targets, i, j);
      }
      NotTwice(buf, targets, i);
    }
  }

  lemma NoneLogged(buf: seq<Buf>)
    ensures forall i :: 0 <= i < |buf| ==> !Logs(buf[i], [])
  {
  }

  lemma NotTwice(buf: seq<Buf>, targets: seq<nat>, i: nat)
    requires targets != [] && (forall k :: 0 < k < |targets| ==> targets[0] != targets[k])
    requires i < |buf| && Caches(buf, i, targets[0])
    ensures !Logs(buf[i], targets[1..])
  {
  }

  lemma {:induction false} Range(n: nat) returns (all: set<nat>)
    ensures (forall i :: i in all <==> 0 <= i < n) && |all| == n
  {
    if n == 0 {
      all := {};
    } else {
      var less := Range(n - 1);
      all := less + {n - 1};
    }
  }

  lemma Proper(a: set<nat>, b: set<nat>)
    requires a <= b
    ensures |a| < |b| <==> exists x :: x in b && x !in a
  {
    assert |b| == |a| + |b - a| by { assert b == a + (b - a); }
    if |b - a| > 0 {
      var x :| x in b - a;
    }
  }

  // A block that is not cached finds a buffer exactly when fewer than NBUF
  // buffers are taken: one by each logged block, and those processes hold.
  lemma FreeBufferIff(buf: seq<Buf>, targets: seq<nat>)
    requires |buf| == NBUF && Unique(buf) && Pinned(buf, targets)
    requires forall j, k :: 0 <= j < k < |targets| ==> targets[j] != targets[k]
    ensures Spare(buf) <==> |targets| + |Borrowed(buf, targets)| < NBUF
  {
    var at := PinnedBuffers(buf, targets);
    var all := Range(NBUF);
    var taken := at + Borrowed(buf, targets);
    assert |taken| == |at| + |Borrowed(buf, targets)| by {
      assert at !! Borrowed(buf, targets);
    }
    Proper(taken, all);
    if Spare(buf) {
      var i: nat :| i < |buf| && buf[i].refcnt == 0;
      assert i in all && i !in taken;
    }
    if |taken| < NBUF {
      var i :| i in all && i !in taken;
      assert buf[i].refcnt == 0;
    }
  }

  // Where bread looks for block b, or brings it to.
  ghost predicate Found(buf: seq<Buf>, x: nat, b: nat) {
    x < |buf| && ((Caches(buf, x, b) && !buf[x].locked) || (buf[x].refcnt == 0 && !Cached(buf, b)))
  }

  // Block v.blockno has been brought into buffer x, or found there, and let go
  // of again as v, perhaps with new contents and perhaps without its pin.
  ghost predicate Change(buf: seq<Buf>, pins: seq<nat>, pins': seq<nat>, x: nat, v: Buf) {
    && Unique(buf) && Pinned(buf, pins)
    && x < |buf| && v.dev == ROOTDEV && v.valid && !v.locked
    && (Caches(buf, x, v.blockno) || (buf[x].refcnt == 0 && !Cached(buf, v.blockno)))
    && v.refcnt == buf[x].refcnt - (if v.blockno in pins && v.blockno !in pins' then 1 else 0)
    && (v.blockno in pins' ==> v.blockno in pins)
    && (forall c :: c != v.blockno ==> (c in pins <==> c in pins'))
  }

  lemma ChangePinned(buf: seq<Buf>, pins: seq<nat>, pins': seq<nat>, x: nat, v: Buf)
    requires Change(buf, pins, pins', x, v)
    ensures Pinned(buf[x := v], pins')
  {
    var buf' := buf[x := v];
    forall t | t in pins' ensures exists i :: 0 <= i < |buf'| && Caches(buf', i, t) && buf'[i].valid {
      assert t in pins;
      var i :| 0 <= i < |buf| && Caches(buf, i, t) && buf[i].valid;
      assert Caches(buf', i, t);
    }
  }

  lemma ChangeKept(buf: seq<Buf>, pins: seq<nat>, pins': seq<nat>, x: nat, v: Buf)
    requires Change(buf, pins, pins', x, v)
    ensures Unique(buf[x := v]) && Kept(buf, pins, buf[x := v], pins')
    ensures Unique(buf[x := v]) && (Spare(buf) ==> Spare(buf[x := v]))
    ensures Idle(buf) ==> Idle(buf[x := v])
  {
    var buf' := buf[x := v];
    forall i | 0 <= i < |buf| && i != x && buf[i].dev == ROOTDEV ensures buf[i].blockno != v.blockno {
      assert !Caches(buf, i, v.blockno);
    }
    if Spare(buf) {
      var i :| 0 <= i < |buf| && buf[i].refcnt == 0;
      assert buf'[i].refcnt == 0;
    }
  }

  lemma ChangeCalm(buf: seq<Buf>, disk: seq<Block>, disk': seq<Block>, a: Area, pins: seq<nat>, pins': seq<nat>,
                   x: nat, v: Buf)
    requires Change(buf, pins, pins', x, v) && Calm(buf, disk, a, pins)
    requires |disk| == |disk'| && v.blockno < |disk|
    requires v.blockno !in pins' ==> v.data == disk'[v.blockno]
    requires forall c :: 0 <= c < |disk| && c != v.blockno ==> disk'[c] == disk[c]
    ensures Calm(buf[x := v], disk', a, pins')
  {
    var buf' := buf[x := v];
    forall i | 0 <= i < |buf| && i != x && buf[i].dev == ROOTDEV ensures buf[i].blockno != v.blockno {
      assert !Caches(buf, i, v.blockno);
    }
  }

  lemma Settle(buf: seq<Buf>, disk: seq<Block>, disk': seq<Block>, a: Area, pins: seq<nat>, pins': seq<nat>, x: nat,
               v: Buf)
    requires Change(buf, pins, pins', x, v) && Calm(buf, disk, a, pins)
    requires |disk| == |disk'| && v.blockno < |disk|
    requires v.blockno !in pins' ==> v.data == disk'[v.blockno]
    requires forall c :: 0 <= c < |disk| && c != v.blockno ==> disk'[c] == disk[c]
    ensures Pinned(buf[x := v], pins') && Calm(buf[x := v], disk', a, pins') && Kept(buf, pins, buf[x := v], pins')
    ensures Unique(buf[x := v]) && (Spare(buf) ==> Spare(buf[x := v]))
    ensures Idle(buf) ==> Idle(buf[x := v])
  {
    ChangePinned(buf, pins, pins', x, v);
    ChangeKept(buf, pins, pins', x, v);
    ChangeCalm(buf, disk, disk', a, pins, pins', x, v);
  }

  // Both buffers of an installed entry.
  lemma SettleTwo(buf: seq<Buf>, disk: seq<Block>, a: Area, pins: seq<nat>, pins': seq<nat>, l: nat, v: Buf, h: nat,
                  w: Buf)
    requires Unique(buf) && Pinned(buf, pins) && Calm(buf, disk, a, pins)
    requires Found(buf, l, v.blockno) && Found(buf[l := v], h, w.blockno) && l != h && v.blockno != w.blockno
    requires v.blockno < |disk| && w.blockno < |disk| && v.blockno !in pins && v.data == disk[v.blockno]
    requires v == Buf(true, false, ROOTDEV, v.blockno, buf[l].refcnt, v.data)
    requires w == Buf(true, false, ROOTDEV, w.blockno, w.refcnt, w.data) && w.blockno !in pins'
    requires w.refcnt == buf[h].refcnt - if w.blockno in pins then 1 else 0
    requires forall c :: c != w.blockno ==> (c in pins <==> c in pins')
    ensures var buf' := buf[l := v][h := w];
      && Pinned(buf', pins') && Calm(buf', disk[w.blockno := w.data], a, pins') && Kept(buf, pins, buf', pins')
      && (Spare(buf) ==> Spare(buf')) && (Idle(buf) ==> Idle(buf'))
  {
    hide Pinned, Calm, Held, Spare, Idle, Unique, Cached;
    Settle(buf, disk, disk, a, pins, pins, l, v);
    Settle(buf[l := v], disk, disk[w.blockno := w.data], a, pins, pins', h, w);
  }

  lemma KeptTwice(a: seq<Buf>, pa: seq<nat>, b: seq<Buf>, pb: seq<nat>, c: seq<Buf>, pc: seq<nat>)
    requires Kept(a, pa, b, pb) && Kept(b, pb, c, pc)
    ensures Kept(a, pa, c, pc)
  {
  }

  lemma KeptSelf(a: seq<Buf>)
    ensures Kept(a, [], a, [])
  {
  }

  lemma IdleCalm(buf: seq<Buf>, disk: seq<Block>, a: Area)
    requires Coherent(buf, disk) && Idle(buf)
    ensures Calm(buf, disk, a, [])
  {
  }

  lemma GoodMore(targets: seq<nat>, a: Area, nblocks: nat, b: nat)
    requires GoodTargets(targets, a, nblocks) && b < nblocks <= WORD && !a.Has(b) && b !in targets
    requires |targets| < LOGSIZE && |targets| + 1 < a.size
    ensures GoodTargets(targets + [b], a, nblocks)
  {
  }

  lemma CachesBlock(buf: seq<Buf>, disk: seq<Block>, i: nat)
    requires Coherent(buf, disk) && i < |buf| && buf[i].dev == ROOTDEV
    ensures buf[i].blockno < |disk|
  {
  }

  // What every block outside the log reads as, when nobody has changed an
  // unlogged block.
  lemma CalmView(buf: seq<Buf>, disk: seq<Block>, a: Area, targets: seq<nat>, b: nat)
    requires Calm(buf, disk, a, targets) && b < |disk| && b !in targets
    ensures View(buf, disk, b) == disk[b]
  {
  }

  // Pinning a buffer together with its entry in the log.
  lemma PinnedLogged(buf: seq<Buf>, buf': seq<Buf>, targets: seq<nat>, i: nat)
    requires |buf| == |buf'| && i < |buf| && Unique(buf) && Pinned(buf, targets)
    requires buf[i].dev == ROOTDEV && buf[i].valid && buf[i].blockno !in targets
    requires buf' == buf[i := buf[i].(refcnt := buf[i].refcnt + 1)]
    ensures Pinned(buf', targets + [buf[i].blockno])
  {
    forall t | t in targets + [buf[i].blockno]
      ensures exists j :: 0 <= j < |buf'| && Caches(buf', j, t) && buf'[j].valid
    {
      var j :| 0 <= j < |buf| && Caches(buf, j, t) && (t in targets ==> buf[j].valid) && (t !in targets ==> j == i);
      assert Caches(buf', j, t);
    }
  }

  // What installing entry k, with the entries from k on still pinned, relies on.
  lemma GoodTail(targets: seq<nat>, a: Area, nblocks: nat, k: nat)
    requires GoodTargets(targets, a, nblocks) && k < |targets|
    ensures k + 1 < a.size && targets[k] < nblocks && !a.Has(targets[k])
    ensures forall t :: t in targets[k..] ==> !a.Has(t)
    ensures forall i, j :: 0 <= i < j < |targets[k..]| ==> targets[k..][i] != targets[k..][j]
  {
  }

  lemma NotLocked(buf: seq<Buf>, disk: seq<Block>, a: Area, pins: seq<nat>, b: nat)
    requires Calm(buf, disk, a, pins) && b < |disk| && (a.Has(b) || b in pins || Idle(buf))
    ensures forall i :: 0 <= i < |buf| && Caches(buf, i, b) ==> !buf[i].locked && (a.Has(b) ==> buf[i].refcnt == 0)
  {
  }

  // After one bread the home block is still there, or a buffer for it.
  lemma HomeStays(buf: seq<Buf>, buf': seq<Buf>, pins: seq<nat>, l: nat, lb: nat, home: nat)
    requires |buf| == |buf'| == NBUF && Pinned(buf, pins) && Found(buf, l, lb) && home != lb
    requires buf' == buf[l := buf'[l]] && Caches(buf', l, lb)
    requires if pins == [] then Idle(buf) else home in pins
    ensures exists i :: 0 <= i < NBUF && (buf'[i].refcnt == 0 || Caches(buf', i, home))
    ensures pins != [] ==> Cached(buf', home)
  {
    if pins == [] {
      assert buf'[if l == 0 then 1 else 0].refcnt == 0;
    } else {
      var i :| 0 <= i < |buf| && Caches(buf, i, home) && buf[i].valid;
      assert i != l;
      assert Caches(buf', i, home);
    }
  }

  lemma FoundStill(buf: seq<Buf>, mid: seq<Buf>, l: nat, h: nat, home: nat)
    requires |mid| == |buf| && l < |buf| && l != h && mid == buf[l := mid[l]] && mid[l].blockno != home
    requires Found(buf, h, home)
    ensures Found(mid, h, home)
  {
    if Cached(mid, home) {
      var i :| 0 <= i < |mid| && Caches(mid, i, home);
      assert Caches(buf, i, home);
    }
  }

  lemma HomeHit(buf: seq<Buf>, disk: seq<Block>, pins: seq<nat>, h: nat, home: nat)
    requires Unique(buf) && Pinned(buf, pins) && home in pins && home < |disk| && h < |buf| && Caches(buf, h, home)
    ensures buf[h].valid && buf[h].data == View(buf, disk, home) && buf[h].refcnt >= 1
  {
    var i :| 0 <= i < |buf| && Caches(buf, i, home) && buf[i].valid;
    assert i == h;
  }

  lemma GoodNone(a: Area, nblocks: nat)
    requires a.size > 0 && a.start + a.size <= nblocks
    ensures GoodTargets([], a, nblocks)
  {
  }

  lemma GoodOutside(targets: seq<nat>, a: Area, nblocks: nat)
    requires GoodTargets(targets, a, nblocks)
    ensures forall t :: t in targets ==> !a.Has(t) && t < nblocks
  {
  }

  // ------------------------------------------------------------------- the log

  class Log {
    const bc: Bcache
    const area: Area
    const block: array<nat>
    var n: nat
    var outstanding: int
    var committing: bool

    ghost predicate Shape()
      reads this, block, bc, bc.buf, bc.next, bc.prev, bc.disk
    {
      && bc.Valid() && block.Length == LOGSIZE && n <= LOGSIZE
      && area.size > 0 && area.start + area.size <= |bc.disk.blocks| <= WORD
      && block as object != bc.next && block as object != bc.prev
    }

    ghost function Entries(): seq<nat>
      reads this, block
      requires n <= block.Length
    {
      block[..n]
    }

    // Between the steps of file-system operations: the log's blocks are
    // pinned, and the log on disk is empty.
    ghost predicate Valid()
      reads this, block, bc, bc.buf, bc.next, bc.prev, bc.disk
    {
      && Shape()
      && GoodTargets(Entries(), area, |bc.disk.blocks|)
      && Pinned(bc.buf[..], Entries())
      && Count(bc.disk.blocks[area.start]) == 0
    }

    ghost function Abstract(): P.Shared
      reads this, block
      requires n <= block.Length
    {
      P.Shared(area.size, Entries(), outstanding, committing)
    }

    // What every block reads as.
    ghost function Cache(): (r: seq<Block>)
      reads bc, bc.buf, bc.disk
      ensures |r| == |bc.disk.blocks|
    {
      seq(|bc.disk.blocks|, b requires 0 <= b < |bc.disk.blocks| reads bc, bc.buf, bc.disk => bc.Read(b))
    }

    // initlog: an idle cache, and a disk left by any crash.
    constructor (cache: Bcache, logArea: Area)
      requires cache.Valid() && Pinned(cache.buf[..], []) && Idle(cache.buf[..])
      requires |cache.disk.blocks| <= WORD && Recoverable(cache.disk.blocks, logArea)
      modifies cache, cache.buf, cache.next, cache.prev, cache.disk
      ensures Valid() && Idle(bc.buf[..]) && bc == cache && area == logArea
      ensures fresh(block) && n == 0 && outstanding == 0 && !committing
      ensures bc.disk.blocks == Recovered(old(cache.disk.blocks), logArea)
      ensures bc.disk.trace == old(cache.disk.trace) + RecoveryTrace(old(cache.disk.blocks), logArea)
    {
      bc, area := cache, logArea;
      block := new nat[LOGSIZE](_ => 0);
      n, outstanding, committing := 0, 0, false;
      new;
      RecoverFromLog();
    }

    // ------------------------------------------------------- system-call side

    // One turn of begin_op's loop; false means the caller must sleep.
    method BeginOp() returns (admitted: bool)
      requires Valid()
      modifies this
      ensures Valid() && Entries() == old(Entries())
      ensures admitted == P.MayBegin(old(Abstract()))
      ensures admitted <==> !old(committing) && old(n) as int + (old(outstanding) + 1) * 10 <= 30
      ensures Abstract() == old(Abstract()).(outstanding := if admitted then old(outstanding) + 1 else old(outstanding))
    {
      if committing {
        return false;
      } else if n as int + (outstanding + 1) * MAXOPBLOCKS as int > LOGSIZE as int {
        return false;
      } else {
        outstanding := outstanding + 1;
        return true;
      }
    }

    // log_write on a buffer the caller has locked: false for the panics.
    method LogWrite(i: nat) returns (ok: bool)
      requires Valid() && i < NBUF && bc.buf[i].locked && bc.buf[i].valid && bc.buf[i].dev == ROOTDEV
      requires !area.Has(bc.buf[i].blockno)
      modifies this, block, bc.buf
      ensures Valid()
      ensures ok <==> !P.TooBig(old(Abstract())) && !P.OutsideTransaction(old(Abstract()))
      ensures ok <==> old(n) < 30 && old(n) as int < area.size as int - 1 && old(outstanding) >= 1
      ensures ok ==> Entries() == if old(bc.buf[i].blockno) in old(Entries()) then old(Entries())
                                  else old(Entries()) + [old(bc.buf[i].blockno)]
      ensures Abstract() == if ok then old(Abstract()).(targets := P.Record(old(Entries()), old(bc.buf[i].blockno)))
                            else old(Abstract())
      ensures Cache() == old(Cache())
      ensures bc.buf[..] == if ok && old(bc.buf[i].blockno) !in old(Entries())
                            then old(bc.buf[..])[i := old(bc.buf[i]).(refcnt := old(bc.buf[i].refcnt) + 1)]
                            else old(bc.buf[..])
    {
      hide Bio.IsRing, Bio.Ordered, Bio.Distinct, Bio.View, Coherent, Unique, Pinned, GoodTargets, Count;
      if n >= LOGSIZE || n as int >= area.size as int - 1 {
        return false;
      }
      if outstanding < 1 {
        return false;
      }
      ghost var was, entries := bc.buf[..], Entries();
      var b := bc.buf[i].blockno;
      var k := 0;
      while k < n && block[k] != b
        invariant 0 <= k <= n
        invariant forall j :: 0 <= j < k ==> block[j] != b
      {
        k := k + 1;
      }
      block[k] := b;
      if k == n {
        bc.Bpin(i);
        n := n + 1;
        assert Entries() == entries + [b];
        PinnedLogged(was, bc.buf[..], entries, i);
        CachesBlock(was, bc.disk.blocks, i);
        GoodMore(entries, area, |bc.disk.blocks|, b);
      } else {
        assert Entries() == entries;
      }
      return true;
    }

    // end_op.  None: the panic at its start.  Otherwise whether a commit was
    // needed and went through.
    method EndOp() returns (r: Option<bool>)
      requires Valid() && (outstanding == 1 ==> Calm(bc.buf[..], bc.disk.blocks, area, Entries()))
      modifies this, block, bc, bc.buf, bc.next, bc.prev, bc.disk
      ensures r.None? <==> P.EndWhileCommitting(old(Abstract()))
      ensures r.None? <==> old(committing)
      ensures r.Some? && r.value ==>
                && Valid() && |bc.disk.blocks| == |old(bc.disk.blocks)|
                && (forall b :: 0 <= b < |bc.disk.blocks| && !area.Has(b) ==> Cache()[b] == old(Cache())[b])
                && outstanding == old(outstanding) - 1 && !committing
                && Entries() == (if outstanding == 0 then [] else old(Entries()))
      ensures r.Some? && !r.value <==>
                !old(committing) && old(outstanding) == 1 && old(n) > 0 && !old(Spare(bc.buf[..]))
      ensures r != None && old(outstanding) != 1 ==>
                bc.buf[..] == old(bc.buf[..]) && bc.disk.blocks == old(bc.disk.blocks)
    {
      hide Bio.IsRing, Bio.Ordered, Bio.Distinct, Bio.View, Pinned, Coherent, Unique, CommitTrace, CommitState, Count,
           GoodTargets, Idle;
      outstanding := outstanding - 1;
      if committing {
        return None;
      }
      var ok := true;
      if outstanding == 0 {
        committing := true;
        ok := Commit();
        committing := false;
      }
      return Some(ok);
    }

    // ----------------------------------------------------------------- commit

    // commit: every logged block to the log, the header, every logged block
    // to its home, and an empty header; false if bread found no buffer.
    method Commit() returns (ok: bool)
      requires Valid() && Calm(bc.buf[..], bc.disk.blocks, area, Entries())
      modifies this`n, block, bc, bc.buf, bc.next, bc.prev, bc.disk
      ensures ok <==> old(n) == 0 || old(Spare(bc.buf[..]))
      ensures old(n) == 0 ==> bc.disk.trace == old(bc.disk.trace) && bc.disk.blocks == old(bc.disk.blocks)
      ensures ok && old(n) > 0 ==>
                bc.disk.trace == old(bc.disk.trace) + CommitTrace(old(bc.disk.blocks), area, old(Entries()),
                                                                  old(Cache()))
      ensures ok && old(n) > 0 ==>
                bc.disk.blocks == CommitState(old(bc.disk.blocks), area, old(Entries()), old(Cache()), 2 * old(n) + 2)
      ensures ok ==> Valid() && Calm(bc.buf[..], bc.disk.blocks, area, []) && n == 0
      ensures ok ==> Kept(old(bc.buf[..]), old(Entries()), bc.buf[..], [])
      ensures ok ==> |bc.disk.blocks| == |old(bc.disk.blocks)|
      ensures ok ==> forall b :: 0 <= b < |bc.disk.blocks| && !area.Has(b) ==> Cache()[b] == old(Cache())[b]
    {
      hide Valid, CommitTrace, CommitState, Calm, Kept, Spare;
      if n > 0 {
        ok := CommitEntries();
      } else {
        assert Entries() == [];
        KeptSelf(bc.buf[..]);
        ok := true;
      }
    }

    method CommitEntries() returns (ok: bool)
      requires Valid() && n > 0 && Calm(bc.buf[..], bc.disk.blocks, area, Entries())
      modifies this`n, block, bc, bc.buf, bc.next, bc.prev, bc.disk
      ensures ok <==> old(Spare(bc.buf[..]))
      ensures ok ==>
                bc.disk.trace == old(bc.disk.trace) + CommitTrace(old(bc.disk.blocks), area, old(Entries()),
                                                                  old(Cache()))
      ensures ok ==>
                bc.disk.blocks == CommitState(old(bc.disk.blocks), area, old(Entries()), old(Cache()), 2 * old(n) + 2)
      ensures ok ==> Valid() && Calm(bc.buf[..], bc.disk.blocks, area, []) && n == 0
      ensures ok ==> Kept(old(bc.buf[..]), old(Entries()), bc.buf[..], [])
      ensures ok ==> |bc.disk.blocks| == |old(bc.disk.blocks)|
      ensures ok ==> forall b :: 0 <= b < |bc.disk.blocks| && !area.Has(b) ==> Cache()[b] == old(Cache())[b]
    {
      hide Bio.IsRing, Bio.Ordered, Bio.Distinct, Bio.View, Pinned, Coherent, Unique, Install, InstallTrace, LogTrace,
           CommitTrace, Logged, CommitState, Headed, Head, Calm, Kept, Spare, GoodTargets, Count;
      ghost var d0, c0, t0, tr0 := bc.disk.blocks, Cache(), Entries(), bc.disk.trace;
      ghost var b0 := bc.buf[..];
      GoodOutside(t0, area, |d0|);
      CacheOfUnlogged(t0);
      ok := WriteLog();
      if !ok { return; }
      ghost var b1 := bc.buf[..];
      WriteHead(Entries());
      KeptTwice(b0, t0, b1, t0, bc.buf[..], t0);
      ghost var b2 := bc.buf[..];
      InstallTrans(false);
      KeptTwice(b0, t0, b2, t0, bc.buf[..], []);
      ghost var b3 := bc.buf[..];
      n := 0;
      WriteHead([]);
      KeptTwice(b0, t0, b3, [], bc.buf[..], []);
      assert Entries() == [];
      CommitEnd(d0, area, t0, c0);
      assert bc.disk.trace == tr0 + CommitTrace(d0, area, t0, c0) by {
        CommitTraceParts(d0, area, t0, c0);
      }
      CommitDone(d0, area, t0, c0);
      GoodNone(area, |d0|);
      CacheOfUnlogged([]);
    }

    // Unlogged blocks read as they are on the disk.
    lemma CacheOfUnlogged(pins: seq<nat>)
      requires Shape() && Calm(bc.buf[..], bc.disk.blocks, area, pins)
      ensures forall b :: 0 <= b < |bc.disk.blocks| && b !in pins ==> Cache()[b] == bc.disk.blocks[b]
    {
      forall b | 0 <= b < |bc.disk.blocks| && b !in pins ensures Cache()[b] == bc.disk.blocks[b] {
        CalmView(bc.buf[..], bc.disk.blocks, area, pins, b);
      }
    }

    // The blocks of the log are not held by anybody, nor pinned.
    ghost predicate Ready(pins: seq<nat>)
      reads this, block, bc, bc.buf, bc.next, bc.prev, bc.disk
    {
      && Shape() && Pinned(bc.buf[..], pins) && Calm(bc.buf[..], bc.disk.blocks, area, pins)
      && (forall t :: t in pins ==> !area.Has(t))
    }

    // bread the log block of entry tail, then the home block of that entry,
    // which is in the cache unless the log is being recovered.
    method LockPair(tail: nat, ghost pins: seq<nat>) returns (ok: bool, l: nat, h: nat)
      requires Ready(pins) && tail < n && tail + 1 < area.size && block[tail] < |bc.disk.blocks|
      requires !area.Has(block[tail])
      requires if pins == [] then Idle(bc.buf[..]) else block[tail] in pins
      modifies bc.buf
      ensures Shape() && (forall b :: 0 <= b < |bc.disk.blocks| ==> bc.Read(b) == old(bc.Read(b)))
      ensures ok <==> old(Spare(bc.buf[..]))
      ensures !ok ==> bc.buf[..] == old(bc.buf[..])
      ensures ok ==> Found(old(bc.buf[..]), l, area.start + tail + 1) && l != h
      ensures ok ==> Found(old(bc.buf[..])[l := bc.buf[l]], h, block[tail])
      ensures ok ==> old(bc.buf[..])[l].refcnt == 0
      ensures ok && pins != [] ==>
                var b := old(bc.buf[..])[h];
                b == Buf(true, false, ROOTDEV, block[tail], b.refcnt, old(bc.Read(block[tail]))) && b.refcnt >= 1
      ensures ok ==> bc.buf[..] == old(bc.buf[..])[
                l := Buf(true, true, ROOTDEV, area.start + tail + 1, 1, bc.disk.blocks[area.start + tail + 1])][
                h := Buf(true, true, ROOTDEV, block[tail], old(bc.buf[..])[h].refcnt + 1, old(bc.Read(block[tail])))]
    {
      hide Bio.IsRing, Bio.Ordered, Bio.Distinct, Bio.View, Coherent, Unique, Calm, Pinned;
      ghost var was := bc.buf[..];
      var lb := area.start + tail + 1;
      assert area.Has(lb);
      CalmView(was, bc.disk.blocks, area, pins, lb);
      NotLocked(was, bc.disk.blocks, area, pins, lb);
      NotLocked(was, bc.disk.blocks, area, pins, block[tail]);
      var r := bc.Bread(lb);
      if r.None? {
        return false, 0, 0;
      }
      ghost var mid := bc.buf[..];
      assert mid == was[r.value := mid[r.value]];
      HomeStays(was, mid, pins, r.value, lb, block[tail]);
      var q := bc.Bread(block[tail]);
      assert bc.buf[..] == mid[q.value := bc.buf[q.value]];
      if pins != [] {
        HomeHit(was, bc.disk.blocks, pins, q.value, block[tail]);
      }
      return true, r.value, q.value;
    }

    // The body of a turn of write_log: copy, write, and let go of both buffers.
    method CopyToLog(to: nat, from: nat)
      requires Shape() && to < NBUF && from < NBUF && to != from && bc.buf[to].blockno != bc.buf[from].blockno
      requires bc.buf[to] == Buf(true, true, ROOTDEV, bc.buf[to].blockno, 1, bc.buf[to].data)
      requires bc.buf[from] == Buf(true, true, ROOTDEV, bc.buf[from].blockno, bc.buf[from].refcnt, bc.buf[from].data)
      requires bc.buf[from].refcnt >= 2 && bc.buf[from].blockno < |bc.disk.blocks|
      requires bc.buf[to].blockno < |bc.disk.blocks|
      modifies bc, bc.buf, bc.next, bc.prev, bc.disk
      ensures Shape()
      ensures var was := old(bc.buf[..]);
              bc.buf[..] == was[to := was[to].(locked := false, refcnt := 0, data := was[from].data)][
                from := was[from].(locked := false, refcnt := was[from].refcnt - 1)]
      ensures bc.disk.blocks == old(bc.disk.blocks)[old(bc.buf[to].blockno) := old(bc.buf[from].data)]
      ensures bc.disk.trace == old(bc.disk.trace) + [bc.disk.blocks]
      ensures forall b :: 0 <= b < |bc.disk.blocks| && b != old(bc.buf[to].blockno) ==> bc.Read(b) == old(bc.Read(b))
    {
      hide Bio.IsRing, Bio.Ordered, Bio.Distinct, Bio.View, Coherent, Unique;
      bc.Store(to, bc.buf[from].data);
      bc.Bwrite(to);
      bc.Brelse(from);
      bc.Brelse(to);
    }

    // One turn of write_log.
    method WriteLogBlock(tail: nat) returns (ok: bool)
      requires Shape() && Ready(Entries()) && tail < n && GoodTargets(Entries(), area, |bc.disk.blocks|)
      modifies bc, bc.buf, bc.next, bc.prev, bc.disk
      ensures ok <==> old(Spare(bc.buf[..]))
      ensures ok ==> Ready(Entries()) && Spare(bc.buf[..]) && Kept(old(bc.buf[..]), Entries(), bc.buf[..], Entries())
      ensures ok ==> bc.disk.blocks == old(bc.disk.blocks)[area.start + tail + 1 := old(bc.Read(block[tail]))]
      ensures ok ==> bc.disk.trace == old(bc.disk.trace) + [bc.disk.blocks]
      ensures ok ==> forall b :: 0 <= b < |bc.disk.blocks| && b != area.start + tail + 1 ==>
                bc.Read(b) == old(bc.Read(b))
    {
      hide Bio.IsRing, Bio.Ordered, Bio.Distinct, Bio.View, Pinned, Bio.Cached, Coherent, Unique, Calm, Kept, Spare;
      assert area.Has(area.start + tail + 1);
      ghost var was, d0 := bc.buf[..], bc.disk.blocks;
      assert Entries()[tail] == block[tail];
      var to, from;
      ok, to, from := LockPair(tail, Entries());
      if !ok { return; }
      CopyToLog(to, from);
      assert bc.buf[..] == was[to := bc.buf[to]];
      Settle(was, d0, bc.disk.blocks, area, Entries(), Entries(), to, bc.buf[to]);
    }

    method WriteLog() returns (ok: bool)
      requires Shape() && Ready(Entries()) && n > 0 && GoodTargets(Entries(), area, |bc.disk.blocks|)
      modifies bc, bc.buf, bc.next, bc.prev, bc.disk
      ensures ok <==> old(Spare(bc.buf[..]))
      ensures ok ==> Ready(Entries()) && Spare(bc.buf[..]) && Kept(old(bc.buf[..]), Entries(), bc.buf[..], Entries())
      ensures ok ==> |bc.disk.blocks| == |old(bc.disk.blocks)|
      ensures ok ==> bc.disk.blocks == Logged(old(bc.disk.blocks), area, Entries(), old(Cache()), n)
      ensures ok ==>
                bc.disk.trace == old(bc.disk.trace) + LogTrace(old(bc.disk.blocks), area, Entries(), old(Cache()), n)
    {
      hide Bio.IsRing, Bio.Ordered, Bio.Distinct, Bio.View, Pinned, Coherent, Unique, Calm, Held, Spare;
      ghost var was, d0, c0, tr0 := bc.buf[..], bc.disk.blocks, Cache(), bc.disk.trace;
      ok := true;
      var tail := 0;
      while tail < n
        invariant tail <= n && (tail > 0 ==> Spare(was))
        invariant Ready(Entries()) && (Spare(bc.buf[..]) <==> Spare(was)) && Kept(was, Entries(), bc.buf[..], Entries())
        invariant |bc.disk.blocks| == |d0|
        invariant bc.disk.blocks == Logged(d0, area, Entries(), c0, tail)
        invariant bc.disk.trace == tr0 + LogTrace(d0, area, Entries(), c0, tail)
        invariant forall b :: 0 <= b < |d0| && !area.Has(b) ==> bc.Read(b) == c0[b]
      {
        assert bc.Read(Entries()[tail]) == c0[Entries()[tail]];
        ok := WriteLogBlock(tail);
        if !ok { return; }
        assert area.Has(area.start + tail + 1);
        assert bc.disk.blocks == Logged(d0, area, Entries(), c0, tail + 1);
        tail := tail + 1;
      }
    }

    // write_head: the in-memory header, over what the header block held.
    method WriteHead(ghost pins: seq<nat>)
      requires Ready(pins) && Spare(bc.buf[..])
      modifies bc, bc.buf, bc.next, bc.prev, bc.disk
      ensures Ready(pins) && Spare(bc.buf[..]) && Kept(old(bc.buf[..]), pins, bc.buf[..], pins)
      ensures old(Idle(bc.buf[..])) ==> Idle(bc.buf[..])
      ensures bc.disk.blocks == old(bc.disk.blocks)[area.start := Head(old(bc.disk.blocks)[area.start], Entries(), n)]
      ensures bc.disk.trace == old(bc.disk.trace) + [bc.disk.blocks]
    {
      hide Bio.IsRing, Bio.Ordered, Bio.Distinct, Bio.View, Bytes.PutWord, Targets, Count, Coherent, Unique, Calm,
           Pinned, Kept, Idle;
      ghost var was, d0 := bc.buf[..], bc.disk.blocks;
      assert area.Has(area.start);
      CalmView(was, d0, area, pins, area.start);
      NotLocked(was, d0, area, pins, area.start);
      var r := bc.Bread(area.start);
      var b := r.value;
      assert bc.buf[..] == was[b := bc.buf[b]];
      ghost var h := bc.buf[b].data;
      var hb: Block := PutWord(bc.buf[b].data, 0, n);
      var i := 0;
      while i < n
        invariant 0 <= i <= n
        invariant hb == Head(h, Entries(), i)
      {
        hb := PutWord(hb, i + 1, block[i]);
        i := i + 1;
      }
      bc.Store(b, hb);
      bc.Bwrite(b);
      bc.Brelse(b);
      assert bc.buf[..] == was[b := bc.buf[b]];
      Settle(was, d0, bc.disk.blocks, area, pins, pins, b, bc.buf[b]);
    }

    // The body of that turn: copy, write, unpin, and let go of both buffers.
    method CopyHome(l: nat, h: nat, recovering: bool)
      requires Shape() && l < NBUF && h < NBUF && l != h && bc.buf[l].blockno != bc.buf[h].blockno
      requires bc.buf[l] == Buf(true, true, ROOTDEV, bc.buf[l].blockno, 1, bc.buf[l].data)
      requires bc.buf[h] == Buf(true, true, ROOTDEV, bc.buf[h].blockno, bc.buf[h].refcnt, bc.buf[h].data)
      requires bc.buf[h].refcnt >= (if recovering then 1 else 2) && bc.buf[h].blockno < |bc.disk.blocks|
      requires bc.buf[l].blockno < |bc.disk.blocks| && bc.buf[l].data == bc.disk.blocks[bc.buf[l].blockno]
      modifies bc, bc.buf, bc.next, bc.prev, bc.disk
      ensures Shape()
      ensures var was := old(bc.buf[..]);
              bc.buf[..] == was[l := was[l].(locked := false, refcnt := 0)][
                h := was[h].(locked := false, refcnt := was[h].refcnt - (if recovering then 1 else 2),
                             data := was[l].data)]
      ensures bc.disk.blocks == old(bc.disk.blocks)[old(bc.buf[h].blockno) := old(bc.buf[l].data)]
      ensures bc.disk.trace == old(bc.disk.trace) + [bc.disk.blocks]
    {
      hide Bio.IsRing, Bio.Ordered, Bio.Distinct, Bio.View, Coherent, Unique;
      bc.Store(h, bc.buf[l].data);
      bc.Bwrite(h);
      if !recovering {
        bc.Bunpin(h);
      }
      bc.Brelse(l);
      bc.Brelse(h);
    }

    // One turn of install_trans.
    method InstallBlock(tail: nat, recovering: bool, ghost pins: seq<nat>)
      requires Ready(pins) && tail < n && tail + 1 < area.size && block[tail] < |bc.disk.blocks|
      requires !area.Has(block[tail])
      requires Spare(bc.buf[..]) && (forall j, k :: 0 <= j < k < |pins| ==> pins[j] != pins[k])
      requires if recovering then pins == [] && Idle(bc.buf[..]) else pins != [] && pins[0] == block[tail]
      modifies bc, bc.buf, bc.next, bc.prev, bc.disk
      ensures Ready(if recovering then [] else pins[1..]) && Spare(bc.buf[..]) && (recovering ==> Idle(bc.buf[..]))
      ensures Kept(old(bc.buf[..]), pins, bc.buf[..], if recovering then [] else pins[1..])
      ensures bc.disk.blocks == old(bc.disk.blocks)[block[tail] := old(bc.disk.blocks)[area.start + tail + 1]]
      ensures bc.disk.trace == old(bc.disk.trace) + [bc.disk.blocks]
    {
      hide Bio.IsRing, Bio.Ordered, Bio.Distinct, Bio.View, Pinned, Coherent, Unique, Calm, Kept, Spare;
      assert area.Has(area.start + tail + 1);
      ghost var was, d0 := bc.buf[..], bc.disk.blocks;
      ghost var after := if recovering then [] else pins[1..];
      assert block[tail] !in after;
      assert !recovering ==> pins == [block[tail]] + after;
      var ok, lbuf, dbuf := LockPair(tail, pins);
      ghost var locked := was[lbuf := bc.buf[lbuf]];
      CopyHome(lbuf, dbuf, recovering);
      ghost var mid := was[lbuf := bc.buf[lbuf]];
      assert bc.buf[..] == mid[dbuf := bc.buf[dbuf]];
      FoundStill(locked, mid, lbuf, dbuf, block[tail]);
      SettleTwo(was, d0, area, pins, after, lbuf, bc.buf[lbuf], dbuf, bc.buf[dbuf]);
    }

    method InstallTrans(recovering: bool)
      requires Shape() && GoodTargets(Entries(), area, |bc.disk.blocks|) && Spare(bc.buf[..])
      requires Ready(if recovering then [] else Entries()) && (recovering ==> Idle(bc.buf[..]))
      modifies bc, bc.buf, bc.next, bc.prev, bc.disk
      ensures Ready([]) && Spare(bc.buf[..]) && (recovering ==> Idle(bc.buf[..]))
      ensures Kept(old(bc.buf[..]), if recovering then [] else Entries(), bc.buf[..], [])
      ensures |bc.disk.blocks| == |old(bc.disk.blocks)|
      ensures bc.disk.blocks == Install(old(bc.disk.blocks), area, Entries(), n)
      ensures bc.disk.trace == old(bc.disk.trace) + InstallTrace(old(bc.disk.blocks), area, Entries(), n)
    {
      hide Bio.IsRing, Bio.Ordered, Bio.Distinct, Bio.View, Pinned, Coherent, Unique, Install, InstallTrace,
           GoodTargets, Calm, Held, Spare, Idle;
      ghost var was, d0, tr0, targets := bc.buf[..], bc.disk.blocks, bc.disk.trace, Entries();
      ghost var pins := if recovering then [] else targets;
      InstallNone(d0, area, targets);
      var tail := 0;
      while tail < n
        invariant tail <= n && Entries() == targets
        invariant Ready(pins) && Spare(bc.buf[..]) && (recovering ==> Idle(bc.buf[..]))
        invariant pins == if recovering then [] else targets[tail..]
        invariant Kept(was, if recovering then [] else targets, bc.buf[..], pins)
        invariant |bc.disk.blocks| == |d0|
        invariant bc.disk.blocks == Install(d0, area, targets, tail)
        invariant bc.disk.trace == tr0 + InstallTrace(d0, area, targets, tail)
      {
        GoodTail(targets, area, |d0|, tail);
        assert block[tail] == targets[tail];
        InstallBlock(tail, recovering, pins);
        pins := if recovering then [] else pins[1..];
        InstallOneMore(d0, area, targets, tail);
        tail := tail + 1;
      }
    }

    // --------------------------------------------------------------- recovery

    method ReadHead()
      requires Ready([]) && Idle(bc.buf[..]) && Recoverable(bc.disk.blocks, area)
      modifies this`n, block, bc, bc.buf, bc.next, bc.prev
      ensures Ready([]) && Idle(bc.buf[..])
      ensures Entries() == Targets(bc.disk.blocks[area.start])
    {
      hide Bio.IsRing, Bio.Ordered, Bio.Distinct, Bio.View, Coherent, Unique, Calm, Pinned;
      ghost var was := bc.buf[..];
      assert area.Has(area.start);
      CalmView(was, bc.disk.blocks, area, [], area.start);
      NotLocked(was, bc.disk.blocks, area, [], area.start);
      assert was[0].refcnt == 0;
      var r := bc.Bread(area.start);
      var b := r.value;
      assert bc.buf[..] == was[b := bc.buf[b]];
      var lh := bc.buf[b].data;
      n := Count(lh);
      var i := 0;
      while i < n
        invariant 0 <= i <= n
        invariant n == Count(lh) && n <= block.Length == LOGSIZE
        invariant forall j :: 0 <= j < i ==> block[j] == Target(lh, j)
        modifies block
      {
        block[i] := Target(lh, i);
        i := i + 1;
      }
      bc.Brelse(b);
      assert bc.buf[..] == was[b := bc.buf[b]];
      Settle(was, bc.disk.blocks, bc.disk.blocks, area, [], [], b, bc.buf[b]);
    }

    // recover_from_log: every state it takes the disk through, and the empty
    // log it ends with.
    method RecoverFromLog()
      requires Shape() && Pinned(bc.buf[..], []) && Idle(bc.buf[..]) && Recoverable(bc.disk.blocks, area)
      modifies this`n, block, bc, bc.buf, bc.next, bc.prev, bc.disk
      ensures Valid() && Idle(bc.buf[..]) && n == 0
      ensures bc.disk.trace == old(bc.disk.trace) + RecoveryTrace(old(bc.disk.blocks), area)
      ensures bc.disk.blocks == Recovered(old(bc.disk.blocks), area)
    {
      hide Bio.IsRing, Bio.Ordered, Bio.Distinct, Bio.View, Pinned, Coherent, Unique, Install, InstallTrace,
           RecoveryTrace, RecoveryState, Head, Calm, Kept;
      ghost var d0 := bc.disk.blocks;
      IdleCalm(bc.buf[..], d0, area);
      ReadHead();
      assert bc.buf[..][0].refcnt == 0;
      InstallTrans(true);
      n := 0;
      WriteHead([]);
      assert Entries() == [];
      RecoveryIdempotent(d0, area, Count(d0[area.start]) + 1);
      RecoveryTraceParts(d0, area);
    }
  }

  // ------------------------------------------------ a commit without a buffer

  // No process holds a buffer of a block that is not logged.
  ghost predicate Unborrowed(buf: seq<Buf>, targets: seq<nat>) {
    forall i :: 0 <= i < |buf| && buf[i].refcnt > 0 ==> Logs(buf[i], targets)
  }

  // Buffer x has been locked for block b by bread.
  ghost predicate BroughtIn(buf: seq<Buf>, buf': seq<Buf>, x: nat, b: nat, data: Block) {
    && Unique(buf) && x < |buf| && (Caches(buf, x, b) || (buf[x].refcnt == 0 && !Cached(buf, b)))
    && buf' == buf[x := Buf(true, true, ROOTDEV, b, buf[x].refcnt + 1, data)]
  }

  lemma BroughtInPinned(buf: seq<Buf>, buf': seq<Buf>, targets: seq<nat>, x: nat, b: nat, data: Block)
    requires BroughtIn(buf, buf', x, b, data) && Pinned(buf, targets)
    ensures Pinned(buf', targets)
  {
    forall t | t in targets ensures exists i :: 0 <= i < |buf'| && Caches(buf', i, t) && buf'[i].valid {
      var i :| 0 <= i < |buf| && Caches(buf, i, t) && buf[i].valid;
      assert Caches(buf', i, t);
    }
  }

  lemma BroughtInCalm(buf: seq<Buf>, buf': seq<Buf>, disk: seq<Block>, a: Area, targets: seq<nat>, x: nat, b: nat)
    requires b < |disk| && BroughtIn(buf, buf', x, b, disk[b]) && Calm(buf, disk, a, targets)
    requires b !in targets && !a.Has(b)
    ensures Calm(buf', disk, a, targets)
  {
  }

  // A block nobody held has been brought in, logged and let go of as v.
  ghost predicate NewlyLogged(buf: seq<Buf>, targets: seq<nat>, x: nat, v: Buf) {
    && x < |buf| && buf[x].refcnt == 0 && Unique(buf) && (Caches(buf, x, v.blockno) || !Cached(buf, v.blockno))
    && v == Buf(true, false, ROOTDEV, v.blockno, 1, v.data) && v.blockno !in targets
  }

  lemma NewlyLoggedCalm(buf: seq<Buf>, disk: seq<Block>, a: Area, targets: seq<nat>, x: nat, v: Buf)
    requires NewlyLogged(buf, targets, x, v) && Calm(buf, disk, a, targets) && !a.Has(v.blockno)
    ensures Calm(buf[x := v], disk, a, targets + [v.blockno])
  {
    forall i | 0 <= i < |buf| && i != x && buf[i].dev == ROOTDEV ensures buf[i].blockno != v.blockno {
      assert !Caches(buf, i, v.blockno);
    }
  }

  lemma NewlyLoggedPinned(buf: seq<Buf>, targets: seq<nat>, x: nat, v: Buf)
    requires NewlyLogged(buf, targets, x, v) && Pinned(buf, targets) && Unborrowed(buf, targets)
    ensures Pinned(buf[x := v], targets + [v.blockno]) && Unborrowed(buf[x := v], targets + [v.blockno])
  {
    var buf' := buf[x := v];
    forall i | 0 <= i < |buf| && i != x && buf[i].dev == ROOTDEV ensures buf[i].blockno != v.blockno {
      assert !Caches(buf, i, v.blockno);
    }
    forall t | t in targets + [v.blockno]
      ensures exists i :: 0 <= i < |buf'| && Caches(buf', i, t) && buf'[i].valid
    {
      var i :| 0 <= i < |buf| && (if t in targets then Caches(buf, i, t) && buf[i].valid else i == x);
      assert Caches(buf', i, t);
    }
  }

  lemma UnborrowedSpare(buf: seq<Buf>, targets: seq<nat>)
    requires |buf| == NBUF && Unique(buf) && Pinned(buf, targets) && Unborrowed(buf, targets) && |targets| < NBUF
    requires forall j, k :: 0 <= j < k < |targets| ==> targets[j] != targets[k]
    ensures Spare(buf)
  {
    hide Unique, Pinned, Spare;
    FreeBufferIff(buf, targets);
    assert Borrowed(buf, targets) == {};
  }

  lemma OneBorrowed(buf: seq<Buf>, buf': seq<Buf>, targets: seq<nat>, x: nat, b: nat, data: Block)
    requires BroughtIn(buf, buf', x, b, data) && Unborrowed(buf, targets) && b !in targets && Unique(buf')
    requires |buf| == NBUF && Pinned(buf', targets) && |targets| == NBUF - 1
    requires forall j, k :: 0 <= j < k < |targets| ==> targets[j] != targets[k]
    ensures Borrowed(buf', targets) == {x} && !Spare(buf')
  {
    hide Unique, Pinned, Spare;
    assert Borrowed(buf', targets) == {x};
    FreeBufferIff(buf', targets);
  }

  // An operation under way reads block b and logs it.
  method LogNext(log: Log, b: nat)
    requires log.Valid() && log.outstanding >= 1 && log.n < log.area.size - 1 && log.n < LOGSIZE - 1
    requires b < |log.bc.disk.blocks| && !log.area.Has(b) && b !in log.Entries()
    requires Calm(log.bc.buf[..], log.bc.disk.blocks, log.area, log.Entries())
    requires Unborrowed(log.bc.buf[..], log.Entries())
    modifies log, log.block, log.bc, log.bc.buf, log.bc.next, log.bc.prev
    ensures log.Valid() && log.Entries() == old(log.Entries()) + [b]
    ensures log.outstanding == old(log.outstanding) && log.committing == old(log.committing)
    ensures Calm(log.bc.buf[..], log.bc.disk.blocks, log.area, log.Entries())
    ensures Unborrowed(log.bc.buf[..], log.Entries())
  {
    hide Bio.IsRing, Bio.Ordered, Bio.Distinct, Bio.View, Pinned, Coherent, Unique, Calm, Unborrowed, Count, Idle,
         P.Record;
    ghost var was, t0 := log.bc.buf[..], log.Entries();
    NoneLocked(was, log.bc.disk.blocks, log.area, t0, b);
    UnborrowedSpare(was, t0);
    hide GoodTargets;
    var r := log.bc.Bread(b);
    var x := r.value;
    BroughtInPinned(was, log.bc.buf[..], t0, x, b, log.bc.buf[x].data);
    var ok := log.LogWrite(x);
    log.bc.Brelse(x);
    assert log.bc.buf[..] == was[x := log.bc.buf[x]];
    NewlyLoggedCalm(was, log.bc.disk.blocks, log.area, t0, x, log.bc.buf[x]);
    NewlyLoggedPinned(was, t0, x, log.bc.buf[x]);
    GoodMore(t0, log.area, |log.bc.disk.blocks|, b);
  }

  lemma NoneLocked(buf: seq<Buf>, disk: seq<Block>, a: Area, targets: seq<nat>, b: nat)
    requires Pinned(buf, targets) && Unborrowed(buf, targets) && b !in targets
    ensures forall i :: 0 <= i < |buf| && Caches(buf, i, b) ==> !buf[i].locked && buf[i].refcnt == 0
  {
  }

  // The block numbers from b on.
  function Numbers(b: nat, k: nat): seq<nat> {
    seq(k, j requires 0 <= j < k => b + j)
  }

  lemma BlankDisk(disk: seq<Block>, a: Area)
    requires a.size > 0 && a.start + a.size <= |disk| && disk[a.start] == Zeros(BSIZE)
    ensures Recoverable(disk, a)
  {
    WordZero(Zeros(BSIZE), 0);
  }

  // A log on a blank disk.
  method BlankLog() returns (log: Log)
    ensures fresh(log) && fresh(log.block) && fresh(log.bc) && fresh(log.bc.buf) && fresh(log.bc.next)
    ensures fresh(log.bc.prev) && fresh(log.bc.disk)
    ensures log.Valid() && log.area == Area(2, LOGSIZE) && |log.bc.disk.blocks| == 200
    ensures log.Entries() == [] && log.outstanding == 0 && !log.committing
    ensures Calm(log.bc.buf[..], log.bc.disk.blocks, log.area, []) && Unborrowed(log.bc.buf[..], [])
  {
    hide Bio.IsRing, Bio.Ordered, Bio.Distinct, Bio.View, Unique, Calm, Unborrowed, Count, Pinned, Recoverable,
         GoodTargets;
    var image: seq<Block> := seq(200, _ => Zeros(BSIZE));
    BlankDisk(image, Area(2, LOGSIZE));
    var disk := new Device(image);
    var bc := new Bcache(disk);
    NeverUsed(bc.buf[..]);
    log := new Log(bc, Area(2, LOGSIZE));
    IdleCalm(bc.buf[..], disk.blocks, log.area);
    IdleUnborrowed(bc.buf[..]);
  }

  // Three operations log 10, 10 and 9 blocks, all there is room for.
  method FillLog(log: Log)
    requires log.Valid() && log.area == Area(2, LOGSIZE) && |log.bc.disk.blocks| == 200
    requires log.Entries() == [] && log.outstanding == 0 && !log.committing
    requires Calm(log.bc.buf[..], log.bc.disk.blocks, log.area, []) && Unborrowed(log.bc.buf[..], [])
    modifies log, log.block, log.bc, log.bc.buf, log.bc.next, log.bc.prev
    ensures log.Valid() && log.Entries() == Numbers(100, LOGSIZE - 1) && log.outstanding == 3 && !log.committing
    ensures Calm(log.bc.buf[..], log.bc.disk.blocks, log.area, log.Entries())
    ensures Unborrowed(log.bc.buf[..], log.Entries())
  {
    hide Bio.IsRing, Bio.Ordered, Bio.Distinct, Bio.View, Coherent, Unique, Count, Pinned, GoodTargets, Calm,
         Unborrowed;
    var first := log.BeginOp();
    var second := log.BeginOp();
    var third := log.BeginOp();
    var k := 0;
    assert log.Entries() == Numbers(100, 0);
    while k < LOGSIZE - 1
      modifies log, log.block, log.bc, log.bc.buf, log.bc.next, log.bc.prev
      invariant 0 <= k <= LOGSIZE - 1 && log.n <= log.block.Length
      invariant log.Valid() && log.Entries() == Numbers(100, k) && log.outstanding == 3 && !log.committing
      invariant Calm(log.bc.buf[..], log.bc.disk.blocks, log.area, log.Entries())
      invariant Unborrowed(log.bc.buf[..], log.Entries())
    {
      assert log.n == |log.Entries()|;
      LogNext(log, 100 + k);
      k := k + 1;
    }
  }

  // Two of the three operations end.
  method TwoEnd(log: Log)
    requires log.Valid() && log.outstanding == 3 && !log.committing
    requires Calm(log.bc.buf[..], log.bc.disk.blocks, log.area, log.Entries())
    modifies log, log.block, log.bc, log.bc.buf, log.bc.next, log.bc.prev, log.bc.disk
    ensures log.Valid() && log.outstanding == 1 && !log.committing && log.Entries() == old(log.Entries())
    ensures log.bc.buf[..] == old(log.bc.buf[..]) && log.bc.disk.blocks == old(log.bc.disk.blocks)
  {
    hide Bio.IsRing, Bio.Ordered, Bio.Distinct, Bio.View, Coherent, Unique, Count, Pinned, GoodTargets, Calm, Spare;
    var first := log.EndOp();
    var second := log.EndOp();
  }

  // Then a process outside any operation reads another block.
  method TakeAll() returns (log: Log, x: nat)
    ensures fresh(log) && fresh(log.block) && fresh(log.bc) && fresh(log.bc.buf) && fresh(log.bc.next)
    ensures fresh(log.bc.prev) && fresh(log.bc.disk)
    ensures log.Valid() && Calm(log.bc.buf[..], log.bc.disk.blocks, log.area, log.Entries())
    ensures log.area.size == LOGSIZE && |log.Entries()| == LOGSIZE - 1 && log.outstanding == 1 && !log.committing
    ensures Borrowed(log.bc.buf[..], log.Entries()) == {x} && !Spare(log.bc.buf[..])
  {
    hide Log.Valid, Calm, Unborrowed, Borrowed, Spare;
    log := BlankLog();
    FillLog(log);
    TwoEnd(log);
    x := Borrow(log, 100 + LOGSIZE);
  }

  // The one process outside reads block b.
  method Borrow(log: Log, b: nat) returns (x: nat)
    requires log.Valid() && |log.Entries()| == NBUF - 1
    requires b < |log.bc.disk.blocks| && !log.area.Has(b) && b !in log.Entries()
    requires Calm(log.bc.buf[..], log.bc.disk.blocks, log.area, log.Entries())
    requires Unborrowed(log.bc.buf[..], log.Entries())
    modifies log.bc.buf
    ensures log.Valid() && Calm(log.bc.buf[..], log.bc.disk.blocks, log.area, log.Entries())
    ensures Borrowed(log.bc.buf[..], log.Entries()) == {x} && !Spare(log.bc.buf[..])
  {
    hide Bio.IsRing, Bio.Ordered, Bio.Distinct, Bio.View, Coherent, Unique, Calm, Unborrowed, Count, Pinned, Borrowed;
    ghost var was, t0, d0 := log.bc.buf[..], log.Entries(), log.bc.disk.blocks;
    NoneLocked(was, d0, log.area, t0, b);
    UnborrowedSpare(was, t0);
    CalmView(was, d0, log.area, t0, b);
    var r := log.bc.Bread(b);
    x := r.value;
    assert BroughtIn(was, log.bc.buf[..], x, b, d0[b]);
    BroughtInPinned(was, log.bc.buf[..], t0, x, b, d0[b]);
    BroughtInCalm(was, log.bc.buf[..], d0, log.area, t0, x, b);
    OneBorrowed(was, log.bc.buf[..], t0, x, b, d0[b]);
  }

  lemma NeverUsed(buf: seq<Buf>)
    requires forall i :: 0 <= i < |buf| ==> buf[i].refcnt == 0 && !buf[i].locked && buf[i].dev == 0
    ensures Pinned(buf, []) && Idle(buf)
  {
  }

  lemma IdleUnborrowed(buf: seq<Buf>)
    requires Idle(buf)
    ensures Unborrowed(buf, [])
  {
  }

  // The last operation then ends, and its commit finds no buffer.
  method CommitPanics() returns (r: Option<bool>)
    ensures r == Some(false)
  {
    hide Calm, Spare, Borrowed, Log.Valid;
    var log, x := TakeAll();
    r := log.EndOp();
  }
}

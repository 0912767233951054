// A file write and the log together: filewrite runs one transaction a chunk
// (file.c), iupdate stores the inode in its block (fs.c), and the log makes each
// transaction atomic (log.c).  Wherever the machine stops, recovery leaves the
// file with a prefix of what was to be written.
module Durable {
  import opened Basics
  import opened Bytes
  import opened Disk
  import opened LogSpec
  import opened Fs

  // ------------------------------------------------------- inodes on the disk

  // struct dinode: 16 words, of which the third is the size and the last 13 are
  // the block pointers.
  const DWORDS: nat := 16

  function InodeAt(b: Block, k: nat): (ino: Inode)
    requires k < IPB
    ensures |ino.addrs| == NDIRECT + 1
  {
    Inode(Word(b, DWORDS * k + 2), seq(NDIRECT + 1, s requires 0 <= s < NDIRECT + 1 => Pointer(b, k, s)))
  }

  function Pointer(b: Block, k: nat, s: nat): nat
    requires k < IPB && s <= NDIRECT
  {
    Word(b, DWORDS * k + 3 + s)
  }

  // iupdate: the size and the first n block pointers stored in entry k of b.
  function PutInode(b: Block, k: nat, ino: Inode, n: nat): Block
    requires k < IPB && n <= |ino.addrs| == NDIRECT + 1
  {
    if n == 0 then PutWord(b, DWORDS * k + 2, ino.size)
    else PutWord(PutInode(b, k, ino, n - 1), DWORDS * k + 2 + n, ino.addrs[n - 1])
  }

  predicate Storable(ino: Inode) {
    ino.size < WORD && |ino.addrs| == NDIRECT + 1 && forall s :: 0 <= s <= NDIRECT ==> ino.addrs[s] < WORD
  }

  lemma {:induction false} PutInodeWord(b: Block, k: nat, ino: Inode, n: nat, w: nat)
    requires k < IPB && Storable(ino) && n <= NDIRECT + 1 && w < IPB * DWORDS
    ensures Word(PutInode(b, k, ino, n), w) ==
      if w == DWORDS * k + 2 then ino.size
      else if DWORDS * k + 3 <= w < DWORDS * k + 3 + n then ino.addrs[w - DWORDS * k - 3]
      else Word(b, w)
  {
    hide Word, PutWord;
    if n == 0 {
      WordPutWord(b, DWORDS * k + 2, ino.size, w);
    } else {
      PutInodeWord(b, k, ino, n - 1, w);
      WordPutWord(PutInode(b, k, ino, n - 1), DWORDS * k + 2 + n, ino.addrs[n - 1], w);
    }
  }

  // The inode reads back, and its neighbours in the block are as they were.
  lemma InodeStored(b: Block, k: nat, ino: Inode, k': nat)
    requires k < IPB && k' < IPB && Storable(ino)
    ensures InodeAt(PutInode(b, k, ino, NDIRECT + 1), k') == if k' == k then ino else InodeAt(b, k')
  {
    hide Word, PutWord, PutInode;
    var c := PutInode(b, k, ino, NDIRECT + 1);
    PutInodeWord(b, k, ino, NDIRECT + 1, DWORDS * k' + 2);
    forall s: nat | s <= NDIRECT
      ensures InodeAt(c, k').addrs[s] == if k' == k then ino.addrs[s] else InodeAt(b, k').addrs[s]
    {
      PutInodeWord(b, k, ino, NDIRECT + 1, DWORDS * k' + 3 + s);
    }
    assert InodeAt(c, k').addrs == if k' == k then ino.addrs else InodeAt(b, k').addrs;
  }

  // Where the fields lie: inode i is entry i % 16 of block inodestart + i / 16, at
  // 64 bytes an entry; its size is in the four bytes from 8 on and block pointer
  // s in those from 12 + 4 * s on, least significant first.
  lemma InodeBytes(sb: Super, b: Block, i: nat, s: nat)
    requires s <= NDIRECT
    ensures IBlock(sb, i) == sb.inodestart + i / 16
    ensures var p := 64 * (i % 16) + 8;
      InodeAt(b, i % IPB).size == b[p] as int + 256 * b[p + 1] as int
                                  + 0x1_0000 * b[p + 2] as int + 0x100_0000 * b[p + 3] as int
    ensures var p := 64 * (i % 16) + 12 + 4 * s;
      InodeAt(b, i % IPB).addrs[s] == b[p] as int + 256 * b[p + 1] as int
                                      + 0x1_0000 * b[p + 2] as int + 0x100_0000 * b[p + 3] as int
  {
    hide Word;
    WordIs(b, DWORDS * (i % IPB) + 2);
    WordIs(b, DWORDS * (i % IPB) + 3 + s);
  }

  // ------------------------------------------------------ volumes on the disk

  // Where things lie on a disk: the log, the inodes, then bitmap and data.
  ghost predicate Layout(sb: Super, a: Area, inums: set<nat>) {
    && MAXOPBLOCKS < a.size && a.start + a.size <= sb.inodestart
    && forall i <- inums :: IBlock(sb, i) < sb.bmapstart
  }

  // The disk holds the volume.
  ghost predicate Image(sb: Super, v: Volume, disk: seq<Block>) {
    && |disk| == |v.blocks| && sb.bmapstart <= |disk|
    && (forall b :: sb.bmapstart <= b < |disk| ==> disk[b] == v.blocks[b])
    && (forall i <- v.inodes :: IBlock(sb, i) < |disk| && InodeAt(disk[IBlock(sb, i)], i % IPB) == v.inodes[i])
  }

  // The volume as read from a disk; only which inodes are in use and the ghost
  // owners are taken from v.
  function ReadFrom(sb: Super, v: Volume, disk: seq<Block>): Volume
    requires forall i <- v.inodes :: IBlock(sb, i) < |disk|
  {
    Volume(disk, map i | i in v.inodes :: InodeAt(disk[IBlock(sb, i)], i % IPB), v.own)
  }

  // A disk that holds a valid volume is itself a valid file system with the
  // same files.
  lemma ImageReads(sb: Super, v: Volume, disk: seq<Block>)
    requires Valid(sb, v) && Image(sb, v, disk)
    ensures var w := ReadFrom(sb, v, disk);
      && w.inodes == v.inodes && Valid(sb, w)
      && forall j <- v.inodes :: MappedFile(v, j) && MappedFile(w, j) && Content(w, j) == Content(v, j)
  {
    hide Ref, Marked, Content, ByteAt;
    var w := ReadFrom(sb, v, disk);
    assert w.inodes == v.inodes;
    forall j: nat, s: nat | j in v.inodes && s < NSLOT ensures Ref(w, j, s) == Ref(v, j, s) {
      ImageRef(sb, v, disk, j, s);
    }
    forall x: nat | x < sb.size ensures Marked(sb, w.blocks, x) == Marked(sb, v.blocks, x) {
      ImageMarked(sb, v, disk, x);
    }
    forall j <- v.inodes ensures MappedFile(v, j) && MappedFile(w, j) {}
    forall j <- v.inodes ensures Content(w, j) == Content(v, j) {
      ImageContent(sb, v, disk, j);
    }
  }

  lemma ImageRef(sb: Super, v: Volume, disk: seq<Block>, j: nat, s: nat)
    requires Valid(sb, v) && |disk| == |v.blocks| && j in v.inodes && s < NSLOT
    requires forall b :: sb.bmapstart <= b < |disk| ==> disk[b] == v.blocks[b]
    ensures Ref(Volume(disk, v.inodes, v.own), j, s) == Ref(v, j, s)
  {
    hide Marked, Word, BitmapExact, Mapped;
    if s > NDIRECT && Ref(v, j, NDIRECT) != 0 {
      RefOwned(sb, v, j, NDIRECT);
    }
  }

  lemma ImageMarked(sb: Super, v: Volume, disk: seq<Block>, x: nat)
    requires Geometry(sb, v.blocks) && |disk| == |v.blocks| && x < sb.size
    requires forall b :: sb.bmapstart <= b < |disk| ==> disk[b] == v.blocks[b]
    ensures Marked(sb, disk, x) == Marked(sb, v.blocks, x)
  {
    hide Bit;
    BBlockMeta(sb, v.blocks, x);
  }

  lemma ImageContent(sb: Super, v: Volume, disk: seq<Block>, j: nat)
    requires Valid(sb, v) && |disk| == |v.blocks| && j in v.inodes
    requires forall b :: sb.bmapstart <= b < |disk| ==> disk[b] == v.blocks[b]
    ensures MappedFile(v, j) && Content(Volume(disk, v.inodes, v.own), j) == Content(v, j)
  {
    hide Ref, Marked, Owned, Claimed, BitmapExact;
    var w := Volume(disk, v.inodes, v.own);
    assert MappedFile(v, j);
    forall k: nat | k < v.inodes[j].size ensures ByteAt(w, j, k) == ByteAt(v, j, k) {
      assert k / BSIZE * BSIZE <= k;
      ImageRef(sb, v, disk, j, DataSlot(k / BSIZE));
      RefOwned(sb, v, j, DataSlot(k / BSIZE));
    }
  }

  // ------------------------------------------------------------ one transaction

  // The blocks as bread returns them when the transaction that made w commits:
  // iupdate has stored inode i in its block.
  function AtCommit(sb: Super, disk: seq<Block>, w: Volume, i: nat): (r: seq<Block>)
    requires |disk| == |w.blocks| && i in w.inodes && |w.inodes[i].addrs| == NDIRECT + 1
    ensures |r| == |disk|
  {
    seq(|disk|, b requires 0 <= b < |disk| =>
      if sb.bmapstart <= b then w.blocks[b]
      else if b == IBlock(sb, i) then PutInode(disk[b], i % IPB, w.inodes[i], NDIRECT + 1)
      else disk[b])
  }

  // The log lists each logged block once, in whatever order.
  ghost predicate Lists(targets: seq<nat>, logged: set<nat>) {
    && (forall x :: x in targets <==> x in logged)
    && (forall p, q :: 0 <= p < q < |targets| ==> targets[p] != targets[q])
  }

  lemma {:induction false} ListSize(targets: seq<nat>, logged: set<nat>)
    requires Lists(targets, logged)
    ensures |targets| == |logged|
    decreases |targets|
  {
    if targets == [] {
      assert logged == {};
    } else {
      var x, rest := targets[0], targets[1..];
      assert targets == [x] + rest;
      forall q | 0 <= q < |rest| ensures rest[q] != x {
        assert rest[q] == targets[q + 1];
      }
      ListSize(rest, logged - {x});
      assert logged == logged - {x} + {x};
    }
  }

  // A transaction of a file write fits the log, and touches nothing of it.
  lemma TransactionFits(sb: Super, a: Area, v: Volume, w: Volume, i: nat, logged: set<nat>, targets: seq<nat>)
    requires Transaction(sb, v, w, i, logged) && Layout(sb, a, v.inodes.Keys) && Lists(targets, logged)
    ensures GoodTargets(targets, a, |v.blocks|)
  {
    hide Owned, Claimed, BitmapExact, Mapped, Marked;
    ListSize(targets, logged);
    forall p | 0 <= p < |targets|
      ensures targets[p] < |v.blocks| && targets[p] < WORD && !a.Has(targets[p])
    {
      assert targets[p] in logged;
    }
  }

  lemma InodeStorable(sb: Super, v: Volume, i: nat)
    requires Valid(sb, v) && i in v.inodes
    ensures Storable(v.inodes[i])
  {
    hide Owned, Claimed, BitmapExact, Marked, Word;
    assert MappedFile(v, i);
    forall s: nat | s < NDIRECT + 1 ensures v.inodes[i].addrs[s] < WORD {
      if v.inodes[i].addrs[s] != 0 {
        RefOwned(sb, v, i, s);
      }
    }
  }

  // Applied to a disk that holds v, it leaves one that holds w.
  lemma TransactionStored(sb: Super, a: Area, v: Volume, w: Volume, i: nat, logged: set<nat>, targets: seq<nat>,
                          disk: seq<Block>)
    requires Transaction(sb, v, w, i, logged) && Layout(sb, a, v.inodes.Keys) && Lists(targets, logged)
    requires Image(sb, v, disk) && |w.blocks| == |disk| && i in w.inodes && |w.inodes[i].addrs| == NDIRECT + 1
    ensures Image(sb, w, Apply(disk, targets, AtCommit(sb, disk, w, i)))
  {
    hide Valid, PutInode, InodeAt;
    var e := Apply(disk, targets, AtCommit(sb, disk, w, i));
    forall b | sb.bmapstart <= b < |disk| ensures e[b] == w.blocks[b] {
      assert b !in logged ==> w.blocks[b] == v.blocks[b];
    }
    forall j <- w.inodes ensures IBlock(sb, j) < |disk| && InodeAt(e[IBlock(sb, j)], j % IPB) == w.inodes[j] {
      InodeKept(sb, a, v, w, i, logged, targets, disk, j);
    }
  }

  lemma InodeKept(sb: Super, a: Area, v: Volume, w: Volume, i: nat, logged: set<nat>, targets: seq<nat>,
                  disk: seq<Block>, j: nat)
    requires Transaction(sb, v, w, i, logged) && Layout(sb, a, v.inodes.Keys) && Lists(targets, logged)
    requires Image(sb, v, disk) && |w.blocks| == |disk| && i in w.inodes && |w.inodes[i].addrs| == NDIRECT + 1
    requires j in w.inodes
    ensures IBlock(sb, j) < |disk|
    ensures InodeAt(Apply(disk, targets, AtCommit(sb, disk, w, i))[IBlock(sb, j)], j % IPB) == w.inodes[j]
  {
    hide Valid, PutInode, InodeAt;
    var b := IBlock(sb, j);
    assert b < sb.bmapstart;
    if b == IBlock(sb, i) && b in logged {
      InodeStorable(sb, w, i);
      InodeStored(disk[b], i % IPB, w.inodes[i], j % IPB);
      if j % IPB == i % IPB {
        SameEntry(i, j);
      }
    } else {
      assert b !in targets && (v == w || j != i);
    }
  }

  lemma SameEntry(i: nat, j: nat)
    requires i / IPB == j / IPB && j % IPB == i % IPB
    ensures i == j
  {
  }

  // Recovery and the log change nothing a volume is stored in.
  lemma ImageHome(sb: Super, a: Area, v: Volume, d: seq<Block>, e: seq<Block>)
    requires Layout(sb, a, v.inodes.Keys) && SameHome(e, d, a) && Image(sb, v, d)
    requires a.start + a.size <= sb.bmapstart
    ensures Image(sb, v, e)
  {
    hide InodeAt;
    forall j <- v.inodes ensures e[IBlock(sb, j)] == d[IBlock(sb, j)] {
      assert !a.Has(IBlock(sb, j));
    }
  }

  // --------------------------------------------------------------- the crash

  // One transaction of a file write from disk d to disk e: its commit, with a
  // crash anywhere in it and any crashes during recovery.
  ghost predicate CrashStep(sb: Super, a: Area, w: Volume, i: nat, logged: set<nat>, d: seq<Block>, t: Txn,
                            e: seq<Block>,
                            images: seq<seq<Block>>) {
    && |d| == |w.blocks| && i in w.inodes && |w.inodes[i].addrs| == NDIRECT + 1
    && Lists(t.targets, logged) && t.cache == AtCommit(sb, d, w, i)
    && if t.targets == [] then e == d else Step(d, t, e, images, a)
  }

  // Its header reached the disk, or there was nothing to write.
  predicate Committed(t: Txn) {
    t.targets == [] || t.wrote > |t.targets|
  }

  lemma CrashStepStored(sb: Super, a: Area, v: Volume, w: Volume, i: nat, logged: set<nat>, d: seq<Block>, t: Txn,
                        e: seq<Block>, images: seq<seq<Block>>)
    requires Transaction(sb, v, w, i, logged) && Layout(sb, a, v.inodes.Keys) && Image(sb, v, d)
    requires CrashStep(sb, a, w, i, logged, d, t, e, images)
    requires a.start < |d| && Count(d[a.start]) == 0
    ensures Image(sb, if Committed(t) then w else v, e)
    ensures |e| == |d| && Count(e[a.start]) == 0
  {
    hide Valid, Image, AtCommit, Layout, GoodTargets;
    if t.targets == [] {
      NothingLogged(sb, v, w, i, logged);
    } else {
      AreaFirst(sb, a, v, i);
      StepAtomic(d, t, e, images, a);
      if Committed(t) {
        TransactionStored(sb, a, v, w, i, logged, t.targets, d);
        ImageHome(sb, a, w, Apply(d, t.targets, t.cache), e);
      } else {
        ImageHome(sb, a, v, d, e);
      }
    }
  }

  lemma NothingLogged(sb: Super, v: Volume, w: Volume, i: nat, logged: set<nat>)
    requires Transaction(sb, v, w, i, logged) && Lists([], logged)
    ensures v == w
  {
  }

  lemma AreaFirst(sb: Super, a: Area, v: Volume, i: nat)
    requires Layout(sb, a, v.inodes.Keys) && i in v.inodes
    ensures a.start + a.size <= sb.bmapstart
  {
  }

  // A file write up to some point: every transaction but the last has been
  // committed, and the last is cut off anywhere.
  ghost predicate CutOff(sb: Super, a: Area, vols: seq<Volume>, ops: seq<set<nat>>, i: nat, disks: seq<seq<Block>>,
                         run: seq<Txn>, images: seq<seq<seq<Block>>>) {
    && |vols| == |ops| + 1 && |run| <= |ops| && |disks| == |run| + 1 && |images| == |run|
    && (forall k :: 0 <= k < |run| ==> CrashStep(sb, a, vols[k + 1], i, ops[k], disks[k], run[k], disks[k + 1],
                                                 images[k]))
    && (forall k :: 0 <= k < |run| - 1 ==> Committed(run[k]))
  }

  // The disk holds what the committed transactions made.
  lemma {:induction false} DiskHolds(sb: Super, a: Area, vols: seq<Volume>, ops: seq<set<nat>>, i: nat, off: nat,
                                     src: seq<Byte>, disks: seq<seq<Block>>, run: seq<Txn>,
                                     images: seq<seq<seq<Block>>>, k: nat)
    requires History(sb, vols, ops, i, off, src) && CutOff(sb, a, vols, ops, i, disks, run, images) && k <= |run|
    requires Layout(sb, a, vols[0].inodes.Keys) && Image(sb, vols[0], disks[0])
    requires a.start < |disks[0]| && Count(disks[0][a.start]) == 0
    ensures Image(sb, if k > 0 && !Committed(run[k - 1]) then vols[k - 1] else vols[k], disks[k])
    ensures vols[k].inodes.Keys == vols[0].inodes.Keys
    ensures |disks[k]| == |disks[0]| && Count(disks[k][a.start]) == 0
  {
    hide Transaction, SomePrefix, CrashStep, Image, Layout, Committed;
    if k > 0 {
      DiskHolds(sb, a, vols, ops, i, off, src, disks, run, images, k - 1);
      assert k > 1 ==> Committed(run[k - 2]);
      assert Transaction(sb, vols[k - 1], vols[k], i, ops[k - 1]);
      assert CrashStep(sb, a, vols[k], i, ops[k - 1], disks[k - 1], run[k - 1], disks[k], images[k - 1]);
      KeysSame(sb, vols[k - 1], vols[k], i, ops[k - 1]);
      CrashStepStored(sb, a, vols[k - 1], vols[k], i, ops[k - 1], disks[k - 1], run[k - 1], disks[k], images[k - 1]);
    }
  }

  lemma KeysSame(sb: Super, v: Volume, w: Volume, i: nat, logged: set<nat>)
    requires Transaction(sb, v, w, i, logged)
    ensures w.inodes.Keys == v.inodes.Keys
  {
  }

  // The files of w are those of v0, except that the first n bytes of src have
  // been written over file i from off on.
  predicate HoldsPrefix(sb: Super, v0: Volume, w: Volume, i: nat, off: nat, src: seq<Byte>, n: nat) {
    && Valid(sb, v0) && Valid(sb, w) && i in v0.inodes && w.inodes.Keys == v0.inodes.Keys && n <= |src|
    && (forall j <- v0.inodes :: MappedFile(v0, j) && MappedFile(w, j))
    && (forall j <- v0.inodes :: j != i ==> Content(w, j) == Content(v0, j))
    && if n == 0 then Content(w, i) == Content(v0, i)
       else off <= v0.inodes[i].size && Content(w, i) == Overwrite(Content(v0, i), off, src[..n])
  }

  lemma PrefixRead(sb: Super, v0: Volume, v: Volume, disk: seq<Block>, i: nat, off: nat, src: seq<Byte>, n: nat)
    requires WrittenUpTo(sb, v0, v, i, off, src, n) && Image(sb, v, disk)
    ensures HoldsPrefix(sb, v0, ReadFrom(sb, v, disk), i, off, src, n)
  {
    hide Content, Owned, Claimed, BitmapExact, MappedFile, ReadFrom, Image;
    WrittenUpToValid(sb, v0, v, i, off, src, n);
    ImageReads(sb, v, disk);
    if v == v0 && n == 0 {
    } else if n == 0 {
      assert src[..0] == [];
      WroteFacts(sb, v0, v, i, off, []);
    }
  }

  // The disk holds v, and as read from it the file starts with a prefix of src at
  // off: the one that has been written in v.
  ghost predicate PrefixOn(sb: Super, v0: Volume, v: Volume, disk: seq<Block>, i: nat, off: nat, src: seq<Byte>) {
    && Image(sb, v, disk)
    && exists n: nat :: WrittenUpTo(sb, v0, v, i, off, src, n) &&
                        HoldsPrefix(sb, v0, ReadFrom(sb, v, disk), i, off, src, n)
  }

  // A crash at any disk write of a file write, with any crashes in recovery,
  // leaves a valid file system in which the file holds a prefix of what was to
  // be written, namely that of the transactions whose header reached the disk.
  lemma FileWriteCrash(sb: Super, a: Area, vols: seq<Volume>, ops: seq<set<nat>>, i: nat, off: nat, src: seq<Byte>,
                       disks: seq<seq<Block>>, run: seq<Txn>, images: seq<seq<seq<Block>>>)
    requires History(sb, vols, ops, i, off, src) && CutOff(sb, a, vols, ops, i, disks, run, images)
    requires Layout(sb, a, vols[0].inodes.Keys) && Image(sb, vols[0], disks[0])
    requires a.start < |disks[0]| && Count(disks[0][a.start]) == 0
    ensures var m := if run != [] && !Committed(run[|run| - 1]) then |run| - 1 else |run|;
      m < |vols| && |run| < |disks| && PrefixOn(sb, vols[0], vols[m], disks[|run|], i, off, src)
  {
    hide Transaction, CrashStep, Image, Layout, Committed, WrittenUpTo, HoldsPrefix;
    DiskHolds(sb, a, vols, ops, i, off, src, disks, run, images, |run|);
    var m := if run != [] && !Committed(run[|run| - 1]) then |run| - 1 else |run|;
    assert SomePrefix(sb, vols[0], vols[m], i, off, src);
    var n: nat :| WrittenUpTo(sb, vols[0], vols[m], i, off, src, n);
    PrefixRead(sb, vols[0], vols[m], disks[|run|], i, off, src, n);
  }
}

// The chunk of filewrite is as large as it can be: on a disk with one free
// block left to each bitmap block, a write of CHUNK bytes logs MAXOPBLOCKS
// blocks, and a write of CHUNK + 1 bytes one more.
module Crowded {
  import opened Basics
  import opened Bytes
  import opened Disk
  import opened Fs

  const FIRST: nat := 8007   // the first block after the metadata
  const TOP: nat := 32768    // four bitmap blocks full, but for their last bits
  const LASTI: nat := 92     // the inode that is written to

  // The blocks in use: the blocks from FIRST on, in turn the 269 blocks of one
  // inode after another, without the last block of each bitmap block.
  predicate Taken(x: nat) { FIRST <= x < TOP && x % BPB != BPB - 1 }

  function SlotOf(i: nat, s: nat): nat {
    if Taken(FIRST + NSLOT * i + s) then FIRST + NSLOT * i + s else 0
  }

  function Table(i: nat): Block {
    seq(BSIZE, o requires 0 <= o < BSIZE =>
      var a := SlotOf(i, NDIRECT + 1 + o / 4);
      if o % 4 == 0 then a % 256 else if o % 4 == 1 then a / 256 % 256 else if o % 4 == 2 then a / 65536 % 256
      else a / 16777216 % 256)
  }

  function Bitmap(): Block {
    seq(BSIZE, o requires 0 <= o < BSIZE => if o == BSIZE - 1 then 127 else 255)
  }

  function BlockOf(b: nat): Block {
    if 1 <= b <= 4 then Bitmap()
    else if Taken(b) && (b - FIRST) % NSLOT == NDIRECT then Table((b - FIRST) / NSLOT)
    else Zeros(BSIZE)
  }

  // m more blocks follow, with a bitmap block of their own.
  function Sb(m: nat): Super { Super(TOP + m, 100, 1, FIRST) }

  predicate HasInode(i: nat) { i <= LASTI }

  // The last inode has 12 direct blocks and no indirect one; the other files
  // are empty, but keep their blocks.
  function Start(m: nat): Volume {
    Volume(
      seq(TOP + m, b requires 0 <= b < TOP + m => BlockOf(b)),
      map i: nat | i <= LASTI && HasInode(i) ::
        Inode(if i == LASTI then NDIRECT * BSIZE
              else 0, seq(NDIRECT + 1, s requires 0 <= s <= NDIRECT => SlotOf(i, s))),
      map x: nat | x < TOP && Taken(x) :: Owner((x - FIRST) / NSLOT, (x - FIRST) % NSLOT))
  }

  // -------------------------------------------------------- it is a file system

  lemma SlotOwner(x: nat)
    requires Taken(x)
    ensures (x - FIRST) / NSLOT <= LASTI && SlotOf((x - FIRST) / NSLOT, (x - FIRST) % NSLOT) == x
  {
    assert x - FIRST == NSLOT * ((x - FIRST) / NSLOT) + (x - FIRST) % NSLOT;
  }

  lemma SlotInverse(i: nat, s: nat)
    requires s < NSLOT && SlotOf(i, s) != 0
    ensures var x := SlotOf(i, s); Taken(x) && (x - FIRST) / NSLOT == i && (x - FIRST) % NSLOT == s
  {
  }

  // Every inode but the last has an indirect block.
  lemma Tables(i: nat, s: nat)
    requires i <= LASTI && s < NSLOT
    ensures i < LASTI ==> SlotOf(i, NDIRECT) != 0
    ensures i == LASTI ==> (SlotOf(i, s) != 0 <==> s < NDIRECT)
  {
    var x := FIRST + NSLOT * i + NDIRECT;
    assert x / BPB <= 4;
    if x % BPB == BPB - 1 {
      assert x == BPB * (x / BPB) + BPB - 1;
    }
  }

  lemma TableWord(i: nat, j: nat)
    requires j < NINDIRECT
    ensures Word(Table(i), j) == SlotOf(i, NDIRECT + 1 + j)
  {
    var a := SlotOf(i, NDIRECT + 1 + j);
    var t := Table(i);
    assert (4 * j) / 4 == (4 * j + 1) / 4 == (4 * j + 2) / 4 == (4 * j + 3) / 4 == j;
    assert t[4 * j..4 * j + 4] == [a % 256, a / 256 % 256, a / 65536 % 256, a / 16777216 % 256];
    Encoded(a);
    Pow256Word();
    DecodeEncode(a, 4);
  }

  lemma Encoded(a: nat)
    ensures Encode(a, 4) == [a % 256, a / 256 % 256, a / 65536 % 256, a / 16777216 % 256]
  {
    assert Encode(a / 16777216, 1) == [a / 16777216 % 256] + Encode(a / 16777216 / 256, 0);
    assert a / 65536 / 256 == a / 16777216 && a / 256 / 256 == a / 65536;
    assert Encode(a / 65536, 2) == [a / 65536 % 256] + Encode(a / 16777216, 1);
    assert Encode(a / 256, 3) == [a / 256 % 256] + Encode(a / 65536, 2);
    assert Encode(a, 4) == [a % 256] + Encode(a / 256, 3);
  }

  lemma RefSlot(m: nat, i: nat, s: nat)
    requires m <= 1 && i <= LASTI && s < NSLOT
    ensures Shaped(Start(m)) && i in Start(m).inodes && Ref(Start(m), i, s) == SlotOf(i, s)
  {
    hide Table, Bitmap, Word;
    Tables(i, s);
    var t := SlotOf(i, NDIRECT);
    if s > NDIRECT && t != 0 {
      SlotInverse(i, NDIRECT);
      TableWord(i, s - NDIRECT - 1);
      assert Start(m).blocks[t] == BlockOf(t) == Table(i);
    }
  }

  lemma AllBits(k: nat)
    requires k < 8
    ensures Bit(255, k) && (Bit(127, k) <==> k < 7) && !Bit(0, k)
  {
    assert Bit(255, k) && (Bit(127, k) <==> k < 7) && !Bit(0, k) by {
      if k == 0 {} else if k == 1 {} else if k == 2 {} else if k == 3 {} else if k == 4 {} else if k == 5 {}
        else if k == 6 {}
      else {
        assert k == 7;
      }
    }
  }

  lemma MarkedIff(m: nat, x: nat)
    requires m <= 1 && x < TOP + m
    ensures Geometry(Sb(m), Start(m).blocks) && (Marked(Sb(m), Start(m).blocks, x) <==> x < FIRST || Taken(x))
  {
    hide Bit, Table;
    AllBits(x % 8);
    assert Start(m).blocks[BBlock(Sb(m), x)] == BlockOf(BBlock(Sb(m), x));
    assert x % BPB == BPB - 1 <==> x % BPB / 8 == BSIZE - 1 && x % 8 == 7 by {
      assert x % BPB == x % BPB / 8 * 8 + x % BPB % 8;
    }
  }

  lemma StartValid(m: nat)
    requires m <= 1
    ensures Valid(Sb(m), Start(m))
  {
    hide Ref, Marked, BlockOf, SlotOf, Taken;
    var v := Start(m);
    forall i: nat, s: nat | i <= LASTI && s < NSLOT ensures Ref(v, i, s) == SlotOf(i, s) {
      RefSlot(m, i, s);
    }
    MarkedIff(m, 0);
    forall x: nat | x < TOP + m ensures Marked(Sb(m), v.blocks, x) <==> x < FIRST || x in v.own {
      MarkedIff(m, x);
      if Taken(x) { TakenRange(x); }
    }
    forall x <- v.own
      ensures FIRST <= x < TOP && v.own[x].inum <= LASTI && SlotOf(v.own[x].inum, v.own[x].slot) == x
    {
      TakenRange(x);
      SlotOwner(x);
    }
    forall i: nat, s: nat | i <= LASTI && s < NSLOT && SlotOf(i, s) != 0
      ensures SlotOf(i, s) in v.own && v.own[SlotOf(i, s)] == Owner(i, s)
    {
      SlotInverse(i, s);
      TakenRange(SlotOf(i, s));
    }
    forall i <- v.inodes ensures MappedFile(v, i) {
      forall n: nat | n < MAXFILE && n * BSIZE < v.inodes[i].size ensures Ref(v, i, DataSlot(n)) != 0 {
        Tables(i, n);
      }
    }
  }

  lemma TakenRange(x: nat)
    requires Taken(x)
    ensures FIRST <= x < TOP
  {
  }

  // ------------------------------------------------------------- the write

  // Where the write begins, and the last block of the file that it touches.
  function From(m: nat): nat { NDIRECT * BSIZE - 1 + m }

  function LastBlock(m: nat): nat { NDIRECT + 2 + m }

  // The free blocks, one to each bitmap block.
  function Holes(m: nat): set<nat> {
    {8191, 16383, 24575, 32767} + if m == 1 then {32768} else {}
  }

  lemma HolesFree(m: nat, x: nat)
    requires m <= 1 && x < TOP + m
    ensures x in Holes(m) <==> x >= FIRST && !Taken(x)
    ensures x in Holes(m) ==> BBlock(Sb(m), x) == 1 + x / BPB && (x < TOP ==> x == x / BPB * BPB + BPB - 1)
  {
  }

  // Whatever file i gains comes from the holes.
  lemma GainedHole(m: nat, v: Volume, s: nat)
    requires m <= 1 && Valid(Sb(m), v) && Gains(Start(m), v, LASTI, From(m) / BSIZE, LastBlock(m))
    requires s < NSLOT && SlotOf(LASTI, s) == 0 && LASTI in v.inodes && Ref(v, LASTI, s) != 0
    ensures Ref(v, LASTI, s) in Holes(m) && Ref(v, LASTI, s) < TOP + m
  {
    hide Ref, Marked, Owned, Claimed, BitmapExact, Mapped, Taken, Holes, SlotOf, Start;
    var x := Ref(v, LASTI, s);
    RefOwned(Sb(m), v, LASTI, s);
    HolesFree(m, x);
    if Taken(x) {
      SlotOwner(x);
      var j, t := (x - FIRST) / NSLOT, (x - FIRST) % NSLOT;
      RefSlot(m, j, t);
      assert Ref(v, j, t) == x;
      NoSharing(Sb(m), v, j, t, LASTI, s);
    }
  }

  // The slot that a hole has gone to.
  lemma HoleSlot(m: nat, v: Volume, n: nat, f: nat) returns (s: nat)
    requires m <= 1 && Valid(Sb(m), v) && Gains(Start(m), v, LASTI, From(m) / BSIZE, LastBlock(m))
    requires Full(Sb(m), v.blocks) && Missing(v, LASTI, n) && f in Holes(m) && f < TOP + m
    ensures NDIRECT <= s <= LastBlock(m) + 1 && s != DataSlot(n) && LASTI in v.inodes && Ref(v, LASTI, s) == f
  {
    hide Ref, Marked, Claimed, Mapped, Taken, Holes, SlotOf, Start;
    HolesFree(m, f);
    assert f in v.own;
    var o := v.own[f];
    assert Ref(v, o.inum, o.slot) == f;
    assert o.inum in Start(m).inodes;
    InStart(m, o.inum);
    RefSlot(m, o.inum, o.slot);
    if SlotOf(o.inum, o.slot) == f {
      SlotInverse(o.inum, o.slot);
      assert false;
    }
    Tables(LASTI, o.slot);
    s := o.slot;
  }

  lemma InStart(m: nat, i: nat)
    ensures i in Start(m).inodes <==> i <= LASTI
  {
  }

  // There are as many holes as slots to fill, so the write is not cut short.
  lemma NotShort(m: nat, v: Volume, n: nat)
    requires m <= 1 && Valid(Sb(m), v) && Gains(Start(m), v, LASTI, From(m) / BSIZE, LastBlock(m))
    requires From(m) / BSIZE <= n <= LastBlock(m) && Missing(v, LASTI, n)
    ensures !Full(Sb(m), v.blocks)
  {
    hide Ref, Marked, Owned, Claimed, BitmapExact, Mapped, Taken, SlotOf, Start;
    if Full(Sb(m), v.blocks) {
      RefSlot(m, LASTI, DataSlot(n));
      Tables(LASTI, DataSlot(n));
      assert n >= NDIRECT;
      var s0 := HoleSlot(m, v, n, 8191);
      var s1 := HoleSlot(m, v, n, 16383);
      var s2 := HoleSlot(m, v, n, 24575);
      var s3 := HoleSlot(m, v, n, 32767);
      if m == 1 {
        var s4 := HoleSlot(m, v, n, 32768);
        assert false;
      } else {
        assert false;
      }
    }
  }

  // ---------------------------------------------------------- what it must log

  // v is what a write of d, all ones, leaves of the start.
  predicate After(m: nat, v: Volume, d: seq<Byte>) {
    && m <= 1 && |d| == CHUNK + m && (forall k :: 0 <= k < |d| ==> d[k] == 1)
    && WroteRange(Sb(m), Start(m), v, LASTI, From(m), d)
    && Gains(Start(m), v, LASTI, From(m) / BSIZE, LastBlock(m))
  }

  lemma AfterMapped(m: nat, v: Volume, d: seq<Byte>, n: nat)
    requires After(m, v, d) && n <= LastBlock(m)
    ensures Valid(Sb(m), v) && LASTI in v.inodes && Ref(v, LASTI, DataSlot(n)) != 0
    ensures Ref(v, LASTI, NDIRECT) != 0
  {
    hide Ref, Marked, Owned, Claimed, BitmapExact, Taken, SlotOf, Start, Gains, Content;
    InStart(m, LASTI);
    assert MappedFile(v, LASTI);
    assert |Content(v, LASTI)| >= From(m) + |d|;
    TableFirst(Sb(m), v, LASTI, NDIRECT);
  }

  // The bytes of d are in the blocks they belong to.
  lemma AfterByte(m: nat, v: Volume, d: seq<Byte>, k: nat)
    requires After(m, v, d) && From(m) <= k < From(m) + CHUNK + m
    ensures Valid(Sb(m), v) && LASTI in v.inodes && ByteAt(v, LASTI, k) == 1
  {
    hide Ref, Marked, Owned, Claimed, BitmapExact, Taken, SlotOf, Start, Gains, ByteAt;
    InStart(m, LASTI);
    assert MappedFile(v, LASTI) && MappedFile(Start(m), LASTI);
    assert Content(v, LASTI)[k] == ByteAt(v, LASTI, k);
  }

  lemma ZeroStart(m: nat, x: nat)
    requires m <= 1 && x < TOP + m && (x in Holes(m) || x == TOP - 2)
    ensures Start(m).blocks[x] == Zeros(BSIZE)
  {
    assert (TOP - 2 - FIRST) % NSLOT == 11;
  }

  // The data block n of the file has changed.
  lemma DataChanged(m: nat, v: Volume, d: seq<Byte>, n: nat)
    requires After(m, v, d) && From(m) / BSIZE <= n <= LastBlock(m)
    ensures LASTI in v.inodes && Shaped(v)
    ensures var x := Ref(v, LASTI, DataSlot(n));
      x < TOP + m && (x in Holes(m) || x == TOP - 2 ==> v.blocks[x] != Start(m).blocks[x])
  {
    hide Marked, Owned, Claimed, BitmapExact, Mapped, Taken, SlotOf, Holes, Start, Gains, Ref, WroteRange;
    AfterMapped(m, v, d, n);
    RefOwned(Sb(m), v, LASTI, DataSlot(n));
    var x := Ref(v, LASTI, DataSlot(n));
    var k := if n * BSIZE < From(m) then From(m) else n * BSIZE;
    AfterByte(m, v, d, k);
    assert k / BSIZE == n;
    if x in Holes(m) || x == TOP - 2 {
      ZeroStart(m, x);
    }
  }

  // So has the new indirect block.
  lemma TableChanged(m: nat, v: Volume, d: seq<Byte>)
    requires After(m, v, d)
    ensures LASTI in v.inodes && Shaped(v)
    ensures var t := Ref(v, LASTI, NDIRECT);
      t in Holes(m) && t < TOP + m && v.blocks[t] != Start(m).blocks[t]
  {
    hide Marked, Owned, Claimed, BitmapExact, Mapped, Taken, SlotOf, Holes, Start, Gains, Word;
    AfterMapped(m, v, d, NDIRECT);
    var t := Ref(v, LASTI, NDIRECT);
    Tables(LASTI, NDIRECT);
    GainedHole(m, v, NDIRECT);
    ZeroStart(m, t);
    WordZero(Zeros(BSIZE), 0);
    assert Ref(v, LASTI, NDIRECT + 1) == Word(v.blocks[t], 0);
  }

  // The bitmap block of every block the file has gained has changed.
  lemma BitmapChanged(m: nat, v: Volume, d: seq<Byte>, s: nat)
    requires After(m, v, d) && s < NSLOT && LASTI in v.inodes && Shaped(v) && Ref(v, LASTI, s) in Holes(m)
    ensures var b := 1 + Ref(v, LASTI, s) / BPB;
      b < TOP + m == |v.blocks| && v.blocks[b] != Start(m).blocks[b]
  {
    hide Ref, Owned, Claimed, BitmapExact, Mapped, Taken, SlotOf, Holes, Start, Gains, Bit;
    var x := Ref(v, LASTI, s);
    assert x != 0 by { HolesPositive(m); }
    RefOwned(Sb(m), v, LASTI, s);
    HolesFree(m, x);
    MarkedIff(m, x);
  }

  lemma HolesPositive(m: nat)
    ensures 0 !in Holes(m) && |Holes(m)| == if m == 1 then 5 else 4
  {
  }

  // Every hole has become a block of the file.
  lemma AllHoles(m: nat, v: Volume, d: seq<Byte>, f: nat) returns (s: nat)
    requires After(m, v, d) && f in Holes(m)
    ensures s == NDIRECT || (NDIRECT < s <= LastBlock(m) + 1)
    ensures LASTI in v.inodes && Shaped(v) && Ref(v, LASTI, s) == f
  {
    hide Ref, Marked, Owned, Claimed, BitmapExact, Mapped, Taken, SlotOf, Start, Gains, WroteRange;
    GainedAt(m, v, d, NDIRECT);
    forall t: nat | NDIRECT <= t <= LastBlock(m) + 1 ensures Ref(v, LASTI, t) in Holes(m) {
      GainedAt(m, v, d, t);
    }
    forall t: nat, u: nat | NDIRECT <= u < t <= LastBlock(m) + 1 ensures Ref(v, LASTI, t) != Ref(v, LASTI, u) {
      GainedApart(m, v, d, t, u);
    }
    hide Holes, After;
    var a, b, c, e := Ref(v, LASTI, 12), Ref(v, LASTI, 13), Ref(v, LASTI, 14), Ref(v, LASTI, 15);
    assert a != b && a != c && a != e && b != c && b != e && c != e;
    HolesPositive(m);
    if m == 1 {
      var g := Ref(v, LASTI, 16);
      assert g != a && g != b && g != c && g != e;
      assert |{a, b, c, e, g}| == 5;
      SameSize({a, b, c, e, g}, Holes(m));
    } else {
      assert |{a, b, c, e}| == 4;
      SameSize({a, b, c, e}, Holes(m));
    }
    s := if f == a then 12 else if f == b then 13 else if f == c then 14 else if f == e then 15 else 16;
  }

  lemma GainedAt(m: nat, v: Volume, d: seq<Byte>, t: nat)
    requires After(m, v, d) && NDIRECT <= t <= LastBlock(m) + 1
    ensures LASTI in v.inodes && Shaped(v) && Valid(Sb(m), v) && Ref(v, LASTI, t) != 0 && Ref(v, LASTI, t) in Holes(m)
  {
    hide Ref, Marked, Owned, Claimed, BitmapExact, Mapped, Taken, SlotOf, Start, Gains, WroteRange, Holes;
    AfterMapped(m, v, d, if t == NDIRECT then t else t - 1);
    Tables(LASTI, t);
    GainedHole(m, v, t);
  }

  lemma GainedApart(m: nat, v: Volume, d: seq<Byte>, t: nat, u: nat)
    requires m <= 1 && After(m, v, d) && NDIRECT <= u < t <= LastBlock(m) + 1
    ensures LASTI in v.inodes && Shaped(v) && Ref(v, LASTI, t) != Ref(v, LASTI, u)
  {
    hide Ref, Marked, Owned, Claimed, BitmapExact, Mapped, Taken, SlotOf, Start, Gains, WroteRange, Holes, After;
    GainedAt(m, v, d, t);
    if Ref(v, LASTI, t) == Ref(v, LASTI, u) {
      NoSharing(Sb(m), v, LASTI, t, LASTI, u);
    }
  }

  lemma SameSize(a: set<nat>, b: set<nat>)
    requires a <= b && |a| >= |b|
    ensures a == b
  {
    assert |b| == |a| + |b - a| by { assert b == a + (b - a); }
    if b - a != {} {
      var x :| x in b - a;
    }
  }

  // A hole and its bitmap block have been logged.
  lemma HoleLogged(m: nat, v: Volume, d: seq<Byte>, logged: set<nat>, f: nat)
    requires After(m, v, d) && f in Holes(m)
    requires |v.blocks| == TOP + m && forall b :: 0 <= b < TOP + m && v.blocks[b] != Start(m).blocks[b] ==> b in logged
    ensures f in logged && 1 + f / BPB in logged
  {
    hide Ref, Marked, Taken, SlotOf, Start, Gains, WroteRange, Holes;
    var s := AllHoles(m, v, d, f);
    BitmapChanged(m, v, d, s);
    if s == NDIRECT {
      TableChanged(m, v, d);
    } else {
      DataChanged(m, v, d, s - 1);
    }
  }

  lemma MustLog(m: nat, v: Volume, d: seq<Byte>, logged: set<nat>)
    requires m <= 1 && After(m, v, d) && IBlock(Sb(m), LASTI) in logged
    requires |v.blocks| == TOP + m && forall b :: 0 <= b < TOP + m && v.blocks[b] != Start(m).blocks[b] ==> b in logged
    ensures |logged| >= MAXOPBLOCKS + m
  {
    hide Ref, Marked, Taken, SlotOf, Start, Gains, WroteRange, After;
    Blocks(m);
    HoleLogged(m, v, d, logged, 8191);
    HoleLogged(m, v, d, logged, 16383);
    HoleLogged(m, v, d, logged, 24575);
    HoleLogged(m, v, d, logged, 32767);
    if m == 1 {
      HoleLogged(m, v, d, logged, 32768);
    } else {
      FirstBlock(m, v, d);
      DataChanged(m, v, d, 11);
    }
    SubsetSize(Least(m), logged);
  }

  // The inode, the holes and their bitmap blocks, and for an unaligned write
  // the block it begins in.
  function Least(m: nat): set<nat> {
    {105, 1, 2, 3, 4, 8191, 16383, 24575, 32767} + if m == 1 then {5, 32768} else {TOP - 2}
  }

  lemma Blocks(m: nat)
    requires m <= 1
    ensures IBlock(Sb(m), LASTI) == 105 && |Least(m)| == MAXOPBLOCKS + m
  {
    assert |{105, 1, 2, 3, 4, 8191, 16383, 24575, 32767}| == 9;
  }

  // An unaligned write begins in the last block the file already has.
  lemma FirstBlock(m: nat, v: Volume, d: seq<Byte>)
    requires After(m, v, d)
    ensures LASTI in v.inodes && Shaped(v) && Ref(v, LASTI, 11) == TOP - 2
  {
    hide Ref, Marked, Owned, Claimed, BitmapExact, Mapped, Start;
    RefSlot(m, LASTI, 11);
    InStart(m, LASTI);
  }

  // CHUNK bytes log MAXOPBLOCKS blocks, and CHUNK + 1 bytes one more.
  method WriteChunk(m: nat) returns (fs: FileSystem, r: int)
    requires m <= 1
    ensures fresh(fs) && fs.sb == Sb(m) && Valid(fs.sb, fs.Now())
    ensures r == CHUNK + m && WroteRange(fs.sb, Start(m), fs.Now(), LASTI, From(m), seq(CHUNK + m, _ => 1))
    ensures |fs.logged| == MAXOPBLOCKS + m
  {
    hide Ref, Marked, Owned, Claimed, BitmapExact, Mapped, Taken, SlotOf, Start, Gains, WroteRange, Full, Missing,
         WriteCost;
    StartValid(m);
    StartFacts(m);
    var v := Start(m);
    fs := new FileSystem(Sb(m), v.blocks, v.inodes, v.own);
    var d: seq<Byte> := seq(CHUNK + m, _ => 1);
    ItsCost(m);
    ghost var u, lost;
    r, u, lost := fs.Writei(LASTI, From(m), d, |d|);
    SpillSame(u, fs.Now(), LASTI, From(m) + r);
    WroteFacts(Sb(m), v, fs.Now(), LASTI, From(m), d[..r]);
    if r < |d| {
      NotShort(m, fs.Now(), (From(m) + r) / BSIZE);
      assert false;
    }
    assert d[..r] == d;
    MustLog(m, fs.Now(), d, fs.logged);
    assert fs.logged - {} == fs.logged;
  }

  lemma StartFacts(m: nat)
    requires m <= 1
    ensures var v := Start(m);
      LASTI in v.inodes && v.inodes[LASTI].size == NDIRECT * BSIZE && Volume(v.blocks, v.inodes, v.own) == v
  {
    InStart(m, LASTI);
  }

  lemma ItsCost(m: nat)
    requires m <= 1
    ensures WriteCost(From(m), CHUNK + m) == MAXOPBLOCKS + m
    ensures From(m) / BSIZE == 11 + m && (From(m) + CHUNK + m - 1) / BSIZE == LastBlock(m)
  {
  }
}

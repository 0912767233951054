// Blocks and file contents (fs.c, file.c): the free bitmap, the direct and
// indirect block map of an inode, byte access through it, and the splitting of
// a long write into log transactions.
module Fs {
  import opened Basics
  import opened Bytes
  import opened Disk

  const BPB: nat := 8192
  const NDIRECT: nat := 12
  const NINDIRECT: nat := 256
  const MAXFILE: nat := 268
  const IPB: nat := 16

  // ------------------------------------------------------------------- bits

  function Pow2(k: nat): nat {
    if k == 0 then 1 else 2 * Pow2(k - 1)
  }

  // (x & (1 << k)) != 0
  predicate Bit(x: nat, k: nat) {
    if k == 0 then x % 2 == 1 else Bit(x / 2, k - 1)
  }

  // x | (1 << k) when v, x & ~(1 << k) otherwise
  function WithBit(x: nat, k: nat, v: bool): nat {
    if k == 0 then 2 * (x / 2) + (if v then 1 else 0) else x % 2 + 2 * WithBit(x / 2, k - 1, v)
  }

  lemma HalfBelow(x: nat, p: nat)
    requires x < 2 * p
    ensures x / 2 < p
  {
  }

  lemma {:induction false} WithBitBound(x: nat, k: nat, v: bool, n: nat)
    requires k < n && x < Pow2(n)
    ensures WithBit(x, k, v) < Pow2(n)
  {
    assert Pow2(n) == 2 * Pow2(n - 1);
    HalfBelow(x, Pow2(n - 1));
    if k > 0 {
      WithBitBound(x / 2, k - 1, v, n - 1);
    }
  }

  lemma {:induction false} BitWithBit(x: nat, k: nat, v: bool, j: nat)
    ensures Bit(WithBit(x, k, v), j) == if j == k then v else Bit(x, j)
  {
    if k > 0 && j > 0 {
      BitWithBit(x / 2, k - 1, v, j - 1);
    }
  }

  function WithBitByte(x: Byte, k: nat, v: bool): (r: Byte)
    requires k < 8
  {
    assert WithBit(x, k, v) < 256 by {
      assert Pow2(8) == 256;
      WithBitBound(x, k, v, 8);
    }
    WithBit(x, k, v)
  }

  // ------------------------------------------------------------- the bitmap

  // The superblock; blocks below nmeta are boot block, superblock, log, inodes
  // and bitmap.
  datatype Super = Super(size: nat, inodestart: nat, bmapstart: nat, nmeta: nat)

  predicate Geometry(sb: Super, blocks: seq<Block>) {
    && |blocks| == sb.size < 0x8000_0000
    && 0 < sb.bmapstart
    && sb.bmapstart + (sb.size + BPB - 1) / BPB <= sb.nmeta <= sb.size
  }

  function BBlock(sb: Super, x: nat): nat {
    x / BPB + sb.bmapstart
  }

  lemma BBlockMeta(sb: Super, blocks: seq<Block>, x: nat)
    requires Geometry(sb, blocks) && x < sb.size
    ensures 0 < BBlock(sb, x) < sb.nmeta
  {
  }

  predicate Marked(sb: Super, blocks: seq<Block>, x: nat)
    requires Geometry(sb, blocks) && x < sb.size
  {
    Bit(blocks[BBlock(sb, x)][x % BPB / 8], x % 8)
  }

  function SetMark(sb: Super, blocks: seq<Block>, x: nat, v: bool): (r: seq<Block>)
    requires Geometry(sb, blocks) && x < sb.size
    ensures Geometry(sb, r)
    ensures forall b :: 0 <= b < |blocks| && b != BBlock(sb, x) ==> r[b] == blocks[b]
  {
    var m := blocks[BBlock(sb, x)];
    blocks[BBlock(sb, x) := m[x % BPB / 8 := WithBitByte(m[x % BPB / 8], x % 8, v)]]
  }

  lemma SetMarkMarked(sb: Super, blocks: seq<Block>, x: nat, v: bool, y: nat)
    requires Geometry(sb, blocks) && x < sb.size && y < sb.size
    ensures Marked(sb, SetMark(sb, blocks, x, v), y) == if x == y then v else Marked(sb, blocks, y)
  {
    hide Bit, WithBit;
    BitWithBit(blocks[BBlock(sb, x)][x % BPB / 8], x % 8, v, y % 8);
    if x / BPB == y / BPB && x % BPB / 8 == y % BPB / 8 && x % 8 == y % 8 {
      SamePlace(x, y);
    }
  }

  lemma SamePlace(x: nat, y: nat)
    requires x / BPB == y / BPB && x % BPB / 8 == y % BPB / 8 && x % 8 == y % 8
    ensures x == y
  {
    BitOfByte(x);
    BitOfByte(y);
  }

  lemma BitOfByte(x: nat)
    ensures x % BPB % 8 == x % 8
  {
    assert x == 8 * (BPB / 8 * (x / BPB)) + x % BPB;
  }

  // Marks x and fills it with zeros.
  function Allocated(sb: Super, blocks: seq<Block>, x: nat): (r: seq<Block>)
    requires Geometry(sb, blocks) && x < sb.size
    ensures Geometry(sb, r)
  {
    SetMark(sb, blocks, x, true)[x := Zeros(BSIZE)]
  }

  lemma AllocatedMarked(sb: Super, blocks: seq<Block>, x: nat, y: nat)
    requires Geometry(sb, blocks) && sb.nmeta <= x < sb.size && y < sb.size
    ensures Marked(sb, Allocated(sb, blocks, x), y) == (x == y || Marked(sb, blocks, y))
  {
    hide Bit;
    BBlockMeta(sb, blocks, y);
    SetMarkMarked(sb, blocks, x, true, y);
  }

  // ------------------------------------------------------ inodes and owners

  datatype Inode = Inode(size: nat, addrs: seq<nat>)

  // The block pointers of an inode: slots 0 to 11 are direct, slot 12 is the
  // indirect block, slot 13 + j is entry j of the indirect block.
  const NSLOT: nat := 269

  datatype Owner = Owner(inum: nat, slot: nat)

  function DataSlot(n: nat): nat {
    if n < NDIRECT then n else n + 1
  }

  // own is the inverse of all block pointers.
  datatype Volume = Volume(blocks: seq<Block>, inodes: map<nat, Inode>, own: map<nat, Owner>)

  function At(blocks: seq<Block>, ino: Inode, s: nat): nat
    requires |ino.addrs| == NDIRECT + 1 && s < NSLOT
  {
    if s <= NDIRECT then ino.addrs[s]
    else if 0 < ino.addrs[NDIRECT] < |blocks| then Word(blocks[ino.addrs[NDIRECT]], s - NDIRECT - 1)
    else 0
  }

  predicate Shaped(v: Volume) {
    forall i <- v.inodes :: |v.inodes[i].addrs| == NDIRECT + 1
  }

  function Ref(v: Volume, i: nat, s: nat): nat
    requires Shaped(v) && i in v.inodes && s < NSLOT
  {
    At(v.blocks, v.inodes[i], s)
  }

  // While itrunc frees the entries of an indirect block it leaves the stale
  // numbers in place: the first gone entries of inode g are then ignored.
  predicate Gone(g: nat, gone: nat, i: nat, s: nat) {
    i == g && NDIRECT + 1 <= s < NDIRECT + 1 + gone
  }

  predicate Owned(sb: Super, v: Volume, g: nat, gone: nat)
    requires Shaped(v)
  {
    forall x <- v.own ::
      && sb.nmeta <= x < sb.size && v.own[x].inum in v.inodes && v.own[x].slot < NSLOT
      && !Gone(g, gone, v.own[x].inum, v.own[x].slot)
      && Ref(v, v.own[x].inum, v.own[x].slot) == x
  }

  predicate Claimed(v: Volume, g: nat, gone: nat)
    requires Shaped(v)
  {
    forall i: nat, s: nat :: i in v.inodes && s < NSLOT && !Gone(g, gone, i, s) && Ref(v, i, s) != 0 ==>
      Ref(v, i, s) in v.own && v.own[Ref(v, i, s)] == Owner(i, s)
  }

  // The bitmap marks exactly the metadata and the blocks some inode points to.
  predicate BitmapExact(sb: Super, v: Volume)
    requires Geometry(sb, v.blocks)
  {
    forall x: nat :: x < sb.size ==> (Marked(sb, v.blocks, x) <==> x < sb.nmeta || x in v.own)
  }

  predicate Sound(sb: Super, v: Volume, g: nat, gone: nat) {
    Geometry(sb, v.blocks) && Shaped(v) && Owned(sb, v, g, gone) && Claimed(v, g, gone) && BitmapExact(sb, v)
  }

  // Every block below the size of a file is mapped.
  predicate MappedFile(v: Volume, i: nat)
    requires Shaped(v) && i in v.inodes
  {
    && v.inodes[i].size <= MAXFILE * BSIZE
    && forall n: nat :: n < MAXFILE && n * BSIZE < v.inodes[i].size ==> Ref(v, i, DataSlot(n)) != 0
  }

  predicate Mapped(v: Volume)
    requires Shaped(v)
  {
    forall i <- v.inodes :: MappedFile(v, i)
  }

  predicate Valid(sb: Super, v: Volume) {
    Sound(sb, v, 0, 0) && Mapped(v)
  }

  lemma RefOwned(sb: Super, v: Volume, i: nat, s: nat)
    requires Valid(sb, v) && i in v.inodes && s < NSLOT && Ref(v, i, s) != 0
    ensures var x := Ref(v, i, s);
      x in v.own && v.own[x] == Owner(i, s) && sb.nmeta <= x < sb.size && Marked(sb, v.blocks, x)
  {
    hide Ref;
  }

  // No block is reached twice, by whichever inode and slot.
  lemma NoSharing(sb: Super, v: Volume, i: nat, s: nat, i': nat, s': nat)
    requires Valid(sb, v) && i in v.inodes && i' in v.inodes && s < NSLOT && s' < NSLOT
    requires Ref(v, i, s) == Ref(v, i', s') != 0
    ensures i == i' && s == s'
    ensures sb.nmeta <= Ref(v, i, s) < sb.size && Marked(sb, v.blocks, Ref(v, i, s))
  {
  }

  // --------------------------------------------------------------- contents

  // The file as a byte sequence.
  function Content(v: Volume, i: nat): (c: seq<Byte>)
    requires Shaped(v) && i in v.inodes && v.inodes[i].size <= MAXFILE * BSIZE
    ensures |c| == v.inodes[i].size
  {
    seq(v.inodes[i].size, k requires 0 <= k < v.inodes[i].size => ByteAt(v, i, k))
  }

  function ByteAt(v: Volume, i: nat, k: nat): Byte
    requires Shaped(v) && i in v.inodes && k < MAXFILE * BSIZE
  {
    var x := Ref(v, i, DataSlot(k / BSIZE));
    if x < |v.blocks| then v.blocks[x][k % BSIZE] else 0
  }

  // Where byte k of a file is: in the block whose number is pointer k / BSIZE of
  // the inode or, from the 13th block on, the entry of the indirect block that is
  // NDIRECT smaller.
  lemma ContentAt(v: Volume, i: nat, k: nat)
    requires Shaped(v) && i in v.inodes && k < v.inodes[i].size <= MAXFILE * BSIZE
    ensures var a := v.inodes[i].addrs;
      && (k < 12 * 1024 && a[k / 1024] < |v.blocks| ==> Content(v, i)[k] == v.blocks[a[k / 1024]][k % 1024])
      && (k >= 12 * 1024 && 0 < a[12] < |v.blocks| && Word(v.blocks[a[12]], k / 1024 - 12) < |v.blocks| ==>
          Content(v, i)[k] == v.blocks[Word(v.blocks[a[12]], k / 1024 - 12)][k % 1024])
  {
    hide Word;
    assert k / BSIZE * BSIZE <= k;
  }

  // Block n of a file is behind pointer n of the inode, or behind entry n - 12 of
  // the indirect block.
  lemma DataRef(v: Volume, i: nat, n: nat)
    requires Shaped(v) && i in v.inodes && n < MAXFILE
    ensures var a := v.inodes[i].addrs; var x := Ref(v, i, DataSlot(n));
      && (n < 12 ==> x == a[n])
      && (n >= 12 && x != 0 ==> 0 < a[12] < |v.blocks| && x == Word(v.blocks[a[12]], n - 12))
  {
  }

  // The mark of block x is bit x % 8 of byte x % 8192 / 8 of its bitmap block.
  lemma MarkedIs(sb: Super, blocks: seq<Block>, x: nat)
    requires Geometry(sb, blocks) && x < sb.size
    ensures sb.bmapstart + x / 8192 < |blocks|
    ensures Marked(sb, blocks, x) <==>
      (blocks[sb.bmapstart + x / 8192][x % 8192 / 8] / [1, 2, 4, 8, 16, 32, 64, 128][x % 8]) % 2 == 1
  {
    BitIs(blocks[BBlock(sb, x)][x % BPB / 8], x % 8);
  }

  lemma HalfFirst(y: Byte, k: nat)
    requires 0 < k < 8
    ensures y / [1, 2, 4, 8, 16, 32, 64, 128][k] == y / 2 / [1, 2, 4, 8, 16, 32, 64][k - 1]
  {
    if k == 1 {
    } else if k == 2 {
      assert y / 4 == y / 2 / 2;
    } else if k == 3 {
      assert y / 8 == y / 2 / 4;
    } else if k == 4 {
      assert y / 16 == y / 2 / 8;
    } else if k == 5 {
      assert y / 32 == y / 2 / 16;
    } else if k == 6 {
      assert y / 64 == y / 2 / 32;
    } else {
      assert y / 128 == y / 2 / 64;
    }
  }

  lemma {:induction false} BitIs(y: Byte, k: nat)
    requires k < 8
    ensures Bit(y, k) <==> (y / [1, 2, 4, 8, 16, 32, 64, 128][k]) % 2 == 1
  {
    if k > 0 {
      BitIs(y / 2, k - 1);
      assert y / [1, 2, 4, 8, 16, 32, 64, 128][k] == y / 2 / [1, 2, 4, 8, 16, 32, 64][k - 1] by {
        HalfFirst(y, k);
      }
    }
  }

  // ------------------------------------------------------- adding one block

  // Block x allocated and its number stored in slot s of inode i.
  function Link(sb: Super, v: Volume, i: nat, s: nat, x: nat): (r: Volume)
    requires Geometry(sb, v.blocks) && Shaped(v) && i in v.inodes && s < NSLOT && x < sb.size
    requires s > NDIRECT ==> v.inodes[i].addrs[NDIRECT] < sb.size
    ensures Geometry(sb, r.blocks) && Shaped(r) && r.inodes.Keys == v.inodes.Keys
  {
    var ino := v.inodes[i];
    var blocks := Allocated(sb, v.blocks, x);
    if s <= NDIRECT then
      Volume(blocks, v.inodes[i := ino.(addrs := ino.addrs[s := x])], v.own[x := Owner(i, s)])
    else
      var t := ino.addrs[NDIRECT];
      Volume(blocks[t := PutWord(blocks[t], s - NDIRECT - 1, x)], v.inodes, v.own[x := Owner(i, s)])
  }

  predicate Linkable(sb: Super, v: Volume, i: nat, s: nat, x: nat) {
    && Valid(sb, v) && i in v.inodes && s < NSLOT && x < sb.size && !Marked(sb, v.blocks, x)
    && Ref(v, i, s) == 0
    && (s > NDIRECT ==> Ref(v, i, NDIRECT) != 0)
  }

  lemma LinkableTable(sb: Super, v: Volume, i: nat, s: nat, x: nat)
    requires Linkable(sb, v, i, s, x)
    ensures sb.nmeta <= x && x !in v.own
    ensures s > NDIRECT ==> sb.nmeta <= v.inodes[i].addrs[NDIRECT] < sb.size && Ref(v, i, NDIRECT) in v.own
  {
    hide Marked;
  }

  lemma LinkRef(sb: Super, v: Volume, i: nat, s: nat, x: nat, i': nat, s': nat)
    requires Linkable(sb, v, i, s, x) && i' in v.inodes && s' < NSLOT
    requires s > NDIRECT ==> v.inodes[i].addrs[NDIRECT] < sb.size
    ensures Ref(Link(sb, v, i, s, x), i', s') == if i' == i && s' == s then x else Ref(v, i', s')
  {
    hide Marked, Mapped, PutWord, Word, SetMark, BitmapExact;
    LinkableTable(sb, v, i, s, x);
    if s' > NDIRECT {
      var t := v.inodes[i'].addrs[NDIRECT];
      assert t == Ref(v, i', NDIRECT) && !Gone(0, 0, i', NDIRECT);
      if i' == i && s == NDIRECT {
        WordZero(Zeros(BSIZE), s' - NDIRECT - 1);
      } else if t != 0 {
        assert t in v.own && t != x;
        BBlockMeta(sb, v.blocks, x);
        var u := v.inodes[i].addrs[NDIRECT];
        if s > NDIRECT && t == u {
          assert u == Ref(v, i, NDIRECT) && !Gone(0, 0, i, NDIRECT);
          WordPutWord(v.blocks[u], s - NDIRECT - 1, x, s' - NDIRECT - 1);
        }
      }
    }
  }

  lemma LinkBlocks(sb: Super, v: Volume, i: nat, s: nat, x: nat, b: nat)
    requires Linkable(sb, v, i, s, x) && sb.nmeta <= b < sb.size
    requires s > NDIRECT ==> v.inodes[i].addrs[NDIRECT] < sb.size
    ensures b != x && (s > NDIRECT ==> b != Ref(v, i, NDIRECT)) ==> Link(sb, v, i, s, x).blocks[b] == v.blocks[b]
    ensures Link(sb, v, i, s, x).blocks[x] == Zeros(BSIZE)
  {
    hide Marked, Owned, Claimed, BitmapExact, Mapped, PutWord, SetMark;
    LinkableTable(sb, v, i, s, x);
    BBlockMeta(sb, v.blocks, x);
  }

  lemma LinkOwned(sb: Super, v: Volume, i: nat, s: nat, x: nat)
    requires Linkable(sb, v, i, s, x)
    requires s > NDIRECT ==> v.inodes[i].addrs[NDIRECT] < sb.size
    ensures Owned(sb, Link(sb, v, i, s, x), 0, 0)
    ensures Claimed(Link(sb, v, i, s, x), 0, 0)
  {
    hide Ref, Marked, Mapped, BitmapExact, Allocated;
    var r := Link(sb, v, i, s, x);
    LinkableTable(sb, v, i, s, x);
    assert r.own == v.own[x := Owner(i, s)];
    forall i': nat, s': nat | i' in v.inodes && s' < NSLOT
      ensures Ref(r, i', s') == if i' == i && s' == s then x else Ref(v, i', s')
    {
      LinkRef(sb, v, i, s, x, i', s');
    }
  }

  lemma LinkKeepsSound(sb: Super, v: Volume, i: nat, s: nat, x: nat)
    requires Linkable(sb, v, i, s, x)
    requires s > NDIRECT ==> v.inodes[i].addrs[NDIRECT] < sb.size
    ensures Sound(sb, Link(sb, v, i, s, x), 0, 0)
  {
    hide Ref, Marked, Mapped, Owned, Claimed, Allocated;
    var r := Link(sb, v, i, s, x);
    LinkableTable(sb, v, i, s, x);
    LinkOwned(sb, v, i, s, x);
    assert r.own == v.own[x := Owner(i, s)];
    forall y: nat | y < sb.size
      ensures Marked(sb, r.blocks, y) == (x == y || Marked(sb, v.blocks, y))
    {
      LinkMarked(sb, v, i, s, x, y);
    }
  }

  lemma LinkMarked(sb: Super, v: Volume, i: nat, s: nat, x: nat, y: nat)
    requires Linkable(sb, v, i, s, x) && y < sb.size
    requires s > NDIRECT ==> v.inodes[i].addrs[NDIRECT] < sb.size
    ensures Marked(sb, Link(sb, v, i, s, x).blocks, y) == (x == y || Marked(sb, v.blocks, y))
  {
    hide Bit, Owned, Claimed, BitmapExact, Mapped, PutWord, Allocated;
    LinkableTable(sb, v, i, s, x);
    AllocatedMarked(sb, v.blocks, x, y);
    BBlockMeta(sb, v.blocks, y);
  }

  // What adding blocks keeps: every mapped block stays mapped with its bytes.
  predicate Extends(v: Volume, w: Volume)
    requires Shaped(v) && Shaped(w)
  {
    && v.inodes.Keys == w.inodes.Keys
    && (forall i <- v.inodes :: w.inodes[i].size == v.inodes[i].size)
    && (forall i: nat, s: nat :: i in v.inodes && s < NSLOT && Ref(v, i, s) != 0 ==> Ref(w, i, s) == Ref(v, i, s))
    && (forall i: nat, k: nat :: i in v.inodes && k < MAXFILE * BSIZE && Ref(v, i, DataSlot(k / BSIZE)) != 0 ==>
        ByteAt(w, i, k) == ByteAt(v, i, k))
  }

  lemma ExtendsTrans(u: Volume, v: Volume, w: Volume)
    requires Shaped(u) && Shaped(v) && Shaped(w) && Extends(u, v) && Extends(v, w)
    ensures Extends(u, w)
  {
    hide Ref, ByteAt;
  }

  lemma ExtendsContent(v: Volume, w: Volume, i: nat)
    requires Shaped(v) && Shaped(w) && Extends(v, w) && i in v.inodes && MappedFile(v, i)
    ensures MappedFile(w, i) && Content(w, i) == Content(v, i)
  {
    hide Ref, ByteAt;
  }

  lemma LinkKeeps(sb: Super, v: Volume, i: nat, s: nat, x: nat)
    requires Linkable(sb, v, i, s, x)
    requires s > NDIRECT ==> v.inodes[i].addrs[NDIRECT] < sb.size
    ensures Valid(sb, Link(sb, v, i, s, x))
    ensures Extends(v, Link(sb, v, i, s, x))
  {
    hide Ref, Marked, Owned, Claimed, BitmapExact, Allocated, PutWord, ByteAt;
    LinkKeepsSound(sb, v, i, s, x);
    var r := Link(sb, v, i, s, x);
    forall i': nat, s': nat | i' in v.inodes && s' < NSLOT
      ensures Ref(r, i', s') == if i' == i && s' == s then x else Ref(v, i', s')
    {
      LinkRef(sb, v, i, s, x, i', s');
    }
    forall i': nat, k: nat | i' in v.inodes && k < MAXFILE * BSIZE && Ref(v, i', DataSlot(k / BSIZE)) != 0
      ensures ByteAt(r, i', k) == ByteAt(v, i', k)
    {
      LinkByte(sb, v, i, s, x, i', k);
    }
    forall i' <- r.inodes
      ensures MappedFile(r, i')
    {
      assert MappedFile(v, i');
    }
  }

  lemma LinkByte(sb: Super, v: Volume, i: nat, s: nat, x: nat, i': nat, k: nat)
    requires Linkable(sb, v, i, s, x) && i' in v.inodes && k < MAXFILE * BSIZE
    requires Ref(v, i', DataSlot(k / BSIZE)) != 0
    requires s > NDIRECT ==> v.inodes[i].addrs[NDIRECT] < sb.size
    ensures ByteAt(Link(sb, v, i, s, x), i', k) == ByteAt(v, i', k)
  {
    hide Ref, Marked, Owned, Claimed, BitmapExact, Link;
    var n := k / BSIZE;
    RefOwned(sb, v, i', DataSlot(n));
    LinkRef(sb, v, i, s, x, i', DataSlot(n));
    if s > NDIRECT {
      RefOwned(sb, v, i, NDIRECT);
    }
    LinkBlocks(sb, v, i, s, x, Ref(v, i', DataSlot(n)));
  }

  // ------------------------------------------------------------ allocation

  // The least free block from x on; 0 when there is none.
  function LeastFree(sb: Super, blocks: seq<Block>, x: nat): (r: nat)
    requires Geometry(sb, blocks)
    ensures r == 0 || (x <= r < sb.size && !Marked(sb, blocks, r))
    decreases sb.size - x
  {
    if x >= sb.size then 0 else if !Marked(sb, blocks, x) then x else LeastFree(sb, blocks, x + 1)
  }

  lemma {:induction false} LeastFreeFirst(sb: Super, blocks: seq<Block>, x: nat, y: nat)
    requires Geometry(sb, blocks)
    requires x <= y < sb.size && !Marked(sb, blocks, y)
    ensures LeastFree(sb, blocks, x) <= y && (x > 0 ==> LeastFree(sb, blocks, x) > 0)
    ensures LeastFree(sb, blocks, x) == 0 ==> x == 0 && !Marked(sb, blocks, 0)
    decreases y - x
  {
    hide Marked;
    if x < y && Marked(sb, blocks, x) {
      LeastFreeFirst(sb, blocks, x + 1, y);
    }
  }

  lemma LeastFreeStep(sb: Super, blocks: seq<Block>, x: nat)
    requires Geometry(sb, blocks)
    ensures LeastFree(sb, blocks, x) ==
      if x >= sb.size then 0 else if !Marked(sb, blocks, x) then x else LeastFree(sb, blocks, x + 1)
  {
  }

  lemma PlaceInBlock(b: nat, bi: nat)
    requires b % BPB == 0 && bi < BPB
    ensures (b + bi) / BPB == b / BPB && (b + bi) % BPB == bi && (b + bi) % 8 == bi % 8
  {
  }

  // The bit of block b + bi, in the terms of the loop that scans bitmap block b.
  lemma BitPlace(sb: Super, blocks: seq<Block>, b: nat, bi: nat)
    requires Geometry(sb, blocks) && b % BPB == 0 && bi < BPB && b + bi < sb.size
    ensures BBlock(sb, b) == BBlock(sb, b + bi) < sb.nmeta
    ensures Marked(sb, blocks, b + bi) <==> Bit(blocks[BBlock(sb, b)][bi / 8], bi % 8)
    ensures var bp := blocks[BBlock(sb, b)];
      forall v :: SetMark(sb, blocks, b + bi, v)
        == blocks[BBlock(sb, b) := bp[bi / 8 := WithBitByte(bp[bi / 8], bi % 8, v)]]
  {
    hide Bit, WithBitByte;
    PlaceInBlock(b, bi);
    BBlockMeta(sb, blocks, b + bi);
  }

  predicate Full(sb: Super, blocks: seq<Block>)
    requires Geometry(sb, blocks)
  {
    forall x: nat :: x < sb.size ==> Marked(sb, blocks, x)
  }

  lemma FullWhenZero(sb: Super, v: Volume)
    requires Valid(sb, v)
    ensures LeastFree(sb, v.blocks, 0) == 0 <==> Full(sb, v.blocks)
  {
    hide Marked;
    MetaMarked(sb, v);
    forall y: nat | y < sb.size && !Marked(sb, v.blocks, y)
      ensures LeastFree(sb, v.blocks, 0) != 0
    {
      LeastFreeFirst(sb, v.blocks, 0, y);
    }
  }

  lemma MetaMarked(sb: Super, v: Volume)
    requires Valid(sb, v)
    ensures Marked(sb, v.blocks, 0)
  {
  }

  predicate Mappable(sb: Super, v: Volume, i: nat, s: nat) {
    && Valid(sb, v) && i in v.inodes && s < NSLOT
    && (s > NDIRECT ==> Ref(v, i, NDIRECT) != 0)
  }

  // Slot s of inode i after making sure that it holds a block, if one is free.
  function MapSlot(sb: Super, v: Volume, i: nat, s: nat): (w: Volume)
    requires Mappable(sb, v, i, s)
    ensures Valid(sb, w) && Extends(v, w)
    ensures Ref(w, i, s) == 0 ==> w == v && Full(sb, v.blocks)
    ensures Ref(v, i, s) != 0 ==> w == v
  {
    hide Marked, Ref, Owned, Claimed, BitmapExact, Mapped, Link, ByteAt;
    if Ref(v, i, s) != 0 then v
    else
      var x := LeastFree(sb, v.blocks, 0);
      FullWhenZero(sb, v);
      if x == 0 then v
      else
        LinkableTable(sb, v, i, s, x);
        LinkKeeps(sb, v, i, s, x);
        LinkRef(sb, v, i, s, x, i, s);
        Link(sb, v, i, s, x)
  }

  function MapBlock(sb: Super, v: Volume, i: nat, n: nat): (w: Volume)
    requires Valid(sb, v) && i in v.inodes && n < MAXFILE
    ensures Valid(sb, w) && Extends(v, w)
    ensures Ref(w, i, DataSlot(n)) == 0 ==> Full(sb, w.blocks)
    ensures Ref(v, i, DataSlot(n)) != 0 ==> w == v
  {
    hide Marked, Ref, Owned, Claimed, BitmapExact, Mapped, Link, ByteAt, MapSlot;
    if n < NDIRECT then MapSlot(sb, v, i, n)
    else
      var w := MapSlot(sb, v, i, NDIRECT);
      TableFirst(sb, v, i, n);
      if Ref(w, i, NDIRECT) == 0 then w
      else
        ExtendsTrans(v, w, MapSlot(sb, w, i, n + 1));
        MapSlot(sb, w, i, n + 1)
  }

  // An indirect entry exists only below an indirect block.
  lemma TableFirst(sb: Super, v: Volume, i: nat, n: nat)
    requires Valid(sb, v) && i in v.inodes && NDIRECT <= n < MAXFILE
    ensures Ref(v, i, DataSlot(n)) != 0 ==> Ref(v, i, NDIRECT) != 0
  {
  }

  // Only the asked-for slot and the indirect block can gain a block, and a new
  // data block reads as zeros.
  lemma MapBlockOnly(sb: Super, v: Volume, i: nat, n: nat, i': nat, s': nat)
    requires Valid(sb, v) && i in v.inodes && n < MAXFILE && i' in v.inodes && s' < NSLOT
    ensures (i' != i || (s' != DataSlot(n) && (s' != NDIRECT || n < NDIRECT))) ==>
      Ref(MapBlock(sb, v, i, n), i', s') == Ref(v, i', s')
    ensures var w := MapBlock(sb, v, i, n); var x := Ref(w, i, DataSlot(n));
      Ref(v, i, DataSlot(n)) == 0 && x != 0 ==> x < sb.size && !Marked(sb, v.blocks, x) && w.blocks[x] == Zeros(BSIZE)
  {
    hide Ref, Marked, Owned, Claimed, BitmapExact, Mapped, Link, ByteAt, MapSlot, SetMark;
    if n < NDIRECT {
      MapSlotOnly(sb, v, i, n, i', s');
    } else {
      TableFirst(sb, v, i, n);
      MapSlotOnly(sb, v, i, NDIRECT, i', s');
      var w := MapSlot(sb, v, i, NDIRECT);
      if Ref(w, i, NDIRECT) != 0 {
        MapSlotOnly(sb, w, i, n + 1, i', s');
        MapSlotOnly(sb, v, i, NDIRECT, i, n + 1);
        if Ref(v, i, n + 1) == 0 && Ref(MapSlot(sb, w, i, n + 1), i, n + 1) != 0 {
          MapSlotMarks(sb, v, i, NDIRECT, Ref(MapSlot(sb, w, i, n + 1), i, n + 1));
        }
      }
    }
  }

  lemma MapSlotOnly(sb: Super, v: Volume, i: nat, s: nat, i': nat, s': nat)
    requires Mappable(sb, v, i, s) && i' in v.inodes && s' < NSLOT
    ensures (i' != i || s' != s) ==> Ref(MapSlot(sb, v, i, s), i', s') == Ref(v, i', s')
    ensures var w := MapSlot(sb, v, i, s); var x := Ref(w, i, s);
      Ref(v, i, s) == 0 && x != 0 ==> x < sb.size && !Marked(sb, v.blocks, x) && w.blocks[x] == Zeros(BSIZE)
  {
    hide Ref, Marked, Owned, Claimed, BitmapExact, Mapped, Link, ByteAt;
    var x := LeastFree(sb, v.blocks, 0);
    if Ref(v, i, s) == 0 && x != 0 {
      LinkableTable(sb, v, i, s, x);
      LinkRef(sb, v, i, s, x, i', s');
      LinkRef(sb, v, i, s, x, i, s);
      LinkBlocks(sb, v, i, s, x, x);
    }
  }

  lemma MapSlotMarks(sb: Super, v: Volume, i: nat, s: nat, y: nat)
    requires Mappable(sb, v, i, s) && y < sb.size && !Marked(sb, MapSlot(sb, v, i, s).blocks, y)
    ensures !Marked(sb, v.blocks, y)
  {
    hide Ref, Marked, Owned, Claimed, BitmapExact, Mapped, Link, ByteAt;
    var x := LeastFree(sb, v.blocks, 0);
    if Ref(v, i, s) == 0 && x != 0 {
      LinkableTable(sb, v, i, s, x);
      LinkMarked(sb, v, i, s, x, y);
    }
  }

  // ------------------------------------------------------ writing one block

  function PutBytes(v: Volume, x: nat, lo: nat, data: seq<Byte>): Volume
    requires x < |v.blocks| && lo + |data| <= BSIZE
  {
    v.(blocks := v.blocks[x := Splice(v.blocks[x], lo, data)])
  }

  lemma PutBytesKeeps(sb: Super, v: Volume, i: nat, n: nat, lo: nat, data: seq<Byte>)
    requires Valid(sb, v) && i in v.inodes && n < MAXFILE && lo + |data| <= BSIZE
    requires Ref(v, i, DataSlot(n)) != 0
    ensures Ref(v, i, DataSlot(n)) < sb.size
    ensures var w := PutBytes(v, Ref(v, i, DataSlot(n)), lo, data);
      && Valid(sb, w)
      && (forall i': nat, s: nat :: i' in v.inodes && s < NSLOT ==> Ref(w, i', s) == Ref(v, i', s))
      && (forall i': nat, k: nat :: i' in v.inodes && k < MAXFILE * BSIZE && Ref(v, i', DataSlot(k / BSIZE)) != 0 ==>
          ByteAt(w, i', k) == if i' == i && 0 <= k - n * BSIZE - lo < |data| then data[k - n * BSIZE - lo]
            else ByteAt(v, i', k))
  {
    hide Ref, Marked, ByteAt;
    RefOwned(sb, v, i, DataSlot(n));
    var w := PutBytes(v, Ref(v, i, DataSlot(n)), lo, data);
    forall i': nat, s: nat | i' in v.inodes && s < NSLOT
      ensures Ref(w, i', s) == Ref(v, i', s)
    {
      PutBytesRef(sb, v, i, n, lo, data, i', s);
    }
    forall y: nat | y < sb.size
      ensures Marked(sb, w.blocks, y) == Marked(sb, v.blocks, y)
    {
      PutBytesMarked(sb, v, i, n, lo, data, y);
    }
    forall i': nat, k: nat | i' in v.inodes && k < MAXFILE * BSIZE && Ref(v, i', DataSlot(k / BSIZE)) != 0
      ensures ByteAt(w, i', k) == if i' == i && 0 <= k - n * BSIZE - lo < |data| then data[k - n * BSIZE - lo]
              else ByteAt(v, i', k)
    {
      PutBytesByte(sb, v, i, n, lo, data, i', k);
    }
    assert Owned(sb, w, 0, 0);
    assert Claimed(w, 0, 0);
    assert Mapped(w) by {
      forall i' <- w.inodes
        ensures MappedFile(w, i')
      {
        assert MappedFile(v, i');
      }
    }
  }

  lemma PutBytesRef(sb: Super, v: Volume, i: nat, n: nat, lo: nat, data: seq<Byte>, i': nat, s: nat)
    requires Valid(sb, v) && i in v.inodes && n < MAXFILE && lo + |data| <= BSIZE
    requires 0 < Ref(v, i, DataSlot(n)) < sb.size && i' in v.inodes && s < NSLOT
    ensures Ref(PutBytes(v, Ref(v, i, DataSlot(n)), lo, data), i', s) == Ref(v, i', s)
  {
    hide Marked, Mapped, Owned, Claimed, BitmapExact, Word;
    RefOwned(sb, v, i, DataSlot(n));
    if s > NDIRECT && Ref(v, i', NDIRECT) != 0 {
      RefOwned(sb, v, i', NDIRECT);
    }
  }

  lemma PutBytesMarked(sb: Super, v: Volume, i: nat, n: nat, lo: nat, data: seq<Byte>, y: nat)
    requires Valid(sb, v) && i in v.inodes && n < MAXFILE && lo + |data| <= BSIZE
    requires 0 < Ref(v, i, DataSlot(n)) < sb.size && y < sb.size
    ensures Marked(sb, PutBytes(v, Ref(v, i, DataSlot(n)), lo, data).blocks, y) == Marked(sb, v.blocks, y)
  {
    hide Ref, Bit, Mapped, Owned, Claimed, BitmapExact;
    RefOwned(sb, v, i, DataSlot(n));
    BBlockMeta(sb, v.blocks, y);
  }

  lemma PutBytesByte(sb: Super, v: Volume, i: nat, n: nat, lo: nat, data: seq<Byte>, i': nat, k: nat)
    requires Valid(sb, v) && i in v.inodes && n < MAXFILE && lo + |data| <= BSIZE
    requires 0 < Ref(v, i, DataSlot(n)) < sb.size
    requires i' in v.inodes && k < MAXFILE * BSIZE && Ref(v, i', DataSlot(k / BSIZE)) != 0
    ensures ByteAt(PutBytes(v, Ref(v, i, DataSlot(n)), lo, data), i', k)
         == if i' == i && 0 <= k - n * BSIZE - lo < |data| then data[k - n * BSIZE - lo] else ByteAt(v, i', k)
  {
    hide Ref, Marked, Mapped, Owned, Claimed, BitmapExact;
    PutBytesRef(sb, v, i, n, lo, data, i', DataSlot(k / BSIZE));
    RefOwned(sb, v, i, DataSlot(n));
    RefOwned(sb, v, i', DataSlot(k / BSIZE));
    assert k == k / BSIZE * BSIZE + k % BSIZE;
  }

  // ---------------------------------------------------- removing one block

  function After(s: nat, gone: nat): nat {
    if s > NDIRECT then gone + 1 else 0
  }

  // Slot s of inode i freed: its mark cleared and, outside the indirect block,
  // the number erased.
  function Drop(sb: Super, v: Volume, i: nat, s: nat): (r: Volume)
    requires Geometry(sb, v.blocks) && Shaped(v) && i in v.inodes && s < NSLOT && Ref(v, i, s) < sb.size
    ensures Geometry(sb, r.blocks) && Shaped(r) && r.inodes.Keys == v.inodes.Keys
  {
    var ino := v.inodes[i];
    var x := Ref(v, i, s);
    Volume(SetMark(sb, v.blocks, x, false),
           if s <= NDIRECT then v.inodes[i := ino.(addrs := ino.addrs[s := 0])] else v.inodes,
           v.own - {x})
  }

  predicate Droppable(sb: Super, v: Volume, i: nat, s: nat, gone: nat) {
    && Sound(sb, v, i, gone) && i in v.inodes && s < NSLOT && Ref(v, i, s) != 0
    && gone == if s < NDIRECT then 0 else if s == NDIRECT then NINDIRECT else s - NDIRECT - 1
  }

  lemma DroppableRef(sb: Super, v: Volume, i: nat, s: nat, gone: nat)
    requires Droppable(sb, v, i, s, gone)
    ensures var x := Ref(v, i, s);
      sb.nmeta <= x < sb.size && x in v.own && v.own[x] == Owner(i, s) && Marked(sb, v.blocks, x)
  {
    hide Ref;
  }

  lemma DropRef(sb: Super, v: Volume, i: nat, s: nat, gone: nat, i': nat, s': nat)
    requires Droppable(sb, v, i, s, gone) && i' in v.inodes && s' < NSLOT && Ref(v, i, s) < sb.size
    ensures Ref(Drop(sb, v, i, s), i', s') ==
      if i' == i && s <= NDIRECT && (s' == s || (s == NDIRECT && s' > NDIRECT)) then 0 else Ref(v, i', s')
    ensures forall b :: sb.nmeta <= b < sb.size ==> Drop(sb, v, i, s).blocks[b] == v.blocks[b]
  {
    hide Marked, BitmapExact, SetMark, Word;
    DroppableRef(sb, v, i, s, gone);
    BBlockMeta(sb, v.blocks, Ref(v, i, s));
    var t := v.inodes[i'].addrs[NDIRECT];
    assert t == Ref(v, i', NDIRECT) && !Gone(i, gone, i', NDIRECT);
  }

  lemma DropKeeps(sb: Super, v: Volume, i: nat, s: nat, gone: nat)
    requires Droppable(sb, v, i, s, gone) && Ref(v, i, s) < sb.size
    ensures Sound(sb, Drop(sb, v, i, s), i, After(s, gone))
  {
    hide Marked, Ref, SetMark;
    var r := Drop(sb, v, i, s);
    DroppableRef(sb, v, i, s, gone);
    forall i': nat, s': nat | i' in v.inodes && s' < NSLOT
      ensures Ref(r, i', s') ==
        if i' == i && s <= NDIRECT && (s' == s || (s == NDIRECT && s' > NDIRECT)) then 0 else Ref(v, i', s')
    {
      DropRef(sb, v, i, s, gone, i', s');
    }
    forall y: nat | y < sb.size
      ensures Marked(sb, r.blocks, y) == (y != Ref(v, i, s) && Marked(sb, v.blocks, y))
    {
      SetMarkMarked(sb, v.blocks, Ref(v, i, s), false, y);
    }
  }

  // An empty indirect entry is passed over.
  lemma SkipKeeps(sb: Super, v: Volume, i: nat, j: nat)
    requires Sound(sb, v, i, j) && i in v.inodes && j < NINDIRECT && Ref(v, i, NDIRECT + 1 + j) == 0
    ensures Sound(sb, v, i, j + 1)
  {
    hide Marked, Ref;
  }

  // ------------------------------------------------------- writing a range

  // c with d laid over it from off on, longer if d reaches past its end.
  function Overwrite(c: seq<Byte>, off: nat, d: seq<Byte>): (r: seq<Byte>)
    requires off <= |c|
    ensures |r| == if off + |d| > |c| then off + |d| else |c|
    ensures forall k :: 0 <= k < |r| ==> r[k] == if off <= k < off + |d| then d[k - off] else c[k]
  {
    c[..off] + d + if off + |d| < |c| then c[off + |d|..] else []
  }

  // What writei has done to v0 once it has laid d over file i at off, before it
  // adjusts the size.
  ghost predicate Written(sb: Super, v0: Volume, v: Volume, i: nat, off: nat, d: seq<Byte>) {
    && Valid(sb, v0) && i in v0.inodes && off <= v0.inodes[i].size && off + |d| <= MAXFILE * BSIZE
    && Valid(sb, v) && v.inodes.Keys == v0.inodes.Keys
    && (forall j <- v0.inodes :: v.inodes[j].size == v0.inodes[j].size && (j != i ==> Content(v, j) == Content(v0, j)))
    && (forall n: nat :: n < MAXFILE && n * BSIZE < off + |d| ==> Ref(v, i, DataSlot(n)) != 0)
    && (forall k: nat :: k < v0.inodes[i].size || k < off + |d| ==>
        ByteAt(v, i, k) == if off <= k < off + |d| then d[k - off] else ByteAt(v0, i, k))
  }

  lemma WrittenStart(sb: Super, v: Volume, i: nat, off: nat)
    requires Valid(sb, v) && i in v.inodes && off <= v.inodes[i].size
    ensures Written(sb, v, v, i, off, [])
  {
    hide Ref, ByteAt, Owned, Claimed, BitmapExact, Marked;
  }

  lemma WrittenMap(sb: Super, v0: Volume, v: Volume, i: nat, off: nat, d: seq<Byte>, n: nat)
    requires Written(sb, v0, v, i, off, d) && n < MAXFILE
    ensures Written(sb, v0, MapBlock(sb, v, i, n), i, off, d)
  {
    hide Ref, ByteAt, Owned, Claimed, BitmapExact, Marked, MapBlock, Content;
    var w := MapBlock(sb, v, i, n);
    forall j <- v0.inodes
      ensures Content(w, j) == Content(v, j)
    {
      assert MappedFile(v, j);
      ExtendsContent(v, w, j);
    }
    assert MappedFile(v, i);
    forall k: nat | k < v0.inodes[i].size || k < off + |d|
      ensures ByteAt(w, i, k) == ByteAt(v, i, k)
    {
      assert k / BSIZE * BSIZE <= k && k < MAXFILE * BSIZE;
    }
  }

  lemma WrittenPut(sb: Super, v0: Volume, v: Volume, i: nat, off: nat, d: seq<Byte>, e: seq<Byte>)
    requires Written(sb, v0, v, i, off, d) && off + |d| + |e| <= MAXFILE * BSIZE
    requires (off + |d|) % BSIZE + |e| <= BSIZE && |e| > 0
    requires 0 < Ref(v, i, DataSlot((off + |d|) / BSIZE)) < sb.size
    ensures Written(sb, v0, PutBytes(v, Ref(v, i, DataSlot((off + |d|) / BSIZE)), (off + |d|) % BSIZE, e), i, off,
                    d + e)
  {
    hide Ref, ByteAt, Owned, Claimed, BitmapExact, Marked, Content;
    var cur := off + |d|;
    var n := cur / BSIZE;
    var w := PutBytes(v, Ref(v, i, DataSlot(n)), cur % BSIZE, e);
    PutBytesKeeps(sb, v, i, n, cur % BSIZE, e);
    forall j <- v0.inodes | j != i
      ensures Content(w, j) == Content(v, j)
    {
      SameContent(v, w, j);
    }
    forall m: nat | m < MAXFILE && m * BSIZE < off + |d + e|
      ensures Ref(w, i, DataSlot(m)) != 0
    {
      assert m <= n;
      assert m < n ==> m * BSIZE < off + |d|;
    }
    assert MappedFile(v, i);
    forall k: nat | k < v0.inodes[i].size || k < off + |d + e|
      ensures ByteAt(w, i, k) == if off <= k < off + |d + e| then (d + e)[k - off] else ByteAt(v0, i, k)
    {
      WrittenPutByte(sb, v0, v, i, off, d, e, k);
    }
  }

  lemma SameContent(v: Volume, w: Volume, j: nat)
    requires Shaped(v) && Shaped(w) && j in v.inodes && j in w.inodes && w.inodes[j].size == v.inodes[j].size
    requires MappedFile(v, j)
    requires forall k: nat :: k < MAXFILE * BSIZE && Ref(v, j, DataSlot(k / BSIZE)) != 0 ==>
               ByteAt(w, j, k) == ByteAt(v, j, k)
    ensures Content(w, j) == Content(v, j)
  {
    hide Ref, ByteAt;
  }

  lemma WrittenMapped(sb: Super, v0: Volume, v: Volume, i: nat, off: nat, d: seq<Byte>, n: nat, k: nat)
    requires Shaped(v) && i in v.inodes && n < MAXFILE && n * BSIZE <= off + |d| && Ref(v, i, DataSlot(n)) != 0
    requires k < v.inodes[i].size || k < n * BSIZE + BSIZE
    requires Written(sb, v0, v, i, off, d)
    ensures k < MAXFILE * BSIZE && k / BSIZE < MAXFILE && Ref(v, i, DataSlot(k / BSIZE)) != 0
  {
    hide Ref, ByteAt, Owned, Claimed, BitmapExact, Marked, Content;
    assert MappedFile(v, i);
    assert k / BSIZE * BSIZE <= k;
    if k >= v.inodes[i].size && k >= off + |d| {
      assert n * BSIZE <= k < n * BSIZE + BSIZE;
    }
  }

  lemma WrittenPutByte(sb: Super, v0: Volume, v: Volume, i: nat, off: nat, d: seq<Byte>, e: seq<Byte>, k: nat)
    requires Written(sb, v0, v, i, off, d) && off + |d| + |e| <= MAXFILE * BSIZE
    requires (off + |d|) % BSIZE + |e| <= BSIZE && |e| > 0
    requires 0 < Ref(v, i, DataSlot((off + |d|) / BSIZE)) < sb.size
    requires k < v0.inodes[i].size || k < off + |d| + |e|
    ensures Shaped(PutBytes(v, Ref(v, i, DataSlot((off + |d|) / BSIZE)), (off + |d|) % BSIZE, e)) && MappedFile(v, i)
    ensures k < MAXFILE * BSIZE
    ensures ByteAt(PutBytes(v, Ref(v, i, DataSlot((off + |d|) / BSIZE)), (off + |d|) % BSIZE, e), i, k)
         == if off <= k < off + |d + e| then (d + e)[k - off] else ByteAt(v0, i, k)
  {
    hide Ref, ByteAt, Owned, Claimed, BitmapExact, Marked, Content;
    var cur := off + |d|;
    var n := cur / BSIZE;
    assert MappedFile(v, i);
    PutBytesKeeps(sb, v, i, n, cur % BSIZE, e);
    WrittenMapped(sb, v0, v, i, off, d, n, k);
    assert cur == n * BSIZE + cur % BSIZE;
  }

  // A write that laid d over file i at off and kept everything else.
  predicate WroteRange(sb: Super, v0: Volume, v: Volume, i: nat, off: nat, d: seq<Byte>) {
    && Valid(sb, v0) && Valid(sb, v) && i in v0.inodes && v.inodes.Keys == v0.inodes.Keys
    && (forall j <- v0.inodes :: MappedFile(v0, j) && MappedFile(v, j))
    && off <= v0.inodes[i].size
    && Content(v, i) == Overwrite(Content(v0, i), off, d)
    && (forall j <- v0.inodes :: j != i ==> Content(v, j) == Content(v0, j))
  }

  // Adjusting the size makes the bytes laid down part of the file.
  lemma WrittenDone(sb: Super, v0: Volume, v: Volume, i: nat, off: nat, d: seq<Byte>)
    requires Written(sb, v0, v, i, off, d)
    ensures i in v.inodes && v.inodes[i].size == v0.inodes[i].size
    ensures WroteRange(sb, v0, Resized(v, i, Max(off + |d|, v.inodes[i].size)), i, off, d)
    ensures Resized(v, i, v.inodes[i].size) == v
  {
    hide Ref, ByteAt, Owned, Claimed, BitmapExact, Marked, MappedFile, Content;
    var w := Resized(v, i, Max(off + |d|, v.inodes[i].size));
    ResizeKeeps(sb, v, i, Max(off + |d|, v.inodes[i].size));
    WrittenMappedFiles(sb, v0, v, i, off, d);
    WrittenContent(sb, v0, v, i, off, d);
  }

  lemma WrittenContent(sb: Super, v0: Volume, v: Volume, i: nat, off: nat, d: seq<Byte>)
    requires Written(sb, v0, v, i, off, d)
    ensures Content(Resized(v, i, Max(off + |d|, v.inodes[i].size)), i) == Overwrite(Content(v0, i), off, d)
  {
    hide Ref, ByteAt, Owned, Claimed, BitmapExact, Marked;
    assert MappedFile(v, i);
    var w := Resized(v, i, Max(off + |d|, v.inodes[i].size));
    ResizeKeeps(sb, v, i, Max(off + |d|, v.inodes[i].size));
    assert w.inodes[i].size <= MAXFILE * BSIZE;
    assert Content(w, i) == Overwrite(Content(v0, i), off, d);
  }

  function Resized(v: Volume, i: nat, size: nat): Volume
    requires i in v.inodes
  {
    v.(inodes := v.inodes[i := v.inodes[i].(size := size)])
  }

  lemma WrittenMappedFiles(sb: Super, v0: Volume, v: Volume, i: nat, off: nat, d: seq<Byte>)
    requires Written(sb, v0, v, i, off, d)
    ensures var w := Resized(v, i, Max(off + |d|, v.inodes[i].size));
      && Shaped(w) && Mapped(w)
      && forall j <- v0.inodes :: j != i ==>
           w.inodes[j].size <= MAXFILE * BSIZE && v0.inodes[j].size <= MAXFILE * BSIZE &&
             Content(w, j) == Content(v0, j)
  {
    hide Ref, ByteAt, Owned, Claimed, BitmapExact, Marked, MappedFile, Content;
    var w := Resized(v, i, Max(off + |d|, v.inodes[i].size));
    forall j <- w.inodes
      ensures Shaped(w) && MappedFile(w, j)
      ensures w.inodes[j].size <= MAXFILE * BSIZE && v0.inodes[j].size <= MAXFILE * BSIZE
      ensures j != i ==> Content(w, j) == Content(v0, j)
    {
      WrittenMappedFile(sb, v0, v, i, off, d, j);
    }
  }

  lemma WrittenMappedFile(sb: Super, v0: Volume, v: Volume, i: nat, off: nat, d: seq<Byte>, j: nat)
    requires Written(sb, v0, v, i, off, d) && j in v.inodes
    ensures var w := Resized(v, i, Max(off + |d|, v.inodes[i].size));
      && Shaped(w) && MappedFile(w, j) && MappedFile(v0, j)
      && w.inodes[j].size <= MAXFILE * BSIZE && v0.inodes[j].size <= MAXFILE * BSIZE
      && (j != i ==> Content(w, j) == Content(v0, j))
  {
    hide Ref, ByteAt, Owned, Claimed, BitmapExact, Marked, Content;
    ResizeKeeps(sb, v, i, Max(off + |d|, v.inodes[i].size));
    assert MappedFile(v, j) && MappedFile(v0, j);
    if j != i {
      SameContent(v, Resized(v, i, Max(off + |d|, v.inodes[i].size)), j);
    }
  }

  lemma ResizeKeeps(sb: Super, v: Volume, i: nat, size: nat)
    requires Geometry(sb, v.blocks) && Shaped(v) && i in v.inodes
    ensures var w := Resized(v, i, size);
      && Shaped(w)
      && (Sound(sb, v, 0, 0) ==> Sound(sb, w, 0, 0))
      && (forall j: nat, s: nat :: j in v.inodes && s < NSLOT ==> Ref(w, j, s) == Ref(v, j, s))
      && (forall j: nat, k: nat :: j in v.inodes && k < MAXFILE * BSIZE ==> ByteAt(w, j, k) == ByteAt(v, j, k))
  {
    hide Ref, ByteAt, Marked;
    forall j: nat, s: nat | j in v.inodes && s < NSLOT
      ensures Ref(Resized(v, i, size), j, s) == Ref(v, j, s)
    {
      ResizedRef(v, i, size, j, s);
    }
    forall j: nat, k: nat | j in v.inodes && k < MAXFILE * BSIZE
      ensures ByteAt(Resized(v, i, size), j, k) == ByteAt(v, j, k)
    {
      ResizedByte(v, i, size, j, k);
    }
  }

  lemma ResizedRef(v: Volume, i: nat, size: nat, j: nat, s: nat)
    requires Shaped(v) && i in v.inodes && j in v.inodes && s < NSLOT
    ensures Shaped(Resized(v, i, size)) && Ref(Resized(v, i, size), j, s) == Ref(v, j, s)
  {
    hide Word;
  }

  lemma ResizedByte(v: Volume, i: nat, size: nat, j: nat, k: nat)
    requires Shaped(v) && i in v.inodes && j in v.inodes && k < MAXFILE * BSIZE
    ensures Shaped(Resized(v, i, size)) && ByteAt(Resized(v, i, size), j, k) == ByteAt(v, j, k)
  {
    hide Ref;
    ResizedRef(v, i, size, j, DataSlot(k / BSIZE));
  }

  lemma WroteThen(sb: Super, u: Volume, v: Volume, w: Volume, i: nat, off: nat, d: seq<Byte>, e: seq<Byte>)
    requires WroteRange(sb, u, v, i, off, d) && WroteRange(sb, v, w, i, off + |d|, e)
    ensures WroteRange(sb, u, w, i, off, d + e)
  {
    hide Owned, Claimed, BitmapExact, Marked, Ref, Content, MappedFile;
  }

  lemma WroteFacts(sb: Super, v0: Volume, v: Volume, i: nat, off: nat, d: seq<Byte>)
    requires WroteRange(sb, v0, v, i, off, d)
    ensures Valid(sb, v) && v.inodes.Keys == v0.inodes.Keys && i in v.inodes
    ensures off + |d| <= v.inodes[i].size <= MAXFILE * BSIZE
    ensures off <= v0.inodes[i].size
    ensures d == [] ==> forall j <- v0.inodes :: Content(v, j) == Content(v0, j)
  {
    hide Owned, Claimed, BitmapExact, Marked, Ref;
  }

  // ---------------------------------------------------- a copy that fails

  // w is v with the bytes e stored over file i at position at, in one block.
  predicate Spilled(v: Volume, w: Volume, i: nat, at: nat, e: seq<Byte>) {
    if e == [] then w == v
    else
      && Shaped(v) && i in v.inodes && at / BSIZE < MAXFILE && at % BSIZE + |e| <= BSIZE
      && 0 < Ref(v, i, DataSlot(at / BSIZE)) < |v.blocks|
      && w == PutBytes(v, Ref(v, i, DataSlot(at / BSIZE)), at % BSIZE, e)
  }

  lemma SpillKeeps(sb: Super, v: Volume, w: Volume, i: nat, at: nat, e: seq<Byte>)
    requires Valid(sb, v) && i in v.inodes && Spilled(v, w, i, at, e)
    ensures Valid(sb, w) && w.inodes == v.inodes
    ensures forall j: nat, s: nat :: j in v.inodes && s < NSLOT ==> Ref(w, j, s) == Ref(v, j, s)
    ensures forall j <- v.inodes :: MappedFile(v, j) && MappedFile(w, j)
    ensures forall j <- v.inodes :: j != i ==> Content(w, j) == Content(v, j)
    ensures forall k: nat :: k < v.inodes[i].size ==>
      Content(w, i)[k] == if at <= k < at + |e| then e[k - at] else Content(v, i)[k]
  {
    hide Ref, ByteAt, Owned, Claimed, BitmapExact, Marked, Content, PutBytes;
    forall j <- v.inodes ensures MappedFile(v, j) {}
    if e != [] {
      PutBytesKeeps(sb, v, i, at / BSIZE, at % BSIZE, e);
      PutInodes(v, Ref(v, i, DataSlot(at / BSIZE)), at % BSIZE, e);
      forall j <- v.inodes ensures MappedFile(w, j) {}
      forall j <- v.inodes | j != i ensures Content(w, j) == Content(v, j) {
        SameContent(v, w, j);
      }
      forall k: nat | k < v.inodes[i].size
        ensures Content(w, i)[k] == if at <= k < at + |e| then e[k - at] else Content(v, i)[k]
      {
        SpillByte(sb, v, w, i, at, e, k);
      }
    }
  }

  lemma SpillByte(sb: Super, v: Volume, w: Volume, i: nat, at: nat, e: seq<Byte>, k: nat)
    requires Valid(sb, v) && i in v.inodes && Spilled(v, w, i, at, e) && e != []
    requires Shaped(w) && w.inodes == v.inodes && MappedFile(v, i) && MappedFile(w, i) && k < v.inodes[i].size
    ensures Content(w, i)[k] == if at <= k < at + |e| then e[k - at] else Content(v, i)[k]
  {
    hide Ref, ByteAt, Owned, Claimed, BitmapExact, Marked, PutBytes;
    PutBytesKeeps(sb, v, i, at / BSIZE, at % BSIZE, e);
    assert at == at / BSIZE * BSIZE + at % BSIZE && k / BSIZE * BSIZE <= k;
  }

  // The stored bytes show in the file exactly as far as they lie below its size
  // and differ from what was there.
  lemma SpillSeenIff(sb: Super, v: Volume, w: Volume, i: nat, at: nat, e: seq<Byte>)
    requires Valid(sb, v) && i in v.inodes && Spilled(v, w, i, at, e)
    ensures Valid(sb, w) && i in w.inodes && MappedFile(v, i) && MappedFile(w, i)
    ensures Content(w, i) == Content(v, i) <==>
      forall k: nat :: k < |e| && at + k < v.inodes[i].size ==> e[k] == Content(v, i)[at + k]
  {
    hide Ref, ByteAt, Owned, Claimed, BitmapExact, Marked, Content, Spilled;
    SpillKeeps(sb, v, w, i, at, e);
    assert MappedFile(v, i) && MappedFile(w, i);
    if Content(w, i) == Content(v, i) {
      forall k: nat | k < |e| && at + k < v.inodes[i].size ensures e[k] == Content(v, i)[at + k] {
        assert Content(w, i)[at + k] == e[k];
      }
    }
  }

  lemma SpillResized(v: Volume, w: Volume, i: nat, at: nat, e: seq<Byte>, size: nat)
    requires Shaped(v) && i in v.inodes && i in w.inodes && Spilled(v, w, i, at, e)
    ensures Spilled(Resized(v, i, size), Resized(w, i, size), i, at, e)
  {
    hide Ref;
    if e != [] {
      ResizedRef(v, i, size, i, DataSlot(at / BSIZE));
    }
  }

  // Bytes stored beyond the end of the file, and beyond those laid down.
  lemma WrittenBeyond(sb: Super, v0: Volume, v: Volume, i: nat, off: nat, d: seq<Byte>, e: seq<Byte>)
    requires Written(sb, v0, v, i, off, d) && v0.inodes[i].size <= off + |d| && (off + |d|) / BSIZE < MAXFILE
    requires (off + |d|) % BSIZE + |e| <= BSIZE && 0 < Ref(v, i, DataSlot((off + |d|) / BSIZE)) < sb.size
    ensures var w := PutBytes(v, Ref(v, i, DataSlot((off + |d|) / BSIZE)), (off + |d|) % BSIZE, e);
      Written(sb, v0, w, i, off, d) && FixedCost(sb, w, i) == FixedCost(sb, v, i)
  {
    hide Ref, ByteAt, Owned, Claimed, BitmapExact, Marked, Content, PutBytes, BBlock;
    var cur := off + |d|;
    var w := PutBytes(v, Ref(v, i, DataSlot(cur / BSIZE)), cur % BSIZE, e);
    PutBytesKeeps(sb, v, i, cur / BSIZE, cur % BSIZE, e);
    PutInodes(v, Ref(v, i, DataSlot(cur / BSIZE)), cur % BSIZE, e);
    forall j <- v0.inodes | j != i ensures Content(w, j) == Content(v, j) {
      SameContent(v, w, j);
    }
    forall k: nat | k < off + |d| ensures ByteAt(w, i, k) == ByteAt(v, i, k) {
      WrittenMapped(sb, v0, v, i, off, d, cur / BSIZE, k);
      assert cur == cur / BSIZE * BSIZE + cur % BSIZE;
    }
  }

  lemma PutInodes(v: Volume, x: nat, lo: nat, e: seq<Byte>)
    requires x < |v.blocks| && lo + |e| <= BSIZE
    ensures PutBytes(v, x, lo, e).inodes == v.inodes
  {
  }

  // ------------------------------------------------------------ truncation

  // itrunc on its way from v0: only file i and the bitmap have changed.
  predicate Trimmed(sb: Super, v0: Volume, v: Volume, i: nat, gone: nat) {
    && Valid(sb, v0) && i in v0.inodes && Sound(sb, v, i, gone) && v.inodes.Keys == v0.inodes.Keys
    && (forall j <- v0.inodes :: j != i ==> v.inodes[j] == v0.inodes[j])
    && (forall b :: sb.nmeta <= b < sb.size ==> v.blocks[b] == v0.blocks[b])
  }

  lemma TrimmedDrop(sb: Super, v0: Volume, v: Volume, i: nat, s: nat, gone: nat)
    requires Trimmed(sb, v0, v, i, gone) && Droppable(sb, v, i, s, gone) && Ref(v, i, s) < sb.size
    ensures Trimmed(sb, v0, Drop(sb, v, i, s), i, After(s, gone))
  {
    hide Owned, Claimed, BitmapExact, Marked, Ref, Valid, SetMark;
    DropKeeps(sb, v, i, s, gone);
    DropRef(sb, v, i, s, gone, i, s);
  }

  lemma TrimmedRef(sb: Super, v0: Volume, v: Volume, i: nat, gone: nat, j: nat, s: nat)
    requires Trimmed(sb, v0, v, i, gone) && j in v0.inodes && j != i && s < NSLOT
    ensures Ref(v, j, s) == Ref(v0, j, s)
  {
    hide Owned, Claimed, BitmapExact, Marked, Mapped;
    if s > NDIRECT && Ref(v0, j, NDIRECT) != 0 {
      RefOwned(sb, v0, j, NDIRECT);
    }
  }

  lemma TrimmedContent(sb: Super, v0: Volume, v: Volume, i: nat, j: nat)
    requires Trimmed(sb, v0, v, i, 0) && j in v0.inodes && j != i
    ensures MappedFile(v, j) && MappedFile(v0, j) && Content(v, j) == Content(v0, j)
  {
    hide Owned, Claimed, BitmapExact, Marked, Ref;
    assert MappedFile(v0, j);
    forall s: nat | s < NSLOT
      ensures Ref(v, j, s) == Ref(v0, j, s)
    {
      TrimmedRef(sb, v0, v, i, 0, j, s);
    }
    forall k: nat | k < v0.inodes[j].size
      ensures ByteAt(v, j, k) == ByteAt(v0, j, k)
    {
      assert k / BSIZE * BSIZE <= k;
      RefOwned(sb, v0, j, DataSlot(k / BSIZE));
    }
  }

  // Exactly the blocks of file i lost their mark.
  lemma TrimmedMarks(sb: Super, v0: Volume, v: Volume, i: nat, x: nat)
    requires Trimmed(sb, v0, v, i, 0) && x < sb.size
    requires forall s: nat :: s < NSLOT ==> Ref(v, i, s) == 0
    ensures Marked(sb, v.blocks, x) <==> Marked(sb, v0.blocks, x) && !(x in v0.own && v0.own[x].inum == i)
  {
    hide Marked, Ref, Mapped;
    if x in v.own {
      TrimmedRef(sb, v0, v, i, 0, v.own[x].inum, v.own[x].slot);
      assert !Gone(0, 0, v.own[x].inum, v.own[x].slot);
    }
    if x in v0.own && v0.own[x].inum != i {
      TrimmedRef(sb, v0, v, i, 0, v0.own[x].inum, v0.own[x].slot);
      assert !Gone(i, 0, v0.own[x].inum, v0.own[x].slot);
    }
  }

  lemma GoneNone(sb: Super, v: Volume, i: nat)
    ensures Sound(sb, v, i, 0) <==> Sound(sb, v, 0, 0)
  {
    hide Marked, Ref;
  }

  lemma TrimmedDone(sb: Super, v0: Volume, v: Volume, i: nat)
    requires Trimmed(sb, v0, v, i, 0)
    ensures var w := Resized(v, i, 0);
      && Valid(sb, w)
      && (forall j <- v0.inodes :: j != i ==> Content(w, j) == Content(v0, j))
  {
    hide Owned, Claimed, BitmapExact, Marked, Ref, ByteAt;
    GoneNone(sb, v, i);
    ResizeKeeps(sb, v, i, 0);
    var w := Resized(v, i, 0);
    forall j <- w.inodes
      ensures MappedFile(w, j) && (j != i ==> Content(w, j) == Content(v0, j))
    {
      if j != i {
        TrimmedContent(sb, v0, v, i, j);
      }
    }
  }

  lemma TrimmedStart(sb: Super, v: Volume, i: nat)
    requires Valid(sb, v) && i in v.inodes
    ensures Trimmed(sb, v, v, i, 0)
  {
    hide Marked, Ref;
  }

  lemma TrimmedSound(sb: Super, v0: Volume, v: Volume, i: nat, gone: nat)
    requires Trimmed(sb, v0, v, i, gone)
    ensures Sound(sb, v, i, gone) && i in v.inodes
  {
  }

  lemma TrimmedSkip(sb: Super, v0: Volume, v: Volume, i: nat, j: nat)
    requires Trimmed(sb, v0, v, i, j) && j < NINDIRECT && Ref(v, i, NDIRECT + 1 + j) == 0
    ensures Trimmed(sb, v0, v, i, j + 1)
  {
    hide Owned, Claimed, BitmapExact, Marked, Ref, Valid;
    SkipKeeps(sb, v, i, j);
  }

  lemma DropAddrs(sb: Super, v: Volume, i: nat, s: nat)
    requires Geometry(sb, v.blocks) && Shaped(v) && i in v.inodes && s < NSLOT && Ref(v, i, s) < sb.size
    ensures Drop(sb, v, i, s).inodes[i] ==
      if s <= NDIRECT then v.inodes[i].(addrs := v.inodes[i].addrs[s := 0]) else v.inodes[i]
  {
  }

  lemma TableInside(sb: Super, v: Volume, i: nat, gone: nat)
    requires Sound(sb, v, i, gone) && i in v.inodes && v.inodes[i].addrs[NDIRECT] != 0
    ensures sb.nmeta <= v.inodes[i].addrs[NDIRECT] < |v.blocks|
  {
    hide Marked;
    assert Ref(v, i, NDIRECT) != 0 && !Gone(i, gone, i, NDIRECT);
  }

  predicate NoBlocks(v: Volume, i: nat) {
    i in v.inodes && |v.inodes[i].addrs| == NDIRECT + 1 && forall s :: 0 <= s <= NDIRECT ==> v.inodes[i].addrs[s] == 0
  }

  // File i has no block, and no other inode has changed.
  predicate Cleared(v0: Volume, w: Volume, i: nat) {
    && Shaped(w) && i in w.inodes && w.inodes.Keys == v0.inodes.Keys
    && (forall s: nat :: s < NSLOT ==> Ref(w, i, s) == 0)
    && (forall j <- v0.inodes :: j != i ==> w.inodes[j] == v0.inodes[j])
  }

  // What itrunc has done once every slot of the inode is empty.
  lemma TrimmedFacts(sb: Super, v0: Volume, v: Volume, i: nat)
    requires Trimmed(sb, v0, v, i, 0) && NoBlocks(v, i)
    ensures Cleared(v0, Resized(v, i, 0), i)
    ensures Geometry(sb, v.blocks) && Geometry(sb, v0.blocks)
    ensures forall b :: sb.nmeta <= b < sb.size ==> v.blocks[b] == v0.blocks[b]
    ensures forall x: nat :: x < sb.size ==>
      (Marked(sb, v.blocks, x) <==> Marked(sb, v0.blocks, x) && !(x in v0.own && v0.own[x].inum == i))
  {
    hide Marked, Owned, Claimed, BitmapExact, Mapped;
    forall x: nat | x < sb.size
      ensures Marked(sb, v.blocks, x) <==> Marked(sb, v0.blocks, x) && !(x in v0.own && v0.own[x].inum == i)
    {
      TrimmedMarks(sb, v0, v, i, x);
    }
  }

  // -------------------------------------------------------- the file system

  // What filling slot s logs: nothing when it was filled or cannot be, else the
  // new block, its bitmap block, and the indirect block that lists it.
  function SlotCost(sb: Super, v: Volume, w: Volume, i: nat, s: nat): set<nat>
    requires Shaped(v) && Shaped(w) && i in v.inodes && i in w.inodes && s < NSLOT
  {
    var x := Ref(w, i, s);
    if Ref(v, i, s) != 0 || x == 0 then {}
    else {x, BBlock(sb, x)} + if s > NDIRECT then {Ref(w, i, NDIRECT)} else {}
  }

  // What one call of bmap may log: the allocated data block and the indirect
  // block, each with its bitmap block.
  function MapCost(sb: Super, v: Volume, w: Volume, i: nat, n: nat): set<nat>
    requires Shaped(v) && Shaped(w) && i in v.inodes && i in w.inodes && n < MAXFILE
  {
    TableCost(sb, v, w, i) + DataCost(sb, v, w, i, n)
  }

  function TableCost(sb: Super, v: Volume, w: Volume, i: nat): set<nat>
    requires Shaped(v) && Shaped(w) && i in v.inodes && i in w.inodes
  {
    var t := Ref(w, i, NDIRECT);
    if t == 0 || v == w then {} else {t, BBlock(sb, t)}
  }

  function DataCost(sb: Super, v: Volume, w: Volume, i: nat, n: nat): set<nat>
    requires Shaped(v) && Shaped(w) && i in v.inodes && i in w.inodes && n < MAXFILE
  {
    var x := Ref(w, i, DataSlot(n));
    if Ref(v, i, DataSlot(n)) != 0 || x == 0 then {} else {x, BBlock(sb, x)}
  }

  // The inode and the indirect block with its bitmap block.
  function FixedCost(sb: Super, v: Volume, i: nat): (s: set<nat>)
    requires Shaped(v) && i in v.inodes
    ensures |s| <= 2
  {
    var t := Ref(v, i, NDIRECT);
    if t == 0 then {} else {t, BBlock(sb, t)}
  }

  // The number of blocks that the bytes [off, off + n) touch.
  function Touched(off: nat, n: nat): nat {
    if n == 0 then 0 else (off + n - 1) / BSIZE - off / BSIZE + 1
  }

  // The most blocks one writei of n bytes at off logs: each touched data block
  // and its bitmap block (except that an unaligned first block is already
  // mapped), the indirect block and its bitmap block, and the inode.
  function WriteCost(off: nat, n: nat): nat {
    2 * Touched(off, n) + (if n > 0 && off % BSIZE != 0 then 2 else 3)
  }

  const CHUNK: nat := (MAXOPBLOCKS - 1 - 1 - 2) / 2 * BSIZE

  // The chunk size of filewrite is the largest one whose cost always fits.
  lemma ChunkIsLargest(n: nat)
    ensures (forall off: nat :: WriteCost(off, n) <= MAXOPBLOCKS) <==> n <= CHUNK
  {
    if n > CHUNK {
      assert WriteCost(0, n) > MAXOPBLOCKS;
    }
  }

  lemma TouchedNext(off: nat, tot: nat, m: nat)
    requires m > 0 && (off + tot) % BSIZE + m <= BSIZE
    requires tot > 0 ==> (off + tot) % BSIZE == 0
    ensures Touched(off, tot + m) == Touched(off, tot) + 1
  {
  }

  lemma TouchedMonotone(off: nat, m: nat, n: nat)
    requires m <= n
    ensures Touched(off, m) <= Touched(off, n)
  {
  }

  lemma SizeUnion<T>(a: set<T>, b: set<T>)
    ensures |a + b| <= |a| + |b|
  {
  }

  lemma SubsetSize<T>(a: set<T>, b: set<T>)
    requires a <= b
    ensures |a| <= |b|
  {
    assert b == a + (b - a);
  }

  // What a read returns: nothing when it starts past the end or its range
  // overflows 32 bits, else the bytes of the range that lie in the file.
  function ReadSpec(c: seq<Byte>, off: nat, n: nat): seq<Byte> {
    if off > |c| || off + n >= WORD then [] else c[off..Min(off + n, |c|)]
  }

  // A read of what was written returns it, and a read that misses it is as before.
  lemma ReadAfterWrite(sb: Super, v0: Volume, v: Volume, i: nat, off: nat, d: seq<Byte>, off': nat, n: nat)
    requires WroteRange(sb, v0, v, i, off, d)
    ensures off + |d| < WORD ==> ReadSpec(Content(v, i), off, |d|) == d
    ensures off' + n <= |Content(v0, i)| && (off' + n <= off || off + |d| <= off') ==>
      ReadSpec(Content(v, i), off', n) == ReadSpec(Content(v0, i), off', n)
    ensures off + |d| <= |Content(v0, i)| && (off' + n <= off || off + |d| <= off') ==>
      ReadSpec(Content(v, i), off', n) == ReadSpec(Content(v0, i), off', n)
    ensures |Content(v, i)| == Max(|Content(v0, i)|, off + |d|)
  {
    hide Owned, Claimed, BitmapExact, Marked, Ref, Content, MappedFile;
    assert MappedFile(v0, i) && MappedFile(v, i);
  }

  lemma ReadChunk(sb: Super, v: Volume, i: nat, cur: nat, k: nat)
    requires Valid(sb, v) && i in v.inodes && k > 0 && cur % BSIZE + k <= BSIZE
    requires cur + k <= v.inodes[i].size <= MAXFILE * BSIZE
    ensures var x := Ref(v, i, DataSlot(cur / BSIZE));
      0 < x < sb.size && v.blocks[x][cur % BSIZE..cur % BSIZE + k] == Content(v, i)[cur..cur + k]
  {
    hide Owned, Claimed, BitmapExact, Marked, Ref;
    assert MappedFile(v, i);
    assert cur / BSIZE * BSIZE <= cur;
    RefOwned(sb, v, i, DataSlot(cur / BSIZE));
    forall j: nat | cur <= j < cur + k
      ensures ByteAt(v, i, j) == v.blocks[Ref(v, i, DataSlot(cur / BSIZE))][cur % BSIZE + (j - cur)]
    {
    }
  }

  lemma WrittenFacts(sb: Super, v0: Volume, v: Volume, i: nat, off: nat, d: seq<Byte>)
    requires Written(sb, v0, v, i, off, d)
    ensures Valid(sb, v) && i in v.inodes
    ensures |d| == 0 && off % BSIZE != 0 ==> Ref(v, i, DataSlot(off / BSIZE)) != 0
  {
    hide Owned, Claimed, BitmapExact, Marked, Ref, Content;
  }

  // One round of the loop of writei, on states.
  lemma ChunkStep(sb: Super, v0: Volume, v: Volume, i: nat, off: nat, d: seq<Byte>, e: seq<Byte>)
    requires Written(sb, v0, v, i, off, d)
    requires |e| > 0 && (off + |d|) % BSIZE + |e| <= BSIZE && off + |d| + |e| <= MAXFILE * BSIZE
    ensures Valid(sb, v) && i in v.inodes
    ensures |d| == 0 && off % BSIZE != 0 ==> Ref(v, i, DataSlot(off / BSIZE)) != 0
    ensures var n := (off + |d|) / BSIZE; var w := MapBlock(sb, v, i, n); var x := Ref(w, i, DataSlot(n));
      && Written(sb, v0, w, i, off, d) && (x == 0 ==> Full(sb, w.blocks))
      && (x != 0 ==>
          && x < sb.size && Shaped(PutBytes(w, x, (off + |d|) % BSIZE, e))
          && Written(sb, v0, PutBytes(w, x, (off + |d|) % BSIZE, e), i, off, d + e)
          && FixedCost(sb, PutBytes(w, x, (off + |d|) % BSIZE, e), i) == FixedCost(sb, w, i))
  {
    hide Owned, Claimed, BitmapExact, Marked, Ref, Content, MapBlock, Written, BBlock, MappedFile, ByteAt, Full;
    WrittenFacts(sb, v0, v, i, off, d);
    var n := (off + |d|) / BSIZE;
    WrittenMap(sb, v0, v, i, off, d, n);
    var w := MapBlock(sb, v, i, n);
    if Ref(w, i, DataSlot(n)) != 0 {
      RefOwned(sb, w, i, DataSlot(n));
      WrittenPut(sb, v0, w, i, off, d, e);
      PutBytesKeeps(sb, w, i, n, (off + |d|) % BSIZE, e);
    }
  }

  // The blocks one round may log, whether or not it finds a block to write to.
  lemma ChunkCost(sb: Super, v: Volume, i: nat, off: nat, tot: nat, m: nat,
                  before: set<nat>, logged: set<nat>, logged': set<nat>, s: set<nat>)
    requires Valid(sb, v) && i in v.inodes && (off + tot) / BSIZE < MAXFILE
    requires m > 0 && (off + tot) % BSIZE + m <= BSIZE && (tot > 0 ==> (off + tot) % BSIZE == 0)
    requires tot == 0 && off % BSIZE != 0 ==> Ref(v, i, DataSlot(off / BSIZE)) != 0
    requires before <= logged <= before + FixedCost(sb, v, i) + s
    requires |s| <= 2 * Touched(off, tot) - (if tot > 0 && off % BSIZE != 0 then 1 else 0)
    requires logged <= logged' <= logged + MapCost(sb, v, MapBlock(sb, v, i, (off + tot) / BSIZE), i,
                                                   (off + tot) / BSIZE)
    ensures var n := (off + tot) / BSIZE; var w := MapBlock(sb, v, i, n); var x := Ref(w, i, DataSlot(n));
      && (x == 0 ==> before <= logged' <= before + FixedCost(sb, w, i) + s)
      && before <= logged' + {x} <= before + FixedCost(sb, w, i) + (s + DataCost(sb, v, w, i, n) + {x})
      && |s + DataCost(sb, v, w, i, n) + {x}|
         <= 2 * Touched(off, tot + m) - (if off % BSIZE != 0 then 1 else 0)
  {
    hide Owned, Claimed, BitmapExact, Marked, Mapped, ByteAt, Ref, MapBlock, FixedCost, DataCost, MapCost, Touched;
    var n := (off + tot) / BSIZE;
    var w := MapBlock(sb, v, i, n);
    var x := Ref(w, i, DataSlot(n));
    MapCostSplit(sb, v, i, n);
    TouchedNext(off, tot, m);
    SizeUnion(s, DataCost(sb, v, w, i, n) + {x});
    assert s + DataCost(sb, v, w, i, n) + {x} == s + (DataCost(sb, v, w, i, n) + {x});
  }

  lemma MapCostSplit(sb: Super, v: Volume, i: nat, n: nat)
    requires Valid(sb, v) && i in v.inodes && n < MAXFILE
    ensures var w := MapBlock(sb, v, i, n);
      && MapCost(sb, v, w, i, n) <= FixedCost(sb, w, i) + DataCost(sb, v, w, i, n)
      && FixedCost(sb, v, i) <= FixedCost(sb, w, i)
      && (Ref(w, i, DataSlot(n)) == 0 ==> DataCost(sb, v, w, i, n) == {})
      && |DataCost(sb, v, w, i, n) + {Ref(w, i, DataSlot(n))}| <= (if Ref(v, i, DataSlot(n)) != 0 then 1 else 2)
  {
    hide Owned, Claimed, BitmapExact, Marked, Ref, MapBlock, Mapped, ByteAt, BBlock;
  }

  lemma TouchedSome(off: nat, n: nat)
    ensures Touched(off, 0) == 0 && (n > 0 ==> Touched(off, n) >= 1)
  {
  }

  lemma WriteCostSum(logged: set<nat>, before: set<nat>, fixed: set<nat>, s: set<nat>, ib: nat, off: nat, tot: nat,
                     n: nat)
    requires logged <= before + fixed + s && |fixed| <= 2 && tot <= n
    requires |s| <= 2 * Touched(off, tot) - (if tot > 0 && off % BSIZE != 0 then 1 else 0)
    ensures |logged + {ib} - before| <= WriteCost(off, n)
  {
    hide Touched;
    SubsetSize(logged + {ib} - before, fixed + s + {ib});
    SizeUnion(fixed, s);
    SizeUnion(fixed + s, {ib});
    TouchedMonotone(off, tot, n);
    TouchedSome(off, n);
  }

  // From v to w no block pointer is lost or replaced, and only file i gains
  // any: for its blocks lo to hi, and the indirect block.
  predicate Gains(v: Volume, w: Volume, i: nat, lo: nat, hi: nat) {
    && Shaped(v) && Shaped(w) && v.inodes.Keys == w.inodes.Keys
    && forall j: nat, s: nat :: j in v.inodes && s < NSLOT && Ref(w, j, s) != Ref(v, j, s) ==>
         Ref(v, j, s) == 0 && j == i && (s == NDIRECT || DataSlot(lo) <= s <= DataSlot(hi))
  }

  // Block n of file i is not mapped.
  predicate Missing(v: Volume, i: nat, n: nat) {
    Shaped(v) && i in v.inodes && n < MAXFILE && Ref(v, i, DataSlot(n)) == 0
  }

  lemma GainsSame(v: Volume, w: Volume, i: nat, lo: nat, hi: nat)
    requires Shaped(v) && Shaped(w) && v.inodes.Keys == w.inodes.Keys
    requires forall j: nat, s: nat :: j in v.inodes && s < NSLOT ==> Ref(w, j, s) == Ref(v, j, s)
    ensures Gains(v, w, i, lo, hi)
  {
    hide Ref;
  }

  lemma GainsThen(u: Volume, v: Volume, w: Volume, i: nat, lo: nat, mid: nat, hi: nat)
    requires Gains(u, v, i, lo, hi) && Gains(v, w, i, mid, mid) && lo <= mid <= hi
    ensures Gains(u, w, i, lo, hi)
  {
    hide Ref;
  }

  lemma GainsResized(u: Volume, v: Volume, w: Volume, i: nat, lo: nat, hi: nat)
    requires Gains(u, v, i, lo, hi) && Shaped(w) && v.inodes.Keys == w.inodes.Keys
    requires forall j: nat, s: nat :: j in w.inodes && s < NSLOT ==> Ref(w, j, s) == Ref(v, j, s)
    ensures Gains(u, w, i, lo, hi)
  {
    hide Ref;
  }

  // Nothing but bitmap, indirect and data blocks has been logged besides.
  predicate Inside(sb: Super, before: set<nat>, logged: set<nat>) {
    forall b <- logged :: b in before || sb.bmapstart <= b < sb.size
  }

  lemma InsideNone(sb: Super, a: set<nat>)
    ensures Inside(sb, a, a)
  {
  }

  lemma InsideThen(sb: Super, a: set<nat>, b: set<nat>, c: set<nat>)
    requires Inside(sb, a, b) && Inside(sb, b, c)
    ensures Inside(sb, a, c)
  {
  }

  lemma ChunkInside(sb: Super, v: Volume, i: nat, n: nat, before: set<nat>, logged: set<nat>, addr: nat)
    requires Valid(sb, v) && i in v.inodes && n < MAXFILE && addr == Ref(MapBlock(sb, v, i, n), i, DataSlot(n))
    requires logged <= before + MapCost(sb, v, MapBlock(sb, v, i, n), i, n)
    ensures Inside(sb, before, logged) && (addr != 0 ==> Inside(sb, before, logged + {addr}))
  {
    hide Ref, Marked, Owned, Claimed, BitmapExact, Mapped, MapBlock;
    var w := MapBlock(sb, v, i, n);
    if Ref(w, i, NDIRECT) != 0 {
      RefOwned(sb, w, i, NDIRECT);
      BBlockMeta(sb, w.blocks, Ref(w, i, NDIRECT));
    }
    if addr != 0 {
      RefOwned(sb, w, i, DataSlot(n));
      BBlockMeta(sb, w.blocks, addr);
    }
  }

  // One round of the loop of writei gains at most the block it asks for.
  lemma ChunkGains(sb: Super, v: Volume, i: nat, n: nat, lo: nat, e: seq<Byte>)
    requires Valid(sb, v) && i in v.inodes && n < MAXFILE && lo + |e| <= BSIZE
    ensures var w := MapBlock(sb, v, i, n); var x := Ref(w, i, DataSlot(n));
      && Gains(v, w, i, n, n)
      && (x != 0 ==> x < sb.size && Gains(v, PutBytes(w, x, lo, e), i, n, n))
  {
    hide Ref, Marked, Owned, Claimed, BitmapExact, Mapped, ByteAt, MapBlock;
    var w := MapBlock(sb, v, i, n);
    forall j: nat, s: nat | j in v.inodes && s < NSLOT && Ref(w, j, s) != Ref(v, j, s)
      ensures Ref(v, j, s) == 0 && j == i && (s == NDIRECT || s == DataSlot(n))
    {
      MapBlockOnly(sb, v, i, n, j, s);
    }
    if Ref(w, i, DataSlot(n)) != 0 {
      PutBytesKeeps(sb, w, i, n, lo, e);
    }
  }

  // What one transaction of filewrite may do: only file i and the free blocks
  // change, and every changed block is logged.
  ghost predicate Transaction(sb: Super, v: Volume, w: Volume, i: nat, logged: set<nat>) {
    && Valid(sb, v) && Valid(sb, w) && i in v.inodes && w.inodes.Keys == v.inodes.Keys
    && (forall j <- v.inodes :: j != i ==> w.inodes[j] == v.inodes[j])
    && |logged| <= MAXOPBLOCKS && Inside(sb, {IBlock(sb, i)}, logged)
    && (forall b :: 0 <= b < |v.blocks| && w.blocks[b] != v.blocks[b] ==> b in logged)
    && (v == w || IBlock(sb, i) in logged)
  }

  // The first n bytes of src have been written, and nothing else.
  predicate WrittenUpTo(sb: Super, v0: Volume, v: Volume, i: nat, off: nat, src: seq<Byte>, n: nat) {
    n <= |src| && if v == v0 && n == 0 then Valid(sb, v0) && i in v0.inodes else WroteRange(sb, v0, v, i, off, src[..n])
  }

  lemma WrittenUpToValid(sb: Super, v0: Volume, v: Volume, i: nat, off: nat, src: seq<Byte>, n: nat)
    requires WrittenUpTo(sb, v0, v, i, off, src, n)
    ensures Valid(sb, v) && i in v0.inodes && v.inodes.Keys == v0.inodes.Keys && Valid(sb, v0)
    ensures v.inodes[i].size <= MAXFILE * BSIZE && (n > 0 ==> off + n <= v.inodes[i].size)
    ensures n == 0 ==> v.inodes[i].size == v0.inodes[i].size
  {
    hide Owned, Claimed, BitmapExact, Marked, Ref, ByteAt;
    assert MappedFile(v, i);
  }

  lemma PartOf<T>(s: seq<T>, n: nat, m: nat, r: nat)
    requires n + m <= |s| && r <= m
    ensures s[n..n + m][..r] == s[n..n + r] && s[..n] + s[n..n + r] == s[..n + r]
  {
  }

  lemma WrittenMore(sb: Super, v0: Volume, v: Volume, w: Volume, i: nat, off: nat, src: seq<Byte>, n: nat, m: nat,
                    r: nat)
    requires WrittenUpTo(sb, v0, v, i, off, src, n) && n + m <= |src| && r <= m
    requires WroteRange(sb, v, w, i, off + n, src[n..n + m][..r])
    ensures WrittenUpTo(sb, v0, w, i, off, src, n + r)
  {
    hide WroteRange, Valid;
    PartOf(src, n, m, r);
    if v == v0 && n == 0 {
      assert src[0..r] == src[..r];
    } else {
      WroteThen(sb, v0, v, w, i, off, src[..n], src[n..n + r]);
    }
    if w == v0 && n + r == 0 {
      assert Valid(sb, v0) && i in v0.inodes by { WrittenUpToValid(sb, v0, v, i, off, src, n); }
    }
  }

  // Inodes other than i keep their size and their block pointers.
  lemma OthersSame(sb: Super, v: Volume, w: Volume, i: nat, off: nat, d: seq<Byte>, lo: nat, hi: nat)
    requires WroteRange(sb, v, w, i, off, d) && Gains(v, w, i, lo, hi)
    ensures forall j <- v.inodes :: j != i ==> w.inodes[j] == v.inodes[j]
  {
    hide Owned, Claimed, BitmapExact, Marked, Content;
    forall j <- v.inodes | j != i ensures w.inodes[j] == v.inodes[j] {
      assert MappedFile(v, j) && MappedFile(w, j);
      assert |Content(w, j)| == |Content(v, j)|;
      forall s: nat | s <= NDIRECT ensures w.inodes[j].addrs[s] == v.inodes[j].addrs[s] {
        assert Ref(w, j, s) == Ref(v, j, s);
      }
    }
  }

  // A file write so far: the states before, between and after its transactions.
  ghost predicate History(sb: Super, vols: seq<Volume>, ops: seq<set<nat>>, i: nat, off: nat, src: seq<Byte>) {
    && |vols| == |ops| + 1
    && (forall k :: 0 <= k < |ops| ==> Transaction(sb, vols[k], vols[k + 1], i, ops[k]))
    && (forall k :: 0 <= k < |vols| ==> SomePrefix(sb, vols[0], vols[k], i, off, src))
  }

  // Some prefix of src has been written, and nothing else.
  ghost predicate SomePrefix(sb: Super, v0: Volume, v: Volume, i: nat, off: nat, src: seq<Byte>) {
    exists n: nat :: WrittenUpTo(sb, v0, v, i, off, src, n)
  }

  lemma HistoryNone(sb: Super, v: Volume, i: nat, off: nat, src: seq<Byte>)
    requires Valid(sb, v) && i in v.inodes
    ensures History(sb, [v], [], i, off, src) && WrittenUpTo(sb, v, v, i, off, src, 0)
  {
    hide Valid;
    assert WrittenUpTo(sb, v, v, i, off, src, 0);
    assert SomePrefix(sb, v, v, i, off, src);
  }

  lemma HistoryMore(sb: Super, vols: seq<Volume>, ops: seq<set<nat>>, i: nat, off: nat, src: seq<Byte>,
                    w: Volume, logged: set<nat>, n: nat)
    requires History(sb, vols, ops, i, off, src) && WrittenUpTo(sb, vols[0], w, i, off, src, n)
    requires Transaction(sb, vols[|vols| - 1], w, i, logged)
    ensures History(sb, vols + [w], ops + [logged], i, off, src)
  {
    hide Transaction, SomePrefix, WrittenUpTo;
    Prefixed(sb, vols[0], w, i, off, src, n);
    forall k | 0 <= k < |ops + [logged]|
      ensures Transaction(sb, (vols + [w])[k], (vols + [w])[k + 1], i, (ops + [logged])[k])
    {
      assert k < |ops| ==> Transaction(sb, vols[k], vols[k + 1], i, ops[k]);
    }
    forall k | 0 <= k < |vols + [w]|
      ensures SomePrefix(sb, (vols + [w])[0], (vols + [w])[k], i, off, src)
    {
      assert k < |vols| ==> SomePrefix(sb, vols[0], vols[k], i, off, src);
    }
  }

  lemma Prefixed(sb: Super, v0: Volume, v: Volume, i: nat, off: nat, src: seq<Byte>, n: nat)
    requires WrittenUpTo(sb, v0, v, i, off, src, n)
    ensures SomePrefix(sb, v0, v, i, off, src)
  {
  }

  // Every block that differs is among those logged.
  ghost predicate AllIn(before: seq<Block>, after: seq<Block>, logged: set<nat>) {
    |before| == |after| && forall b :: 0 <= b < |after| && after[b] != before[b] ==> b in logged
  }

  lemma AllInThen(a: seq<Block>, b: seq<Block>, c: seq<Block>, less: set<nat>, logged: set<nat>)
    requires AllIn(a, b, less) && AllIn(b, c, logged) && less <= logged
    ensures AllIn(a, c, logged)
  {
  }

  lemma AllInPut(a: seq<Block>, v: Volume, logged: set<nat>, x: nat, lo: nat, e: seq<Byte>)
    requires AllIn(a, v.blocks, logged) && x < |v.blocks| && lo + |e| <= BSIZE
    ensures AllIn(a, PutBytes(v, x, lo, e).blocks, logged + {x})
  {
  }

  // writei at work: v0 is the state it started from, d the bytes laid down, c
  // the state without what a failing copy has left, s the data blocks touched
  // and the bitmap blocks changed for them, reach the bytes that touch them.
  ghost predicate Progress(sb: Super, c: Volume, v0: Volume, i: nat, off: nat, d: seq<Byte>, reach: nat,
                           before: set<nat>, logged: set<nat>, s: set<nat>) {
    && Written(sb, v0, c, i, off, d) && AllIn(v0.blocks, c.blocks, logged) && |d| <= reach
    && before <= logged <= before + FixedCost(sb, c, i) + s
    && |s| <= 2 * Touched(off, reach) - (if reach > 0 && off % BSIZE != 0 then 1 else 0)
  }

  // A round begins, and bmap has been asked for its block.
  ghost predicate Round(sb: Super, v: Volume, v0: Volume, i: nat, off: nat, d: seq<Byte>, m: nat, before: set<nat>,
                        logged: set<nat>, logged': set<nat>, s: set<nat>) {
    && Progress(sb, v, v0, i, off, d, |d|, before, logged, s)
    && m > 0 && (off + |d|) % BSIZE + m <= BSIZE && off + |d| + m <= MAXFILE * BSIZE
    && (|d| > 0 ==> (off + |d|) % BSIZE == 0)
    && var n := (off + |d|) / BSIZE; var w := MapBlock(sb, v, i, n); var x := Ref(w, i, DataSlot(n));
      && logged <= logged' <= logged + MapCost(sb, v, w, i, n) && AllIn(v.blocks, w.blocks, logged')
      && (Missing(v, i, n) && x != 0 ==> x in logged')
  }

  lemma RoundStuck(sb: Super, v: Volume, v0: Volume, i: nat, off: nat, d: seq<Byte>, e: seq<Byte>, before: set<nat>,
                   logged: set<nat>, logged': set<nat>, s: set<nat>)
    requires Round(sb, v, v0, i, off, d, |e|, before, logged, logged', s)
    requires Ref(MapBlock(sb, v, i, (off + |d|) / BSIZE), i, DataSlot((off + |d|) / BSIZE)) == 0
    ensures Progress(sb, MapBlock(sb, v, i, (off + |d|) / BSIZE), v0, i, off, d, |d| + |e|, before, logged', s)
  {
    hide Ref, MapBlock, Written, Touched, FixedCost, MapCost, AllIn, Valid;
    WrittenFacts(sb, v0, v, i, off, d);
    ChunkStep(sb, v0, v, i, off, d, e);
    ChunkCost(sb, v, i, off, |d|, |e|, before, logged, logged', s);
    AllInThen(v0.blocks, v.blocks, MapBlock(sb, v, i, (off + |d|) / BSIZE).blocks, logged, logged');
    TouchedNext(off, |d|, |e|);
  }

  lemma RoundDone(sb: Super, v: Volume, v0: Volume, i: nat, off: nat, d: seq<Byte>, e: seq<Byte>, before: set<nat>,
                  logged: set<nat>, logged': set<nat>, s: set<nat>, x: nat)
    requires Round(sb, v, v0, i, off, d, |e|, before, logged, logged', s)
    requires x == Ref(MapBlock(sb, v, i, (off + |d|) / BSIZE), i, DataSlot((off + |d|) / BSIZE)) != 0
    ensures var n := (off + |d|) / BSIZE; var w := MapBlock(sb, v, i, n);
      && x < |w.blocks|
      && Progress(sb, PutBytes(w, x, (off + |d|) % BSIZE, e), v0, i, off, d + e, |d| + |e|, before, logged' + {x},
                  s + DataCost(sb, v, w, i, n) + {x})
  {
    hide Ref, MapBlock, Written, Touched, FixedCost, MapCost, DataCost, AllIn, PutBytes, Owned, Claimed, BitmapExact,
         Marked, Mapped;
    WrittenFacts(sb, v0, v, i, off, d);
    ChunkStep(sb, v0, v, i, off, d, e);
    ChunkCost(sb, v, i, off, |d|, |e|, before, logged, logged', s);
    var w := MapBlock(sb, v, i, (off + |d|) / BSIZE);
    AllInThen(v0.blocks, v.blocks, w.blocks, logged, logged');
    AllInPut(v0.blocks, w, logged', x, (off + |d|) % BSIZE, e);
  }

  // The copy fails after f bytes.  A block that bmap has just allocated is
  // logged, and what it holds beyond the end of the file does not matter.
  lemma RoundLost(sb: Super, v: Volume, v0: Volume, i: nat, off: nat, d: seq<Byte>, e: seq<Byte>, before: set<nat>,
                  logged: set<nat>, logged': set<nat>, s: set<nat>, x: nat, f: nat)
    requires Round(sb, v, v0, i, off, d, |e|, before, logged, logged', s) && f < |e|
    requires x == Ref(MapBlock(sb, v, i, (off + |d|) / BSIZE), i, DataSlot((off + |d|) / BSIZE)) != 0
    ensures var n := (off + |d|) / BSIZE; var w := MapBlock(sb, v, i, n);
      && x < |w.blocks|
      && var c := if Missing(v, i, n) then PutBytes(w, x, (off + |d|) % BSIZE, e[..f]) else w;
         && Progress(sb, c, v0, i, off, d, |d| + |e|, before, logged', s + DataCost(sb, v, w, i, n) + {x})
         && Spilled(c, PutBytes(w, x, (off + |d|) % BSIZE, e[..f]), i, off + |d|,
                    if Missing(v, i, n) then [] else e[..f])
  {
    hide Ref, MapBlock, Written, Touched, FixedCost, MapCost, DataCost, AllIn, PutBytes, Owned, Claimed, BitmapExact,
         Marked, Mapped;
    WrittenFacts(sb, v0, v, i, off, d);
    ChunkStep(sb, v0, v, i, off, d, e);
    ChunkCost(sb, v, i, off, |d|, |e|, before, logged, logged', s);
    var n := (off + |d|) / BSIZE;
    var w := MapBlock(sb, v, i, n);
    AllInThen(v0.blocks, v.blocks, w.blocks, logged, logged');
    var s' := s + DataCost(sb, v, w, i, n) + {x};
    assert Progress(sb, w, v0, i, off, d, |d| + |e|, before, logged', s');
    if Missing(v, i, n) {
      BeyondEnd(sb, v, v0, i, off, d);
      LostBeyond(sb, w, v0, i, off, d, |d| + |e|, before, logged', s', e[..f]);
    } else {
      StoreNothing(w, x, (off + |d|) % BSIZE, e[..f]);
    }
  }

  lemma LostBeyond(sb: Super, w: Volume, v0: Volume, i: nat, off: nat, d: seq<Byte>, reach: nat, before: set<nat>,
                   logged: set<nat>, s: set<nat>, e: seq<Byte>)
    requires Progress(sb, w, v0, i, off, d, reach, before, logged, s)
    requires v0.inodes[i].size <= off + |d| && (off + |d|) / BSIZE < MAXFILE && (off + |d|) % BSIZE + |e| <= BSIZE
    requires 0 < Ref(w, i, DataSlot((off + |d|) / BSIZE)) < sb.size
    requires Ref(w, i, DataSlot((off + |d|) / BSIZE)) in logged
    ensures Progress(sb, PutBytes(w, Ref(w, i, DataSlot((off + |d|) / BSIZE)), (off + |d|) % BSIZE, e), v0, i, off, d,
                     reach, before, logged, s)
  {
    hide Ref, Written, Touched, FixedCost, AllIn, PutBytes;
    WrittenFacts(sb, v0, w, i, off, d);
    var x := Ref(w, i, DataSlot((off + |d|) / BSIZE));
    WrittenBeyond(sb, v0, w, i, off, d, e);
    AllInPut(v0.blocks, w, logged, x, (off + |d|) % BSIZE, e);
    assert logged + {x} == logged;
  }

  lemma BeyondEnd(sb: Super, v: Volume, v0: Volume, i: nat, off: nat, d: seq<Byte>)
    requires Written(sb, v0, v, i, off, d) && Missing(v, i, (off + |d|) / BSIZE)
    ensures v0.inodes[i].size <= off + |d|
  {
    hide Ref, ByteAt, Owned, Claimed, BitmapExact, Marked, Content;
    assert MappedFile(v, i);
    assert (off + |d|) / BSIZE * BSIZE <= off + |d|;
  }

  lemma StoreNothing(v: Volume, x: nat, lo: nat, e: seq<Byte>)
    requires x < |v.blocks| && lo + |e| <= BSIZE
    ensures e == [] ==> PutBytes(v, x, lo, e) == v
  {
    if e == [] {
      assert Splice(v.blocks[x], lo, e) == v.blocks[x];
    }
  }

  // A write that ends with r because the bytes of src from good on cannot be
  // read shows in the file as if good bytes had been written, except that the
  // file is no longer than those r make it.
  lemma LostShows(sb: Super, v0: Volume, u: Volume, w: Volume, i: nat, off: nat, src: seq<Byte>, r: nat, good: nat)
    requires r <= good <= |src| && WroteRange(sb, v0, u, i, off, src[..r])
    requires Spilled(u, w, i, off + r, Partly(src, r, good))
    ensures Valid(sb, w) && w.inodes.Keys == v0.inodes.Keys
    ensures MappedFile(v0, i) && MappedFile(u, i) && MappedFile(w, i)
    ensures |Content(u, i)| == Max(|Content(v0, i)|, off + r)
    ensures Content(w, i) == Overwrite(Content(v0, i), off, src[..good])[..|Content(u, i)|]
    ensures forall j <- v0.inodes :: j != i ==>
              j in w.inodes && MappedFile(v0, j) && MappedFile(w, j) && Content(w, j) == Content(v0, j)
  {
    hide Owned, Claimed, BitmapExact, Marked, Spilled, Content, Ref;
    SpillKeeps(sb, u, w, i, off + r, Partly(src, r, good));
    assert MappedFile(v0, i) && MappedFile(u, i) && MappedFile(w, i);
    var old', new' := Overwrite(Content(v0, i), off, src[..r]), Overwrite(Content(v0, i), off, src[..good]);
    forall k: nat | k < |old'| ensures Content(w, i)[k] == new'[k] {
      assert off + r <= k < off + good ==> Partly(src, r, good)[k - off - r] == src[k - off];
    }
  }

  // Block n of file i is missing, and no block is free.
  predicate NoRoom(sb: Super, v: Volume, i: nat, n: nat) {
    Geometry(sb, v.blocks) && Full(sb, v.blocks) && Missing(v, i, n)
  }

  predicate OutOfBlocks(sb: Super, v: Volume) {
    Geometry(sb, v.blocks) && Full(sb, v.blocks)
  }

  lemma NoRoomFull(sb: Super, v: Volume, i: nat, n: nat)
    requires NoRoom(sb, v, i, n)
    ensures OutOfBlocks(sb, v)
  {
  }

  lemma NoTransaction(sb: Super, v: Volume, i: nat)
    requires Valid(sb, v) && i in v.inodes
    ensures Transaction(sb, v, v, i, {})
  {
    hide Valid;
  }

  lemma OneTransaction(sb: Super, v: Volume, u: Volume, i: nat, off: nat, d: seq<Byte>, lo: nat, hi: nat,
                       logged: set<nat>)
    requires WroteRange(sb, v, u, i, off, d) && Gains(v, u, i, lo, hi) && AllIn(v.blocks, u.blocks, logged)
    requires Inside(sb, {IBlock(sb, i)}, logged) && IBlock(sb, i) in logged && |logged| <= MAXOPBLOCKS
    ensures Transaction(sb, v, u, i, logged) && Valid(sb, u) && i in u.inodes && u.inodes.Keys == v.inodes.Keys
  {
    hide Valid, Gains, Inside, Content, MappedFile;
    OthersSame(sb, v, u, i, off, d, lo, hi);
  }

  lemma NoRoomResized(sb: Super, v: Volume, i: nat, size: nat, n: nat)
    requires NoRoom(sb, v, i, n)
    ensures NoRoom(sb, Resized(v, i, size), i, n)
  {
    hide Full, Ref, Geometry;
    ResizedRef(v, i, size, i, DataSlot(n));
  }

  // What a failing copy has read of src, from its byte n on, when good bytes of
  // it can be read.
  function Partly(src: seq<Byte>, n: nat, good: nat): seq<Byte>
    requires n <= |src| && n <= good
  {
    src[n..Min(good, |src|)]
  }

  lemma PartlyChunk(src: seq<Byte>, n: nat, m: nat, good: nat)
    requires n <= good < n + m <= |src|
    ensures src[n..n + m][..good - n] == Partly(src, n, good)
  {
  }

  lemma PartlyPart(src: seq<Byte>, n: nat, m: nat, r: nat, good: nat)
    requires n + m <= |src| && r <= m && n + r <= good < n + m
    ensures Partly(src[n..n + m], r, good - n) == Partly(src, n + r, good)
  {
    SliceOf(src, n, n + m, r, good - n);
    assert Partly(src, n + r, good) == src[n + r..good];
  }

  lemma SliceOf<T>(s: seq<T>, lo: nat, hi: nat, a: nat, b: nat)
    requires lo <= hi <= |s| && a <= b <= hi - lo
    ensures s[lo..hi][a..b] == s[lo + a..lo + b]
  {
    forall k | 0 <= k < b - a ensures s[lo..hi][a..b][k] == s[lo + a..lo + b][k] {
      assert s[lo..hi][a + k] == s[lo + a + k];
    }
  }

  lemma RoundBegins(sb: Super, v: Volume, v0: Volume, i: nat, off: nat, d: seq<Byte>, m: nat, before: set<nat>,
                    logged: set<nat>, logged': set<nat>, s: set<nat>)
    requires Progress(sb, v, v0, i, off, d, |d|, before, logged, s)
    requires m > 0 && (off + |d|) % BSIZE + m <= BSIZE && off + |d| + m <= MAXFILE * BSIZE
    requires |d| > 0 ==> (off + |d|) % BSIZE == 0
    requires Valid(sb, v) && i in v.inodes
    requires var n := (off + |d|) / BSIZE; var w := MapBlock(sb, v, i, n); var x := Ref(w, i, DataSlot(n));
      && logged <= logged' <= logged + MapCost(sb, v, w, i, n) && AllIn(v.blocks, w.blocks, logged')
      && (x != 0 && Ref(v, i, DataSlot(n)) == 0 ==> x in logged')
    ensures Round(sb, v, v0, i, off, d, m, before, logged, logged', s)
  {
    hide Progress, AllIn, MapCost, Ref, Valid, MapBlock;
  }

  lemma SpillSame(v: Volume, w: Volume, i: nat, at: nat)
    ensures Spilled(v, w, i, at, []) <==> w == v
  {
  }

  lemma SpillNone(v: Volume, i: nat, at: nat)
    ensures Spilled(v, v, i, at, [])
  {
  }

  lemma MapFacts(sb: Super, v: Volume, i: nat, n: nat)
    requires Valid(sb, v) && i in v.inodes && n < MAXFILE
    ensures var w := MapBlock(sb, v, i, n);
      && Shaped(v) && Shaped(w) && i in w.inodes && |w.blocks| == |v.blocks| == sb.size && sb.size < WORD
      && Ref(w, i, DataSlot(n)) < |w.blocks|
      && (Ref(w, i, DataSlot(n)) == 0 ==> NoRoom(sb, w, i, n) && Missing(v, i, n))
  {
    hide Ref, MapBlock, Owned, Claimed, BitmapExact, Marked, ByteAt, Full;
    var w := MapBlock(sb, v, i, n);
    if Ref(w, i, DataSlot(n)) != 0 {
      RefOwned(sb, w, i, DataSlot(n));
    }
  }

  lemma AllInSame(a: seq<Block>, v: Volume, i: nat, size: nat, logged: set<nat>, b: nat)
    requires i in v.inodes && AllIn(a, v.blocks, logged)
    ensures AllIn(a, Resized(v, i, size).blocks, logged + {b})
  {
  }

  lemma ProgressStart(sb: Super, v: Volume, i: nat, off: nat, logged: set<nat>)
    requires Valid(sb, v) && i in v.inodes && off <= v.inodes[i].size
    ensures Progress(sb, v, v, i, off, [], 0, logged, logged, {})
  {
    hide Written, FixedCost, Owned, Claimed, BitmapExact, Marked, Ref;
    WrittenStart(sb, v, i, off);
  }

  lemma ProgressFacts(sb: Super, v: Volume, v0: Volume, i: nat, off: nat, d: seq<Byte>, reach: nat, before: set<nat>,
                      logged: set<nat>, s: set<nat>)
    requires Progress(sb, v, v0, i, off, d, reach, before, logged, s)
    ensures Valid(sb, v) && i in v.inodes
  {
    hide Valid, FixedCost, Touched;
  }

  // Below the size of the file no block is missing.
  lemma ProgressMapped(sb: Super, v: Volume, v0: Volume, i: nat, off: nat, d: seq<Byte>, reach: nat, before: set<nat>,
                       logged: set<nat>, s: set<nat>)
    requires Progress(sb, v, v0, i, off, d, reach, before, logged, s)
    ensures i in v0.inodes && (off + |d| < v0.inodes[i].size ==> !Missing(v, i, (off + |d|) / BSIZE))
  {
    hide Written, FixedCost, Touched;
    if Missing(v, i, (off + |d|) / BSIZE) {
      BeyondEnd(sb, v, v0, i, off, d);
    }
    assert i in v0.inodes by { WrittenKnown(sb, v, v0, i, off, d); }
  }

  lemma WrittenKnown(sb: Super, v: Volume, v0: Volume, i: nat, off: nat, d: seq<Byte>)
    requires Written(sb, v0, v, i, off, d)
    ensures i in v0.inodes
  {
  }

  class FileSystem {
    const sb: Super
    // The blocks as bread returns them, and the inodes as ilock returns them.
    var blocks: seq<Block>
    var inodes: map<nat, Inode>
    ghost var own: map<nat, Owner>
    // The blocks logged by the current transaction, and by each finished one.
    ghost var logged: set<nat>
    ghost var ops: seq<set<nat>>

    ghost function Now(): Volume
      reads this
    {
      Volume(blocks, inodes, own)
    }

    constructor (sb: Super, blocks: seq<Block>, inodes: map<nat, Inode>, ghost own: map<nat, Owner>)
      requires Valid(sb, Volume(blocks, inodes, own))
      ensures this.sb == sb && Now() == Volume(blocks, inodes, own) && logged == {} && ops == []
    {
      this.sb, this.blocks, this.inodes, this.own := sb, blocks, inodes, own;
      logged, ops := {}, [];
    }

    ghost predicate Covered(before: seq<Block>)
      reads this
    {
      AllIn(before, blocks, logged)
    }

    method Bzero(x: nat)
      requires x < |blocks|
      modifies this`blocks, this`logged
      ensures blocks == old(blocks)[x := Zeros(BSIZE)] && logged == old(logged) + {x}
    {
      blocks := blocks[x := Zeros(BSIZE)];
      logged := logged + {x};
    }

    // Marks block b + bi in the bitmap block of b, and zeroes it.
    method Take(b: nat, bi: nat)
      requires Geometry(sb, blocks) && b % BPB == 0 && bi < BPB && b + bi < sb.size
      modifies this`blocks, this`logged
      ensures blocks == Allocated(sb, old(blocks), b + bi)
      ensures logged == old(logged) + {BBlock(sb, b + bi), b + bi}
    {
      hide Bit, WithBitByte, SetMark;
      BitPlace(sb, blocks, b, bi);
      var bp := blocks[BBlock(sb, b)];
      bp := bp[bi / 8 := WithBitByte(bp[bi / 8], bi % 8, true)];
      blocks := blocks[BBlock(sb, b) := bp];
      logged := logged + {BBlock(sb, b)};
      Bzero(b + bi);
    }

    // The inner loop of balloc: the first clear bit of the bitmap block of b.
    method ScanBlock(b: nat) returns (bi: nat)
      requires Geometry(sb, blocks) && b % BPB == 0 && b < sb.size
      ensures bi <= BPB && LeastFree(sb, blocks, b) == LeastFree(sb, blocks, b + bi)
      ensures bi < BPB && b + bi < sb.size ==> !Marked(sb, blocks, b + bi)
    {
      hide Bit, LeastFree, Marked, BBlock;
      BitPlace(sb, blocks, b, 0);
      var bp := blocks[BBlock(sb, b)];
      bi := 0;
      while bi < BPB && b + bi < sb.size
        invariant bi <= BPB && LeastFree(sb, blocks, b) == LeastFree(sb, blocks, b + bi)
      {
        BitPlace(sb, blocks, b, bi);
        LeastFreeStep(sb, blocks, b + bi);
        if !Bit(bp[bi / 8], bi % 8) {
          return;
        }
        bi := bi + 1;
      }
    }

    method Balloc() returns (r: nat)
      requires Valid(sb, Now())
      modifies this`blocks, this`logged
      ensures r == LeastFree(sb, old(blocks), 0)
      ensures blocks == if r == 0 then old(blocks) else Allocated(sb, old(blocks), r)
      ensures logged == if r == 0 then old(logged) else old(logged) + {BBlock(sb, r), r}
    {
      hide Owned, Claimed, Mapped, BitmapExact, LeastFree, Marked, BBlock, Allocated;
      MetaMarked(sb, Now());
      var b: nat := 0;
      while b < sb.size
        invariant b % BPB == 0 && blocks == old(blocks) && logged == old(logged)
        invariant LeastFree(sb, blocks, 0) == LeastFree(sb, blocks, b)
      {
        var bi := ScanBlock(b);
        LeastFreeStep(sb, blocks, b + bi);
        if bi < BPB && b + bi < sb.size {
          Take(b, bi);
          return b + bi;
        }
        LeastFreeStep(sb, blocks, b + BPB);
        b := b + BPB;
      }
      LeastFreeStep(sb, blocks, b);
      return 0;
    }

    method Bfree(x: nat) returns (ok: bool)
      requires Geometry(sb, blocks) && x < sb.size
      modifies this`blocks, this`logged
      ensures ok <==> Marked(sb, old(blocks), x)
      ensures ok ==> blocks == SetMark(sb, old(blocks), x, false) && logged == old(logged) + {BBlock(sb, x)}
      ensures !ok ==> blocks == old(blocks) && logged == old(logged)
    {
      hide Bit, WithBit;
      var bp := blocks[BBlock(sb, x)];
      var bi := x % BPB;
      if !Bit(bp[bi / 8], bi % 8) {
        return false;
      }
      blocks := blocks[BBlock(sb, x) := bp[bi / 8 := WithBitByte(bp[bi / 8], bi % 8, false)]];
      logged := logged + {BBlock(sb, x)};
      return true;
    }

    // The block in slot s of the inode itself, allocated when missing.
    method MapDirect(i: nat, s: nat) returns (addr: nat)
      requires Valid(sb, Now()) && i in inodes && s <= NDIRECT
      modifies this`blocks, this`inodes, this`own, this`logged
      ensures Now() == MapSlot(sb, old(Now()), i, s) && addr == Ref(Now(), i, s)
      ensures logged == old(logged) + SlotCost(sb, old(Now()), Now(), i, s)
      ensures Covered(old(blocks))
    {
      hide Owned, Claimed, Mapped, BitmapExact, Marked, SetMark;
      addr := inodes[i].addrs[s];
      if addr == 0 {
        addr := Balloc();
        if addr == 0 {
          return;
        }
        inodes := inodes[i := inodes[i].(addrs := inodes[i].addrs[s := addr])];
        own := own[addr := Owner(i, s)];
      }
    }

    // Entry n of the indirect block, allocated when missing.
    method MapEntry(i: nat, t: nat, n: nat) returns (addr: nat)
      requires Valid(sb, Now()) && i in inodes && n < NINDIRECT && t == Ref(Now(), i, NDIRECT) != 0
      modifies this`blocks, this`own, this`logged
      ensures Now() == MapSlot(sb, old(Now()), i, NDIRECT + 1 + n) && addr == Ref(Now(), i, NDIRECT + 1 + n)
      ensures logged == old(logged) + SlotCost(sb, old(Now()), Now(), i, NDIRECT + 1 + n)
      ensures Covered(old(blocks))
    {
      hide Owned, Claimed, Mapped, BitmapExact, Marked, SetMark, Word, PutWord;
      RefOwned(sb, Now(), i, NDIRECT);
      ghost var v := Now();
      addr := Word(blocks[t], n);
      if addr == 0 {
        addr := Balloc();
        if addr != 0 {
          LinkRef(sb, v, i, NDIRECT + 1 + n, addr, i, NDIRECT + 1 + n);
          blocks := blocks[t := PutWord(blocks[t], n, addr)];
          logged := logged + {t};
          own := own[addr := Owner(i, NDIRECT + 1 + n)];
        }
      }
    }

    // panic "bmap: out of range" is ok == false.
    method Bmap(i: nat, bn: nat) returns (ok: bool, addr: nat)
      requires Valid(sb, Now()) && i in inodes
      modifies this`blocks, this`inodes, this`own, this`logged
      ensures ok <==> bn < MAXFILE
      ensures !ok ==> Now() == old(Now()) && logged == old(logged)
      ensures ok ==> Now() == MapBlock(sb, old(Now()), i, bn) && addr == Ref(Now(), i, DataSlot(bn))
      ensures ok && bn < 12 ==> addr == inodes[i].addrs[bn]
      ensures ok && bn >= 12 && addr != 0 ==>
                0 < inodes[i].addrs[12] < |blocks| && addr == Word(blocks[inodes[i].addrs[12]], bn - 12)
      ensures ok ==> old(logged) <= logged <= old(logged) + MapCost(sb, old(Now()), Now(), i, bn)
      ensures ok && addr != 0 && Ref(old(Now()), i, DataSlot(bn)) == 0 ==> addr in logged
      ensures Covered(old(blocks))
    {
      hide Owned, Claimed, Mapped, BitmapExact, Marked, MapSlot, Ref;
      if bn < NDIRECT {
        addr := MapDirect(i, bn);
        DataRef(Now(), i, bn);
        return true, addr;
      }
      var n := bn - NDIRECT;
      if n < NINDIRECT {
        ghost var v := Now();
        TableFirst(sb, v, i, bn);
        MapSlotOnly(sb, v, i, NDIRECT, i, bn + 1);
        addr := MapDirect(i, NDIRECT);
        if addr == 0 {
          return true, 0;
        }
        addr := MapEntry(i, addr, n);
        DataRef(Now(), i, bn);
        return true, addr;
      }
      return false, 0;
    }

    method Iupdate(i: nat)
      modifies this`logged
      ensures logged == old(logged) + {IBlock(sb, i)}
    {
      logged := logged + {IBlock(sb, i)};
    }

    // itrunc at work: v0 is the state it started from, before what had been
    // logged by then.
    ghost predicate Freeing(v0: Volume, i: nat, gone: nat, before: set<nat>)
      reads this
    {
      && Trimmed(sb, v0, Now(), i, gone) && Covered(v0.blocks)
      && before <= logged && forall b <- logged :: b in before || b < sb.nmeta
    }

    // Frees slot s of inode i; ok == false is panic "freeing free block".
    method DropSlot(i: nat, s: nat, x: nat, ghost v0: Volume, ghost gone: nat,
                    ghost before: set<nat>) returns (ok: bool)
      requires Freeing(v0, i, gone, before) && Droppable(sb, Now(), i, s, gone) && x == Ref(Now(), i, s)
      modifies this`blocks, this`inodes, this`own, this`logged
      ensures ok
      ensures x < sb.size && Now() == Drop(sb, old(Now()), i, s)
      ensures Freeing(v0, i, After(s, gone), before)
    {
      hide Owned, Claimed, BitmapExact, Mapped, Marked, SetMark, Ref, Trimmed;
      DroppableRef(sb, Now(), i, s, gone);
      TrimmedDrop(sb, v0, Now(), i, s, gone);
      BBlockMeta(sb, blocks, x);
      ok := Bfree(x);
      if s <= NDIRECT {
        inodes := inodes[i := inodes[i].(addrs := inodes[i].addrs[s := 0])];
      }
      own := own - {x};
    }

    method TrimDirect(i: nat, ghost v0: Volume, ghost before: set<nat>) returns (ok: bool)
      requires Freeing(v0, i, 0, before) && i in inodes && |inodes[i].addrs| == NDIRECT + 1
      modifies this`blocks, this`inodes, this`own, this`logged
      ensures ok && Freeing(v0, i, 0, before)
      ensures i in inodes && |inodes[i].addrs| == NDIRECT + 1 && forall s :: 0 <= s < NDIRECT ==>
                inodes[i].addrs[s] == 0
    {
      hide Owned, Claimed, BitmapExact, Marked, SetMark, Trimmed, Drop, Covered;
      var k: nat := 0;
      while k < NDIRECT
        modifies this`blocks, this`inodes, this`own, this`logged
        invariant k <= NDIRECT && Freeing(v0, i, 0, before)
        invariant i in inodes && |inodes[i].addrs| == NDIRECT + 1
        invariant forall s :: 0 <= s < k ==> inodes[i].addrs[s] == 0
      {
        if inodes[i].addrs[k] != 0 {
          TrimmedSound(sb, v0, Now(), i, 0);
          ghost var v := Now();
          ok := DropSlot(i, k, inodes[i].addrs[k], v0, 0, before);
          DropAddrs(sb, v, i, k);
          if !ok {
            return;
          }
        }
        k := k + 1;
      }
      ok := true;
    }

    method TrimTable(i: nat, ghost v0: Volume, ghost before: set<nat>) returns (ok: bool)
      requires Freeing(v0, i, 0, before) && i in inodes && |inodes[i].addrs| == NDIRECT + 1
      requires inodes[i].addrs[NDIRECT] != 0
      modifies this`blocks, this`inodes, this`own, this`logged
      ensures ok && Freeing(v0, i, 0, before)
      ensures i in inodes && inodes[i] == old(inodes[i]).(addrs := old(inodes[i]).addrs[NDIRECT := 0])
    {
      hide Owned, Claimed, BitmapExact, Marked, SetMark, Trimmed, Drop, Covered, Word;
      ghost var ino := inodes[i];
      var t := inodes[i].addrs[NDIRECT];
      var j: nat := 0;
      while j < NINDIRECT
        modifies this`blocks, this`inodes, this`own, this`logged
        invariant j <= NINDIRECT && Freeing(v0, i, j, before)
        invariant i in inodes && inodes[i] == ino
      {
        TrimmedSound(sb, v0, Now(), i, j);
        TableInside(sb, Now(), i, j);
        ghost var v := Now();
        var x := Word(blocks[t], j);
        if x != 0 {
          ok := DropSlot(i, NDIRECT + 1 + j, x, v0, j, before);
          DropAddrs(sb, v, i, NDIRECT + 1 + j);
          if !ok {
            return;
          }
        } else {
          TrimmedSkip(sb, v0, v, i, j);
        }
        j := j + 1;
      }
      TrimmedSound(sb, v0, Now(), i, j);
      ghost var v := Now();
      ok := DropSlot(i, NDIRECT, t, v0, j, before);
      DropAddrs(sb, v, i, NDIRECT);
    }

    method Itrunc(i: nat) returns (ok: bool)
      requires Valid(sb, Now()) && i in inodes
      modifies this`blocks, this`inodes, this`own, this`logged
      ensures ok
      ensures Valid(sb, Now()) && inodes.Keys == old(inodes).Keys
      ensures inodes[i].size == 0 && forall s: nat :: s < NSLOT ==> Ref(Now(), i, s) == 0
      ensures forall j <- inodes :: j != i ==>
                inodes[j] == old(inodes)[j] && Content(Now(), j) == Content(old(Now()), j)
      ensures forall x: nat :: x < sb.size ==>
        (Marked(sb, blocks, x) <==> Marked(sb, old(blocks), x) && !(x in old(own) && old(own)[x].inum == i))
      ensures forall b :: sb.nmeta <= b < sb.size ==> blocks[b] == old(blocks)[b]
      ensures Covered(old(blocks)) && old(logged) <= logged && IBlock(sb, i) in logged
      ensures forall b <- logged :: b in old(logged) || b < sb.nmeta || b == IBlock(sb, i)
    {
      hide Owned, Claimed, BitmapExact, Marked, Drop, Mapped, Trimmed, Content, Ref;
      ghost var v0 := Now();
      TrimmedStart(sb, v0, i);
      ok := TrimDirect(i, v0, logged);
      if ok && inodes[i].addrs[NDIRECT] != 0 {
        ok := TrimTable(i, v0, old(logged));
      }
      ghost var v := Now();
      inodes := inodes[i := inodes[i].(size := 0)];
      Iupdate(i);
      TrimmedFacts(sb, v0, v, i);
      TrimmedDone(sb, v0, v, i);
    }

    // Reading never allocates: every block below the size is mapped.  room is the
    // number of bytes from the destination on that can be written; None is the
    // result -1.
    method Readi(i: nat, off: nat, n: nat, room: nat) returns (r: Option<seq<Byte>>)
      requires Valid(sb, Now()) && i in inodes && off < WORD && n < WORD
      modifies this`blocks, this`inodes, this`own, this`logged
      ensures Now() == old(Now()) && logged == old(logged)
      ensures var d := ReadSpec(Content(Now(), i), off, n); r == if |d| <= room then Some(d) else None
      ensures off > inodes[i].size || off + n >= WORD ==> r == Some([])
      ensures off <= inodes[i].size && off + n < WORD && room < Min(n, inodes[i].size - off) ==> r == None
      ensures off <= inodes[i].size && off + n < WORD && room >= Min(n, inodes[i].size - off) ==>
        && r.Some? && |r.value| == Min(n, inodes[i].size - off)
        && forall k :: 0 <= k < |r.value| ==> r.value[k] == Content(Now(), i)[off + k]
    {
      hide Owned, Claimed, BitmapExact, Marked, Ref, Content, MapBlock;
      var data: seq<Byte> := [];
      ghost var v := Now();
      assert MappedFile(v, i);
      if off > inodes[i].size || (off + n) % WORD < off {
        return Some(data);
      }
      var m := if off + n > inodes[i].size then inodes[i].size - off else n;
      var cur := off;
      ghost var c := Content(Now(), i);
      while |data| < m
        modifies this`blocks, this`inodes, this`own, this`logged
        invariant Now() == v && logged == old(logged)
        invariant |data| <= m && |data| <= room && cur == off + |data| && data == c[off..cur]
      {
        assert cur / BSIZE * BSIZE <= cur;
        var ok, addr := Bmap(i, cur / BSIZE);
        if addr == 0 {
          assert false;
          break;
        }
        var k := Min(m - |data|, BSIZE - cur % BSIZE);
        if |data| + k > room {
          return None;
        }
        ReadChunk(sb, v, i, cur, k);
        data := data + blocks[addr][cur % BSIZE..cur % BSIZE + k];
        cur := cur + k;
      }
      return Some(data);
    }

    // One round of the loop of writei.  Only the first fits bytes of the chunk
    // can be read: if that is not all, they stay in the cached block, which is
    // not logged for them.
    method WriteChunk(i: nat, cur: nat, chunk: seq<Byte>, fits: nat,
                      ghost v0: Volume, ghost off: nat, ghost d: seq<Byte>, ghost before: set<nat>, ghost s: set<nat>)
      returns (ok: bool, ghost c: Volume, ghost lost: seq<Byte>, ghost s': set<nat>)
      requires Progress(sb, Now(), v0, i, off, d, |d|, before, logged, s) && cur == off + |d|
      requires |chunk| > 0 && cur % BSIZE + |chunk| <= BSIZE && cur + |chunk| <= MAXFILE * BSIZE
      requires |d| > 0 ==> cur % BSIZE == 0
      modifies this`blocks, this`inodes, this`own, this`logged
      ensures Progress(sb, c, v0, i, off, if ok then d + chunk else d, |d| + |chunk|, before, logged, s')
      ensures ok ==> c == Now() && |chunk| <= fits
      ensures !ok ==> fits < |chunk| || NoRoom(sb, Now(), i, cur / BSIZE)
      ensures Spilled(c, Now(), i, cur, lost) && (ok || Missing(old(Now()), i, cur / BSIZE) ==> lost == [])
      ensures !ok && !Missing(old(Now()), i, cur / BSIZE) ==> fits < |chunk| && lost == chunk[..fits]
      ensures Gains(old(Now()), c, i, cur / BSIZE, cur / BSIZE)
      ensures i in inodes && Inside(sb, old(logged), logged)
    {
      hide Valid, Ref, MapBlock, FixedCost, DataCost, MapCost, Gains, Inside, Spilled, Progress, Round, AllIn, NoRoom;
      ghost var v, n := Now(), cur / BSIZE;
      ProgressFacts(sb, v, v0, i, off, d, |d|, before, logged, s);
      ghost var m := Min(fits, |chunk|);
      ChunkGains(sb, v, i, n, cur % BSIZE, chunk[..m]);
      MapFacts(sb, v, i, n);
      var addr;
      ok, addr := Bmap(i, cur / BSIZE);
      ghost var w, l := Now(), logged;
      ChunkInside(sb, v, i, n, old(logged), l, addr);
      RoundBegins(sb, v, v0, i, off, d, |chunk|, before, old(logged), l, s);
      c, lost, s' := w, [], s;
      if addr == 0 {
        ok := false;
        RoundStuck(sb, v, v0, i, off, d, chunk, before, old(logged), l, s);
        SpillNone(w, i, cur);
        return;
      }
      s' := s + DataCost(sb, v, w, i, n) + {addr};
      if fits < |chunk| {
        ok := false;
        RoundLost(sb, v, v0, i, off, d, chunk, before, old(logged), l, s, addr, fits);
        blocks := blocks[addr := Splice(blocks[addr], cur % BSIZE, chunk[..fits])];
        c := if Missing(v, i, n) then Now() else w;
        lost := if Missing(v, i, n) then [] else chunk[..fits];
        return;
      }
      RoundDone(sb, v, v0, i, off, d, chunk, before, old(logged), l, s, addr);
      assert chunk[..m] == chunk;
      var bp: Block := Splice(blocks[addr], cur % BSIZE, chunk);
      blocks := blocks[addr := bp];
      logged := logged + {addr};
      c := Now();
      SpillNone(c, i, cur);
    }

    // The end of writei: the size grows if the write passed it, and the inode is
    // written back.
    method Settle(i: nat, cur: nat, ghost c: Volume, ghost lost: seq<Byte>, ghost v0: Volume, ghost off: nat,
                  ghost d: seq<Byte>, ghost reach: nat, ghost before: set<nat>, ghost s: set<nat>, ghost n: nat)
      returns (ghost u: Volume)
      requires Progress(sb, c, v0, i, off, d, reach, before, logged, s) && i in inodes && cur == off + |d| && reach <= n
      requires Spilled(c, Now(), i, cur, lost)
      modifies this`inodes, this`logged
      ensures WroteRange(sb, v0, u, i, off, d) && AllIn(v0.blocks, u.blocks, logged) && Spilled(u, Now(), i, cur, lost)
      ensures before <= logged && logged == old(logged) + {IBlock(sb, i)} && |logged - before| <= WriteCost(off, n)
      ensures Now() == Resized(old(Now()), i, Max(cur, old(inodes)[i].size))
      ensures Shaped(c) && Shaped(u) && u.inodes.Keys == c.inodes.Keys && i in inodes
      ensures forall j: nat, t: nat :: j in c.inodes && t < NSLOT ==> Ref(u, j, t) == Ref(c, j, t)
    {
      hide Owned, Claimed, BitmapExact, Mapped, Marked, Ref, Content, ByteAt, Written, BBlock, Touched, WroteRange,
           FixedCost, WriteCost, Spilled, AllIn;
      WrittenFacts(sb, v0, c, i, off, d);
      WrittenDone(sb, v0, c, i, off, d);
      SpillKeeps(sb, c, Now(), i, cur, lost);
      WriteCostSum(logged, before, FixedCost(sb, c, i), s, IBlock(sb, i), off, reach, n);
      ghost var size := Max(cur, inodes[i].size);
      ResizeKeeps(sb, c, i, size);
      SpillResized(c, Now(), i, cur, lost, size);
      u := Resized(c, i, size);
      assert Resized(Now(), i, inodes[i].size) == Now();
      if cur > inodes[i].size {
        inodes := inodes[i := inodes[i].(size := cur)];
      }
      AllInSame(v0.blocks, c, i, size, logged, IBlock(sb, i));
      Iupdate(i);
    }

    // The loop of writei: src is laid down as far as it can be read, of which
    // good is the number of bytes, and as far as blocks can be found.
    method LayDown(i: nat, off: nat, src: seq<Byte>, good: nat, ghost last: nat)
      returns (tot: nat, ghost c: Volume, ghost lost: seq<Byte>, ghost s: set<nat>, ghost reach: nat)
      requires Valid(sb, Now()) && i in inodes && off <= inodes[i].size && off + |src| <= MAXFILE * BSIZE
      requires last == if src == [] then off / BSIZE else (off + |src| - 1) / BSIZE
      modifies this`blocks, this`inodes, this`own, this`logged
      ensures tot <= reach <= |src| && tot <= good && i in inodes
      ensures Progress(sb, c, old(Now()), i, off, src[..tot], reach, old(logged), logged, s)
      ensures Gains(old(Now()), c, i, off / BSIZE, last) && Inside(sb, old(logged), logged)
      ensures Spilled(c, Now(), i, off + tot, lost) && (lost == [] || lost == Partly(src, tot, good))
      ensures tot < |src| ==>
                good < tot + Min(|src| - tot, BSIZE - (off + tot) % BSIZE) ||
                NoRoom(sb, Now(), i, (off + tot) / BSIZE)
      ensures 0 < tot < |src| ==> (off + tot) % BSIZE == 0
      ensures lost != [] ==> tot < |src| && good < tot + Min(|src| - tot, BSIZE - (off + tot) % BSIZE)
      ensures tot < |src| && off + tot < old(inodes)[i].size ==> lost == Partly(src, tot, good)
    {
      hide Owned, Claimed, BitmapExact, Mapped, Marked, Ref, Content, ByteAt, Full, Touched, FixedCost, Gains,
           Missing, Inside, Spilled, Progress, NoRoom, Partly;
      ghost var v0, before := Now(), logged;
      ProgressStart(sb, v0, i, off, logged);
      GainsSame(v0, v0, i, off / BSIZE, last);
      InsideNone(sb, logged);
      tot, c, lost, s, reach := 0, v0, [], {}, 0;
      SpillNone(v0, i, off);
      var cur := off;
      while tot < |src|
        modifies this`blocks, this`inodes, this`own, this`logged
        invariant 0 <= tot <= |src| && tot <= good && cur == off + tot && reach == tot && c == Now() && lost == []
        invariant Progress(sb, c, v0, i, off, src[..tot], reach, before, logged, s)
        invariant 0 < tot < |src| ==> cur % BSIZE == 0
        invariant i in inodes && Gains(v0, c, i, off / BSIZE, last) && Inside(sb, before, logged)
        invariant Spilled(c, Now(), i, cur, lost)
      {
        var m := Min(|src| - tot, BSIZE - cur % BSIZE);
        ghost var v, so := Now(), logged;
        ProgressMapped(sb, v, v0, i, off, src[..tot], reach, before, logged, s);
        var ok;
        ok, c, lost, s := WriteChunk(i, cur, src[tot..tot + m], good - tot, v0, off, src[..tot], before, s);
        GainsThen(v0, v, c, i, off / BSIZE, cur / BSIZE, last);
        InsideThen(sb, before, so, logged);
        reach := tot + m;
        if !ok {
          if good < tot + m {
            PartlyChunk(src, tot, m, good);
          }
          break;
        }
        assert src[..tot] + src[tot..tot + m] == src[..tot + m];
        tot := tot + m;
        cur := cur + m;
        SpillNone(c, i, cur);
      }
    }

    // Lays src over the file at off, as far as it can be read and blocks can be
    // found; -1 when the range starts past the end, overflows 32 bits, or passes
    // the largest file.  u is the state without what a failing copy has left.
    method Writei(i: nat, off: nat, src: seq<Byte>, good: nat) returns (r: int, ghost u: Volume, ghost lost: seq<Byte>)
      requires Valid(sb, Now()) && i in inodes && off < WORD && |src| < WORD
      modifies this`blocks, this`inodes, this`own, this`logged
      ensures r == -1 <==> off > old(inodes)[i].size || off + |src| > MAXFILE * BSIZE
      ensures r == -1 ==> Now() == old(Now()) && logged == old(logged) && u == Now() && lost == []
      ensures r != -1 ==> 0 <= r <= Min(|src|, good) && WroteRange(sb, old(Now()), u, i, off, src[..r])
      ensures r != -1 ==> Spilled(u, Now(), i, off + r, lost) && (lost == [] || lost == Partly(src, r, good))
      ensures 0 <= r < |src| ==>
                good < r + Min(|src| - r, BSIZE - (off + r) % BSIZE) || NoRoom(sb, Now(), i, (off + r) / BSIZE)
      ensures 0 <= r < |src| && off + r < old(inodes)[i].size ==> lost == Partly(src, r, good)
      ensures 0 < r < |src| ==> (off + r) % BSIZE == 0
      ensures lost != [] ==> 0 <= r < |src| && good < r + Min(|src| - r, BSIZE - (off + r) % BSIZE)
      ensures r != -1 && |src| > 0 ==> Gains(old(Now()), u, i, off / BSIZE, (off + |src| - 1) / BSIZE)
      ensures AllIn(old(blocks), u.blocks, logged) && old(logged) <= logged && (r != -1 ==> IBlock(sb, i) in logged)
      ensures Inside(sb, old(logged) + {IBlock(sb, i)}, logged)
      ensures |logged - old(logged)| <= WriteCost(off, |src|)
    {
      hide Owned, Claimed, BitmapExact, Mapped, Marked, Ref, Content, ByteAt, Full, BBlock, Touched, WroteRange,
           FixedCost, WriteCost, Gains, Progress, Spilled, NoRoom, Partly;
      u, lost := Now(), [];
      if off > inodes[i].size || (off + |src|) % WORD < off {
        return -1, u, lost;
      }
      if (off + |src|) % WORD > MAXFILE * BSIZE {
        return -1, u, lost;
      }
      ghost var v0, before := Now(), logged;
      ghost var last := if src == [] then off / BSIZE else (off + |src| - 1) / BSIZE;
      var tot; ghost var c, s, reach;
      tot, c, lost, s, reach := LayDown(i, off, src, good, last);
      ghost var v1 := Now();
      u := Settle(i, off + tot, c, lost, v0, off, src[..tot], reach, before, s, |src|);
      GainsResized(v0, c, u, i, off / BSIZE, last);
      if NoRoom(sb, v1, i, (off + tot) / BSIZE) {
        NoRoomResized(sb, v1, i, Max(off + tot, v1.inodes[i].size), (off + tot) / BSIZE);
      }
      r := tot;
    }

    // One turn of the loop of filewrite: the chunk from byte n of src on, in a
    // transaction of its own.
    method WriteOne(i: nat, off: nat, src: seq<Byte>, good: nat, n: nat, ghost v0: Volume)
      returns (r: int, ghost u: Volume, ghost lost: seq<Byte>)
      requires i in inodes && off + n < WORD && n < |src| < WORD && WrittenUpTo(sb, v0, Now(), i, off, src, n)
      requires n <= good
      modifies this
      ensures ops == old(ops) + [logged] && |logged| <= MAXOPBLOCKS
      ensures Transaction(sb, old(Now()), u, i, logged) && i in inodes && inodes.Keys == old(inodes).Keys
      ensures r == -1 || (0 <= r <= Min(|src| - n, CHUNK) && n + r <= good)
      ensures WrittenUpTo(sb, v0, u, i, off, src, if r >= 0 then n + r else n)
      ensures Spilled(u, Now(), i, if r >= 0 then off + n + r else off + n, lost)
      ensures lost != [] ==> 0 <= r < Min(|src| - n, CHUNK) && good < |src| && lost == Partly(src, n + r, good)
      ensures r == -1 ==> off + n > old(inodes)[i].size || off + |src| > MAXFILE * BSIZE
      ensures 0 <= r < Min(|src| - n, CHUNK) ==> good < |src| || OutOfBlocks(sb, Now())
    {
      hide Owned, Claimed, BitmapExact, Mapped, Marked, Ref, Content, ByteAt, Full, BBlock, Touched, WriteCost,
           WroteRange, Gains, Partly, Transaction, AllIn, Inside, NoRoom, OutOfBlocks, WrittenUpTo, Spilled, Valid;
      var m := Min(|src| - n, CHUNK);
      ghost var v := Now();
      WrittenUpToValid(sb, v0, v, i, off, src, n);
      logged := {};
      r, u, lost := Writei(i, off + n, src[n..n + m], good - n);
      ChunkIsLargest(m);
      assert logged - {} == logged;
      ops := ops + [logged];
      assert {} + {IBlock(sb, i)} == {IBlock(sb, i)};
      if r < 0 {
        NoTransaction(sb, v, i);
        SpillNone(v, i, off + n);
      } else {
        WrittenMore(sb, v0, v, u, i, off, src, n, m, r);
        OneTransaction(sb, v, u, i, off + n, src[n..n + m][..r], (off + n) / BSIZE, (off + n + m - 1) / BSIZE, logged);
        SpillKeeps(sb, u, Now(), i, off + n + r, lost);
        if NoRoom(sb, Now(), i, (off + n + r) / BSIZE) {
          NoRoomFull(sb, Now(), i, (off + n + r) / BSIZE);
        }
        if lost != [] {
          PartlyPart(src, n, m, r, good);
        }
      }
    }

    // filewrite on an inode, one transaction a chunk, from memory of which the
    // first good bytes can be read: ok says that it returned the full length,
    // off' is the file offset afterwards.  vols are the states between the
    // transactions, which ops records; in each of them the file holds a prefix of
    // src.  What a failing copy has left is in the cache alone.
    method FileWrite(i: nat, off: nat, src: seq<Byte>, good: nat)
      returns (ok: bool, off': nat, ghost vols: seq<Volume>, ghost lost: seq<Byte>)
      requires Valid(sb, Now()) && i in inodes && off < WORD && |src| < WORD
      modifies this
      ensures Valid(sb, Now()) && inodes.Keys == old(inodes).Keys && off <= off' <= off + |src| && off' <= off + good
      ensures ok <==> off' == off + |src|
      ensures !ok ==> good < |src| || OutOfBlocks(sb, Now()) || off > old(inodes)[i].size ||
                      off + |src| > MAXFILE * BSIZE
      ensures |old(ops)| <= |ops| && ops[..|old(ops)|] == old(ops)
      ensures forall k :: |old(ops)| <= k < |ops| ==> |ops[k]| <= MAXOPBLOCKS
      ensures History(sb, vols, ops[|old(ops)|..], i, off, src) && vols[0] == old(Now())
      ensures WrittenUpTo(sb, old(Now()), vols[|vols| - 1], i, off, src, off' - off)
      ensures Spilled(vols[|vols| - 1], Now(), i, off', lost)
      ensures lost == [] || (!ok && good < |src| && lost == Partly(src, off' - off, good))
    {
      hide Owned, Claimed, BitmapExact, Mapped, Marked, Ref, Content, ByteAt, Full, BBlock, Touched, WriteCost,
           WroteRange, Covered, Gains, Missing, WrittenUpTo, Transaction, History, Spilled, Partly, OutOfBlocks;
      ghost var v0, k0 := Now(), |ops|;
      HistoryNone(sb, v0, i, off, src);
      SpillNone(v0, i, off);
      assert ops[k0..] == [];
      vols, off', lost := [v0], off, [];
      var n: nat := 0;
      while n < |src|
        modifies this
        invariant n <= |src| && n <= good && off' == off + n && i in inodes && inodes.Keys == v0.inodes.Keys
        invariant |old(ops)| <= |ops| && ops[..|old(ops)|] == old(ops)
        invariant forall k :: |old(ops)| <= k < |ops| ==> |ops[k]| <= MAXOPBLOCKS
        invariant History(sb, vols, ops[k0..], i, off, src) && vols != [] && vols[0] == v0
        invariant vols[|vols| - 1] == Now() && lost == [] && Spilled(Now(), Now(), i, off', lost)
        invariant WrittenUpTo(sb, v0, Now(), i, off, src, n)
      {
        ghost var v, done := Now(), ops[k0..];
        WrittenUpToValid(sb, v0, v, i, off, src, n);
        var r; ghost var u;
        r, u, lost := WriteOne(i, off, src, good, n, v0);
        HistoryMore(sb, vols, done, i, off, src, u, logged, if r >= 0 then n + r else n);
        assert ops[k0..] == done + [logged];
        vols := vols + [u];
        if r > 0 {
          off' := off' + r;
        }
        if r != Min(|src| - n, CHUNK) {
          break;
        }
        n := n + r;
        SpillSame(u, Now(), i, off');
      }
      ghost var last := vols[|vols| - 1];
      WrittenUpToValid(sb, v0, last, i, off, src, off' - off);
      SpillKeeps(sb, last, Now(), i, off', lost);
      ok := n == |src|;
    }
  }

  // Writing two bytes of which only the first can be read returns 0, and has
  // changed the file.
  method FaultingWrite(fs: FileSystem, i: nat, x: Byte, y: Byte) returns (r: int)
    requires Valid(fs.sb, fs.Now()) && i in fs.inodes && 2 <= fs.inodes[i].size <= MAXFILE * BSIZE
    requires Content(fs.Now(), i)[0] != x
    modifies fs`blocks, fs`inodes, fs`own, fs`logged
    ensures r == 0 && Valid(fs.sb, fs.Now()) && i in fs.inodes && 2 <= fs.inodes[i].size <= MAXFILE * BSIZE
    ensures Content(fs.Now(), i) == [x] + old(Content(fs.Now(), i))[1..]
  {
    hide Owned, Claimed, BitmapExact, Mapped, Marked, Ref, Content, ByteAt, BBlock, WroteRange, WriteCost, Gains,
         Spilled, NoRoom, AllIn, Inside, Partly;
    ghost var v0 := fs.Now();
    ghost var u, lost;
    r, u, lost := fs.Writei(i, 0, [x, y], 1);
    assert [x, y][..0] == [] && [x, y][..1] == [x];
    LostShows(fs.sb, v0, u, fs.Now(), i, 0, [x, y], 0, 1);
    assert MappedFile(v0, i) && MappedFile(fs.Now(), i);
  }

  function IBlock(sb: Super, i: nat): nat {
    i / IPB + sb.inodestart
  }
}
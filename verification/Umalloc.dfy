// The user-level allocator (umalloc.c): a circular free list in address
// order, with adjacent blocks merged.  Addresses and sizes are in units of
// the header, and a block is named by the address of its header.
module Umalloc {
  import opened Basics

  const UNIT: nat := 16          // sizeof(Header)
  const MINUNITS: nat := 4096    // what morecore asks for at least

  datatype Block = Block(at: nat, units: nat)

  predicate Within(u: nat, at: nat, n: nat) { at <= u < at + n }

  function Range(at: nat, n: nat): set<nat> { set u: nat | at <= u < at + n && Within(u, at, n) }

  // ------------------------------------------------- free lists as sequences

  // Blocks in address order, with a gap before each but the first.
  ghost predicate Apart(blocks: seq<Block>) {
    |blocks| <= 1 || (blocks[0].at + blocks[0].units < blocks[1].at && Apart(blocks[1..]))
  }

  // base, then nonempty blocks, none of them adjacent to another.
  ghost predicate Canonical(blocks: seq<Block>, base: nat) {
    && blocks != [] && blocks[0] == Block(base, 0) && Apart(blocks)
    && (forall i :: 1 <= i < |blocks| ==> blocks[i].units > 0)
  }

  lemma {:induction false} ApartAppend(a: seq<Block>, b: seq<Block>)
    requires a != [] && b != []
    ensures Apart(a + b) <==> Apart(a) && Apart(b) && a[|a| - 1].at + a[|a| - 1].units < b[0].at
  {
    if |a| > 1 {
      assert (a + b)[1..] == a[1..] + b;
      ApartAppend(a[1..], b);
    } else {
      assert (a + b)[1..] == b;
    }
  }

  lemma {:induction false} ApartAt(blocks: seq<Block>, i: nat, j: nat)
    requires Apart(blocks) && i < j < |blocks|
    ensures blocks[i].at + blocks[i].units < blocks[j].at
  {
    if i > 0 {
      ApartAt(blocks[1..], i - 1, j - 1);
    } else if j > 1 {
      ApartAt(blocks[1..], 0, j - 1);
    }
  }

  ghost function Units(blocks: seq<Block>): set<nat> {
    if blocks == [] then {} else Range(blocks[0].at, blocks[0].units) + Units(blocks[1..])
  }

  lemma {:induction false} UnitsAppend(a: seq<Block>, b: seq<Block>)
    ensures Units(a + b) == Units(a) + Units(b)
  {
    if a == [] {
      assert a + b == b;
    } else {
      assert (a + b)[1..] == a[1..] + b;
      UnitsAppend(a[1..], b);
    }
  }

  lemma UnitsOne(b: Block)
    ensures Units([b]) == Range(b.at, b.units)
  {
  }

  lemma {:induction false} UnitsHas(blocks: seq<Block>, i: nat)
    requires i < |blocks|
    ensures Range(blocks[i].at, blocks[i].units) <= Units(blocks)
  {
    if i > 0 {
      UnitsHas(blocks[1..], i - 1);
    }
  }

  lemma {:induction false} UnitsFrom(blocks: seq<Block>, u: nat)
    requires Apart(blocks) && blocks != [] && u in Units(blocks)
    ensures blocks[0].at <= u
    ensures u < blocks[0].at + blocks[0].units || (|blocks| > 1 && blocks[1].at <= u)
  {
    if u !in Range(blocks[0].at, blocks[0].units) {
      UnitsFrom(blocks[1..], u);
    }
  }

  // Free units determine the free list: canonical lists are fully merged.
  lemma CanonicalUnique(a: seq<Block>, b: seq<Block>, base: nat)
    requires Canonical(a, base) && Canonical(b, base) && Units(a) == Units(b)
    ensures a == b
  {
    assert Range(base, 0) == {};
    if |a| > 1 { assert Apart(a[1..]); }
    if |b| > 1 { assert Apart(b[1..]); }
    ApartUnique(a[1..], b[1..]);
    assert a == [a[0]] + a[1..] && b == [b[0]] + b[1..];
  }

  lemma {:induction false} ApartUnique(a: seq<Block>, b: seq<Block>)
    requires Apart(a) && Apart(b) && Units(a) == Units(b)
    requires (forall i :: 0 <= i < |a| ==> a[i].units > 0) && (forall i :: 0 <= i < |b| ==> b[i].units > 0)
    ensures a == b
    decreases |a|
  {
    if a != [] {
      UnitsHas(a, 0);
      assert a[0].at in Range(a[0].at, a[0].units);
    }
    if b != [] {
      UnitsHas(b, 0);
      assert b[0].at in Range(b[0].at, b[0].units);
    }
    if a != [] && b != [] {
      FirstBlock(a, b);
      FirstBlock(b, a);
      RestUnits(a);
      RestUnits(b);
      ApartUnique(a[1..], b[1..]);
      assert a == [a[0]] + a[1..] && b == [b[0]] + b[1..];
    }
  }

  // The first block of one list starts no later, and ends no later, than the
  // other's.
  lemma FirstBlock(a: seq<Block>, b: seq<Block>)
    requires Apart(a) && Apart(b) && a != [] && b != [] && Units(a) == Units(b)
    requires a[0].units > 0 && b[0].units > 0
    ensures b[0].at <= a[0].at
    ensures b[0].at == a[0].at ==> b[0].units <= a[0].units
  {
    UnitsHas(a, 0);
    assert a[0].at in Range(a[0].at, a[0].units);
    UnitsFrom(b, a[0].at);
    if b[0].at == a[0].at && b[0].units > a[0].units {
      var e := a[0].at + a[0].units;
      UnitsHas(b, 0);
      assert e in Range(b[0].at, b[0].units);
      UnitsFrom(a, e);
    }
  }

  lemma RestUnits(a: seq<Block>)
    requires Apart(a) && a != []
    ensures Units(a[1..]) == Units(a) - Range(a[0].at, a[0].units)
  {
    forall u | u in Units(a[1..]) ensures u !in Range(a[0].at, a[0].units) {
      UnitsFrom(a[1..], u);
    }
  }

  // -------------------------------------------------------------- insertion

  // b inserted after block j, and merged with the blocks it touches.
  function Merged(blocks: seq<Block>, j: nat, b: Block): (r: seq<Block>)
    requires j < |blocks|
  {
    var up := j + 1 < |blocks| && b.at + b.units == blocks[j + 1].at;
    var down := blocks[j].at + blocks[j].units == b.at;
    var at := if down then blocks[j].at else b.at;
    var units := (if down then blocks[j].units else 0) + b.units + (if up then blocks[j + 1].units else 0);
    blocks[..if down then j else j + 1] + [Block(at, units)] + blocks[if up then j + 2 else j + 1..]
  }

  ghost predicate Fits(blocks: seq<Block>, base: nat, j: nat, b: Block) {
    && Canonical(blocks, base) && j < |blocks| && b.units > 0 && Units(blocks) !! Range(b.at, b.units)
    && blocks[j].at < b.at && (j + 1 < |blocks| ==> b.at < blocks[j + 1].at)
  }

  lemma FitsBetween(blocks: seq<Block>, base: nat, j: nat, b: Block)
    requires Fits(blocks, base, j, b)
    ensures blocks[j].at + blocks[j].units <= b.at
    ensures j + 1 < |blocks| ==> b.at + b.units <= blocks[j + 1].at
  {
    UnitsHas(blocks, j);
    assert b.at in Range(b.at, b.units);
    if j + 1 < |blocks| {
      UnitsHas(blocks, j + 1);
      assert blocks[j + 1].at in Range(blocks[j + 1].at, blocks[j + 1].units);
    }
  }

  // mid stands in a list where old_ stood, between lo and hi.
  lemma ReplaceMiddle(lo: seq<Block>, old_: seq<Block>, mid: Block, hi: seq<Block>)
    requires Apart(lo + old_ + hi)
    requires lo != [] ==> lo[|lo| - 1].at + lo[|lo| - 1].units < mid.at
    requires hi != [] ==> mid.at + mid.units < hi[0].at
    ensures Apart(lo + [mid] + hi)
  {
    Pieces(lo, old_, hi);
    if lo != [] { ApartAppend(lo, [mid]); } else { assert lo + [mid] == [mid]; }
    if hi != [] { ApartAppend(lo + [mid], hi); } else { assert lo + [mid] + hi == lo + [mid]; }
  }

  lemma Pieces(lo: seq<Block>, mid: seq<Block>, hi: seq<Block>)
    requires Apart(lo + mid + hi)
    ensures Apart(lo) && Apart(hi)
  {
    if lo + mid == [] {
      assert lo + mid + hi == hi;
    } else if hi != [] {
      ApartAppend(lo + mid, hi);
    } else {
      assert lo + mid + hi == lo + mid;
    }
    if lo != [] && mid != [] {
      ApartAppend(lo, mid);
    } else if mid == [] {
      assert lo + mid == lo;
    }
  }

  lemma MiddleUnits(lo: seq<Block>, mid: seq<Block>, hi: seq<Block>)
    ensures Units(lo + mid + hi) == Units(lo) + Units(mid) + Units(hi)
  {
    UnitsAppend(lo + mid, hi);
    UnitsAppend(lo, mid);
  }

  // What insertion takes out of the list and puts in its place.
  function Taken(blocks: seq<Block>, j: nat, b: Block): (r: (nat, nat))
    requires j < |blocks|
    ensures r.0 <= r.1 <= |blocks|
  {
    (if blocks[j].at + blocks[j].units == b.at then j else j + 1,
     if j + 1 < |blocks| && b.at + b.units == blocks[j + 1].at then j + 2 else j + 1)
  }

  // Insertion keeps the list canonical and adds exactly the units of b; the
  // block that holds them is at least as large.
  lemma MergedCanonical(blocks: seq<Block>, base: nat, j: nat, b: Block)
    requires Fits(blocks, base, j, b)
    ensures Canonical(Merged(blocks, j, b), base)
    ensures exists i :: 0 <= i < |Merged(blocks, j, b)| && Merged(blocks, j, b)[i].units >= b.units
  {
    FitsBetween(blocks, base, j, b);
    var (l, h) := Taken(blocks, j, b);
    var r := Merged(blocks, j, b);
    var mid := r[l];
    assert blocks == blocks[..l] + blocks[l..h] + blocks[h..];
    if l == j && j > 0 { ApartAt(blocks, j - 1, j); }
    if h == j + 2 && h < |blocks| { ApartAt(blocks, j + 1, j + 2); }
    ReplaceMiddle(blocks[..l], blocks[l..h], mid, blocks[h..]);
    assert mid.units >= b.units;
  }

  lemma MergedUnits(blocks: seq<Block>, base: nat, j: nat, b: Block)
    requires Fits(blocks, base, j, b)
    ensures Units(Merged(blocks, j, b)) == Units(blocks) + Range(b.at, b.units)
  {
    FitsBetween(blocks, base, j, b);
    var (l, h) := Taken(blocks, j, b);
    var mid := Merged(blocks, j, b)[l];
    assert blocks == blocks[..l] + blocks[l..h] + blocks[h..];
    MiddleUnits(blocks[..l], blocks[l..h], blocks[h..]);
    MiddleUnits(blocks[..l], [mid], blocks[h..]);
    UnitsOne(mid);
    TakenUnits(blocks, j, b);
  }

  lemma TakenUnits(blocks: seq<Block>, j: nat, b: Block)
    requires j < |blocks| && blocks[j].at + blocks[j].units <= b.at
    requires j + 1 < |blocks| ==> b.at + b.units <= blocks[j + 1].at
    ensures var (l, h) := Taken(blocks, j, b);
            var mid := Merged(blocks, j, b)[l];
            Range(mid.at, mid.units) == Units(blocks[l..h]) + Range(b.at, b.units)
  {
    var (l, h) := Taken(blocks, j, b);
    var down, up := if l == j then [blocks[j]] else [], if h == j + 2 then [blocks[j + 1]] else [];
    assert blocks[l..h] == down + up;
    UnitsAppend(down, up);
    UnitsOne(blocks[j]);
    if up != [] { UnitsOne(blocks[j + 1]); }
  }

  // ----------------------------------------------------------------- removal

  // The list without the last n units of block i.
  function Cut(blocks: seq<Block>, i: nat, n: nat): seq<Block>
    requires i < |blocks| && n <= blocks[i].units
  {
    if n == blocks[i].units then blocks[..i] + blocks[i + 1..]
    else blocks[..i] + [Block(blocks[i].at, blocks[i].units - n)] + blocks[i + 1..]
  }

  lemma CutCanonical(blocks: seq<Block>, base: nat, i: nat, n: nat)
    requires Canonical(blocks, base) && 0 < i < |blocks| && 0 < n <= blocks[i].units
    ensures Canonical(Cut(blocks, i, n), base)
  {
    hide Apart;
    var b, lo, hi := blocks[i], blocks[..i], blocks[i + 1..];
    assert blocks == lo + [b] + hi;
    Pieces(lo, [b], hi);
    ApartAt(blocks, i - 1, i);
    if hi != [] { ApartAt(blocks, i, i + 1); }
    CutShape(blocks, i, n);
    if n < b.units {
      ReplaceMiddle(lo, [b], Block(b.at, b.units - n), hi);
    } else if hi != [] {
      ApartAppend(lo, hi);
    } else {
      assert lo + hi == lo;
    }
  }

  lemma CutShape(blocks: seq<Block>, i: nat, n: nat)
    requires 0 < i < |blocks| && 0 < n <= blocks[i].units
    requires forall k :: 1 <= k < |blocks| ==> blocks[k].units > 0
    ensures var r := Cut(blocks, i, n);
            r != [] && r[0] == blocks[0] && forall k :: 1 <= k < |r| ==> r[k].units > 0
  {
    var r := Cut(blocks, i, n);
    var m := if n == blocks[i].units then 1 else 0;
    forall k | 1 <= k < |r| ensures r[k].units > 0 {
      assert k != i || m == 1 ==> r[k] == blocks[if k < i then k else k + m];
    }
  }

  // Cutting removes exactly those units.
  lemma CutUnits(blocks: seq<Block>, i: nat, n: nat)
    requires Apart(blocks) && i < |blocks| && 0 < n <= blocks[i].units
    ensures var b := blocks[i];
            && Range(b.at + b.units - n, n) <= Units(blocks)
            && Units(Cut(blocks, i, n)) == Units(blocks) - Range(b.at + b.units - n, n)
  {
    hide Range, Units, Apart;
    var b, lo, hi := blocks[i], blocks[..i], blocks[i + 1..];
    var mid := if n == b.units then [] else [Block(b.at, b.units - n)];
    assert blocks == lo + [b] + hi && Cut(blocks, i, n) == lo + mid + hi;
    MiddleUnits(lo, [b], hi);
    MiddleUnits(lo, mid, hi);
    UnitsOne(b);
    UnitsOne(Block(b.at, b.units - n));
    LoHi(blocks, i);
    RangeSplit(b, n);
    EmptyUnits(b);
    assert Units(mid) == Range(b.at, b.units - n);
    CutSet(Units(lo), Units(hi), Range(b.at, b.units), Units(mid), Range(b.at + b.units - n, n));
  }

  lemma EmptyUnits(b: Block)
    ensures Units([]) == {} == Range(b.at, 0)
  {
  }

  lemma RangeSplit(b: Block, n: nat)
    requires n <= b.units
    ensures Range(b.at, b.units) == Range(b.at, b.units - n) + Range(b.at + b.units - n, n)
    ensures Range(b.at, b.units - n) !! Range(b.at + b.units - n, n)
  {
  }

  lemma CutSet(l: set<nat>, h: set<nat>, r: set<nat>, m: set<nat>, x: set<nat>)
    requires r == m + x && m !! x && l !! r && h !! r
    ensures x <= l + r + h && l + m + h == (l + r + h) - x
  {
  }

  // The units before and after a block are disjoint from it.
  lemma LoHi(blocks: seq<Block>, i: nat)
    requires Apart(blocks) && i < |blocks|
    ensures Units(blocks[..i]) !! Range(blocks[i].at, blocks[i].units)
    ensures Units(blocks[i + 1..]) !! Range(blocks[i].at, blocks[i].units)
  {
    assert blocks == blocks[..i] + [blocks[i]] + blocks[i + 1..];
    Pieces(blocks[..i], [blocks[i]], blocks[i + 1..]);
    forall u | u in Units(blocks[i + 1..]) ensures u !in Range(blocks[i].at, blocks[i].units) {
      UnitsFrom(blocks[i + 1..], u);
      ApartAt(blocks, i, i + 1);
    }
    if i > 0 { ApartAt(blocks, i - 1, i); }
    forall u | u in Units(blocks[..i]) ensures u < blocks[i].at {
      UnitsBefore(blocks[..i], blocks[i].at, u);
    }
  }

  lemma {:induction false} UnitsBefore(blocks: seq<Block>, end: nat, u: nat)
    requires Apart(blocks) && u in Units(blocks)
    requires blocks[|blocks| - 1].at + blocks[|blocks| - 1].units <= end
    ensures u < end
  {
    if |blocks| > 1 {
      ApartAt(blocks, 0, |blocks| - 1);
      if u in Units(blocks[1..]) {
        UnitsBefore(blocks[1..], end, u);
      }
    } else {
      assert blocks[1..] == [];
    }
  }

  // ---------------------------------------------------------------- the heap

  function Next(i: nat, n: nat): nat { if i + 1 < n then i + 1 else 0 }

  // Steps along the circle from one place to another.
  function Steps(from: nat, to: nat, n: nat): nat
    requires from < n && to < n
  {
    if from <= to then to - from else to + n - from
  }

  // The headers form the circle of blocks.
  ghost predicate Circle(ptr: map<nat, nat>, size: map<nat, nat>, blocks: seq<Block>) {
    && (forall i :: 0 <= i < |blocks| ==>
          blocks[i].at in ptr && blocks[i].at in size && size[blocks[i].at] == blocks[i].units)
    && (forall i {:trigger ptr[blocks[i].at]} :: 0 <= i < |blocks| ==>
          ptr[blocks[i].at] == blocks[Next(i, |blocks|)].at)
  }

  ghost predicate InUse(live: map<nat, nat>, size: map<nat, nat>, free: set<nat>) {
    && (forall a :: a in live ==> live[a] > 0 && a in size && size[a] == live[a] && Range(a, live[a]) !! free)
    && (forall a, b :: a in live && b in live && a != b ==> Range(a, live[a]) !! Range(b, live[b]))
  }

  ghost function LiveUnits(live: map<nat, nat>): set<nat> {
    set a, u | a in live && u in Range(a, live[a]) :: u
  }

  // Exactly one place of the circle precedes an address that is not free.
  lemma {:induction false} Slot(blocks: seq<Block>, at: nat) returns (j: nat)
    requires Apart(blocks) && blocks != [] && blocks[0].at < at && forall i :: 0 <= i < |blocks| ==> blocks[i].at != at
    ensures j < |blocks| && blocks[j].at < at && (j + 1 < |blocks| ==> at < blocks[j + 1].at)
    ensures forall i :: 0 <= i < j ==> blocks[i].at + blocks[i].units < blocks[j].at
    ensures forall i :: j < i < |blocks| ==> at < blocks[i].at
  {
    if |blocks| == 1 || at < blocks[1].at {
      j := 0;
      forall i | 0 < i < |blocks| ensures at < blocks[i].at {
        if i > 1 { ApartAt(blocks, 1, i); }
      }
    } else {
      j := Slot(blocks[1..], at);
      j := j + 1;
      forall i | 0 <= i < j ensures blocks[i].at + blocks[i].units < blocks[j].at {
        ApartAt(blocks, i, j);
      }
      forall i | j < i < |blocks| ensures at < blocks[i].at {
        assert blocks[i] == blocks[1..][i - 1];
      }
    }
  }

  // The relinking that free does at place p of the circle: its maps ptr and
  // size afterwards.
  function Relinked(ptr: map<nat, nat>, size: map<nat, nat>, p: nat, bp: nat): (r: (map<nat, nat>, map<nat, nat>))
    requires p in ptr && p in size && bp in size && p != bp
    requires bp + size[bp] == ptr[p] ==> ptr[p] in size && ptr[p] in ptr
  {
    var q := ptr[p];
    var up := bp + size[bp] == q;
    var size1 := if up then size[bp := size[bp] + size[q]] else size;
    var ptr1 := ptr[bp := if up then ptr[q] else q];
    var down := p + size1[p] == bp;
    (ptr1[p := if down then ptr1[bp] else bp], if down then size1[p := size1[p] + size1[bp]] else size1)
  }

  lemma Distinct(blocks: seq<Block>, i: nat, j: nat)
    requires Apart(blocks) && i < |blocks| && j < |blocks| && i != j
    ensures blocks[i].at != blocks[j].at
  {
    if i < j { ApartAt(blocks, i, j); } else { ApartAt(blocks, j, i); }
  }

  // The circle after free's relinking is that of the merged list.
  lemma MergedCircle(ptr: map<nat, nat>, size: map<nat, nat>, blocks: seq<Block>, base: nat, j: nat, b: Block)
    requires Circle(ptr, size, blocks) && Fits(blocks, base, j, b) && b.at in size && size[b.at] == b.units
    requires forall i :: 0 <= i < |blocks| ==> blocks[i].at != b.at
    ensures blocks[j].at in ptr && blocks[j].at in size && ptr[blocks[j].at] in ptr && ptr[blocks[j].at] in size
    ensures var (ptr', size') := Relinked(ptr, size, blocks[j].at, b.at);
            Circle(ptr', size', Merged(blocks, j, b))
  {
    hide Canonical, Units, Range, Apart, Circle, Relinked, Around;
    FitsBetween(blocks, base, j, b);
    assert Apart(blocks) by { FitsApart(blocks, base, j, b); }
    CircleOpen(ptr, size, blocks);
    if j > 0 { ApartAt(blocks, 0, j); }
    if j + 1 < |blocks| { Distinct(blocks, j, j + 1); }
    MidLinked(ptr, size, blocks, j, b);
    forall i | 0 <= i < |blocks| && i != j ensures blocks[i].at != blocks[j].at {
      Distinct(blocks, i, j);
    }
    MergedAround(ptr, size, blocks, j, b);
    var (ptr', size') := Relinked(ptr, size, blocks[j].at, b.at);
    CircleAround(ptr', size', blocks, Taken(blocks, j, b).0, Taken(blocks, j, b).1,
                 Merged(blocks, j, b)[Taken(blocks, j, b).0]);
  }

  lemma MergedAround(ptr: map<nat, nat>, size: map<nat, nat>, blocks: seq<Block>, j: nat, b: Block)
    requires j < |blocks| && b.at in size && size[b.at] == b.units && Circle(ptr, size, blocks)
    requires blocks[j].at < b.at && b.units > 0 && blocks[0].at <= blocks[j].at
    requires forall i :: 0 <= i < |blocks| ==> blocks[i].at != b.at && (i != j ==> blocks[i].at != blocks[j].at)
    ensures blocks[j].at in ptr && blocks[j].at in size && ptr[blocks[j].at] in ptr && ptr[blocks[j].at] in size
    ensures var (ptr', size') := Relinked(ptr, size, blocks[j].at, b.at);
            var (l, h) := Taken(blocks, j, b);
            Around(ptr', size', blocks, l, h, Merged(blocks, j, b)[l])
  {
    hide Circle, Relinked;
    CircleOpen(ptr, size, blocks);
    MidLinked(ptr, size, blocks, j, b);
    var (ptr', size') := Relinked(ptr, size, blocks[j].at, b.at);
    forall i | 0 <= i < |blocks| && i != j
      ensures blocks[i].at in ptr' && blocks[i].at in size'
      ensures ptr'[blocks[i].at] == blocks[Next(i, |blocks|)].at && size'[blocks[i].at] == blocks[i].units
    {
      RelinkedOther(ptr, size, blocks[j].at, b.at, blocks[i].at);
    }
  }

  // No other header changes.
  lemma RelinkedOther(ptr: map<nat, nat>, size: map<nat, nat>, p: nat, bp: nat, a: nat)
    requires p in ptr && p in size && bp in size && p != bp && ptr[p] in size && ptr[p] in ptr
    requires a in ptr && a in size && a != p && a != bp
    ensures var (ptr', size') := Relinked(ptr, size, p, bp);
            a in ptr' && a in size' && ptr'[a] == ptr[a] && size'[a] == size[a]
  {
  }

  lemma FitsApart(blocks: seq<Block>, base: nat, j: nat, b: Block)
    requires Fits(blocks, base, j, b)
    ensures Apart(blocks)
  {
  }

  // The header of the merged block, in the four cases.
  lemma MidLinked(ptr: map<nat, nat>, size: map<nat, nat>, blocks: seq<Block>, j: nat, b: Block)
    requires j < |blocks| && Circle(ptr, size, blocks) && b.at in size && size[b.at] == b.units
    requires blocks[j].at < b.at && b.units > 0 && blocks[0].at <= blocks[j].at
    requires forall i :: 0 <= i < |blocks| ==> blocks[i].at != b.at
    requires j + 1 < |blocks| ==> blocks[j + 1].at != blocks[j].at
    ensures blocks[j].at in ptr && blocks[j].at in size && ptr[blocks[j].at] in ptr && ptr[blocks[j].at] in size
    ensures var (ptr', size') := Relinked(ptr, size, blocks[j].at, b.at);
            var (l, h) := Taken(blocks, j, b);
            var mid := Merged(blocks, j, b)[l];
            && mid.at in ptr' && mid.at in size' && size'[mid.at] == mid.units
            && blocks[j].at in ptr' && blocks[j].at in size'
            && ptr'[mid.at] == blocks[if h < |blocks| then h else 0].at
            && (l == j + 1 ==> ptr'[blocks[j].at] == mid.at && size'[blocks[j].at] == blocks[j].units)
            && (l == j ==> mid.at == blocks[j].at)
  {
  }

  lemma CircleClose(ptr: map<nat, nat>, size: map<nat, nat>, r: seq<Block>)
    requires forall i :: 0 <= i < |r| ==> r[i].at in ptr && r[i].at in size && size[r[i].at] == r[i].units
    requires forall i {:trigger ptr[r[i].at]} :: 0 <= i < |r| ==> ptr[r[i].at] == r[Next(i, |r|)].at
    ensures Circle(ptr, size, r)
  {
  }

  lemma ReplacedAt(blocks: seq<Block>, l: nat, h: nat, mid: Block)
    requires l <= h <= |blocks|
    ensures Spliced(blocks, l, h, mid, blocks[..l] + [mid] + blocks[h..])
  {
  }

  // mid stands between the first l blocks and those from h on.
  predicate Around(ptr: map<nat, nat>, size: map<nat, nat>, blocks: seq<Block>, l: nat, h: nat, mid: Block) {
    && l <= h <= |blocks| && blocks != [] && (l == 0 ==> mid.at == blocks[0].at)
    && (forall i :: 0 <= i < |blocks| ==> blocks[i].at in ptr && blocks[i].at in size)
    && mid.at in ptr && mid.at in size && size[mid.at] == mid.units
    && ptr[mid.at] == blocks[if h < |blocks| then h else 0].at
    && (forall i {:trigger ptr[blocks[i].at]} :: 0 <= i < l ==>
          && size[blocks[i].at] == blocks[i].units
          && ptr[blocks[i].at] == if i + 1 < l then blocks[i + 1].at else mid.at)
    && (forall i {:trigger ptr[blocks[i].at]} :: h <= i < |blocks| ==>
          size[blocks[i].at] == blocks[i].units && ptr[blocks[i].at] == blocks[Next(i, |blocks|)].at)
  }

  predicate Spliced(blocks: seq<Block>, l: nat, h: nat, mid: Block, r: seq<Block>) {
    && l <= h <= |blocks| && |r| == l + 1 + |blocks| - h
    && (forall i {:trigger r[i]} :: 0 <= i < l ==> r[i] == blocks[i]) && r[l] == mid
    && (forall k {:trigger blocks[k]} :: h <= k < |blocks| ==> r[k - h + l + 1] == blocks[k])
  }

  // They make a circle.
  lemma CircleAround(ptr: map<nat, nat>, size: map<nat, nat>, blocks: seq<Block>, l: nat, h: nat, mid: Block)
    requires Around(ptr, size, blocks, l, h, mid)
    ensures l <= h <= |blocks| && Circle(ptr, size, blocks[..l] + [mid] + blocks[h..])
  {
    hide Circle;
    ReplacedAt(blocks, l, h, mid);
    CircleOf(ptr, size, blocks, l, h, mid, blocks[..l] + [mid] + blocks[h..]);
  }

  lemma CircleOf(ptr: map<nat, nat>, size: map<nat, nat>, blocks: seq<Block>, l: nat, h: nat, mid: Block, r: seq<Block>)
    requires Around(ptr, size, blocks, l, h, mid) && Spliced(blocks, l, h, mid, r)
    ensures Circle(ptr, size, r)
  {
    hide Circle, Around, Spliced;
    forall i: nat | i < |r|
      ensures r[i].at in ptr && r[i].at in size && size[r[i].at] == r[i].units
      ensures ptr[r[i].at] == r[Next(i, |r|)].at
    {
      if i < l {
        CircleFront(ptr, size, blocks, l, h, mid, r, i);
      } else {
        CircleBack(ptr, size, blocks, l, h, mid, r, i);
      }
    }
    CircleClose(ptr, size, r);
  }

  lemma CircleFront(ptr: map<nat, nat>, size: map<nat, nat>, blocks: seq<Block>, l: nat, h: nat, mid: Block,
                    r: seq<Block>, i: nat)
    requires Around(ptr, size, blocks, l, h, mid) && Spliced(blocks, l, h, mid, r) && i < l
    ensures i < |r| && r[i].at in ptr && r[i].at in size && size[r[i].at] == r[i].units
    ensures ptr[r[i].at] == r[Next(i, |r|)].at
  {
    assert ptr[blocks[i].at] == if i + 1 < l then blocks[i + 1].at else mid.at;
  }

  lemma CircleBack(ptr: map<nat, nat>, size: map<nat, nat>, blocks: seq<Block>, l: nat, h: nat, mid: Block,
                   r: seq<Block>, i: nat)
    requires Around(ptr, size, blocks, l, h, mid) && Spliced(blocks, l, h, mid, r) && l <= i < |r|
    ensures r[i].at in ptr && r[i].at in size && size[r[i].at] == r[i].units
    ensures ptr[r[i].at] == r[Next(i, |r|)].at
  {
    hide Around, Spliced;
    SplicedMid(blocks, l, h, mid, r);
    AroundMid(ptr, size, blocks, l, h, mid);
    if i > l {
      var k := i - l - 1 + h;
      SplicedHigh(blocks, l, h, mid, r, k);
      AroundHigh(ptr, size, blocks, l, h, mid, k);
      if k + 1 < |blocks| {
        SplicedHigh(blocks, l, h, mid, r, k + 1);
      } else {
        SplicedFirst(ptr, size, blocks, l, h, mid, r);
      }
    } else if h < |blocks| {
      SplicedHigh(blocks, l, h, mid, r, h);
    } else {
      SplicedFirst(ptr, size, blocks, l, h, mid, r);
    }
  }

  lemma SplicedMid(blocks: seq<Block>, l: nat, h: nat, mid: Block, r: seq<Block>)
    requires Spliced(blocks, l, h, mid, r)
    ensures l <= h <= |blocks| && |r| == l + 1 + |blocks| - h && r[l] == mid
  {
  }

  lemma SplicedHigh(blocks: seq<Block>, l: nat, h: nat, mid: Block, r: seq<Block>, k: nat)
    requires Spliced(blocks, l, h, mid, r) && h <= k < |blocks|
    ensures k - h + l + 1 < |r| && r[k - h + l + 1] == blocks[k]
  {
  }

  lemma SplicedFirst(ptr: map<nat, nat>, size: map<nat, nat>, blocks: seq<Block>, l: nat, h: nat, mid: Block,
                     r: seq<Block>)
    requires Around(ptr, size, blocks, l, h, mid) && Spliced(blocks, l, h, mid, r)
    ensures |blocks| > 0 && |r| > 0 && r[0].at == blocks[0].at
  {
  }

  lemma AroundMid(ptr: map<nat, nat>, size: map<nat, nat>, blocks: seq<Block>, l: nat, h: nat, mid: Block)
    requires Around(ptr, size, blocks, l, h, mid)
    ensures l <= h <= |blocks| && |blocks| > 0 && mid.at in ptr && mid.at in size && size[mid.at] == mid.units
    ensures ptr[mid.at] == blocks[if h < |blocks| then h else 0].at
  {
  }

  lemma AroundHigh(ptr: map<nat, nat>, size: map<nat, nat>, blocks: seq<Block>, l: nat, h: nat, mid: Block, k: nat)
    requires Around(ptr, size, blocks, l, h, mid) && h <= k < |blocks|
    ensures blocks[k].at in ptr && blocks[k].at in size && size[blocks[k].at] == blocks[k].units
    ensures ptr[blocks[k].at] == blocks[Next(k, |blocks|)].at
  {
  }

  lemma CircleOpen(ptr: map<nat, nat>, size: map<nat, nat>, blocks: seq<Block>)
    requires Circle(ptr, size, blocks)
    ensures forall i :: 0 <= i < |blocks| ==>
              blocks[i].at in ptr && blocks[i].at in size && size[blocks[i].at] == blocks[i].units
    ensures forall i {:trigger ptr[blocks[i].at]} :: 0 <= i < |blocks| ==>
              ptr[blocks[i].at] == blocks[Next(i, |blocks|)].at
  {
  }

  // ... and one in which nothing does: the first l blocks, then those from h on.
  lemma CircleWithout(ptr: map<nat, nat>, size: map<nat, nat>, blocks: seq<Block>, base: nat, i: nat)
    requires Circle(ptr, size, blocks) && Canonical(blocks, base) && 0 < i < |blocks|
    ensures Circle(ptr[blocks[i - 1].at := ptr[blocks[i].at]], size, blocks[..i] + blocks[i + 1..])
  {
    hide Canonical, Apart, Circle, Around;
    forall k | 0 <= k < |blocks| && k != i - 1 ensures blocks[k].at != blocks[i - 1].at {
      InsideBlock(blocks, base, i - 1, k);
    }
    CircleOpen(ptr, size, blocks);
    SkipAround(ptr, size, blocks, i);
    CircleAround(ptr[blocks[i - 1].at := ptr[blocks[i].at]], size, blocks, i - 1, i + 1, blocks[i - 1]);
    SkipSlices(blocks, i);
  }

  lemma SkipAround(ptr: map<nat, nat>, size: map<nat, nat>, blocks: seq<Block>, i: nat)
    requires 0 < i < |blocks| && forall k :: 0 <= k < |blocks| && k != i - 1 ==> blocks[k].at != blocks[i - 1].at
    requires forall k :: 0 <= k < |blocks| ==>
               blocks[k].at in ptr && blocks[k].at in size && size[blocks[k].at] == blocks[k].units
    requires forall k {:trigger ptr[blocks[k].at]} :: 0 <= k < |blocks| ==>
               ptr[blocks[k].at] == blocks[Next(k, |blocks|)].at
    ensures Around(ptr[blocks[i - 1].at := ptr[blocks[i].at]], size, blocks, i - 1, i + 1, blocks[i - 1])
  {
    var ptr' := ptr[blocks[i - 1].at := ptr[blocks[i].at]];
    forall k {:trigger ptr'[blocks[k].at]} | 0 <= k < |blocks| && k != i - 1
      ensures blocks[k].at in ptr' && ptr'[blocks[k].at] == ptr[blocks[k].at] == blocks[Next(k, |blocks|)].at
    {
    }
  }

  lemma SkipSlices<T>(blocks: seq<T>, i: nat)
    requires 0 < i < |blocks|
    ensures blocks[..i] + blocks[i + 1..] == blocks[..i - 1] + [blocks[i - 1]] + blocks[i + 1..]
  {
  }

  lemma FitsPlace(blocks: seq<Block>, base: nat, j: nat, b: Block)
    requires Fits(blocks, base, j, b)
    ensures j < |blocks|
  {
  }

  // Relinking changes the sizes of the two blocks it is about only.
  lemma RelinkedSizes(ptr: map<nat, nat>, size: map<nat, nat>, p: nat, bp: nat, live: map<nat, nat>, free: set<nat>)
    requires p in ptr && p in size && bp in size && p != bp && ptr[p] in ptr && ptr[p] in size
    requires InUse(live, size, free) && p !in live && bp !in live
    ensures InUse(live, Relinked(ptr, size, p, bp).1, free)
  {
  }

  // Which places of the circle free's loop stops at: the one before bp.
  predicate StopsAt(at: nat, p: nat, q: nat) {
    (at > p && at < q) || (p >= q && (at > p || at < q))
  }

  lemma AtPlace(ptr: map<nat, nat>, size: map<nat, nat>, blocks: seq<Block>, base: nat, j: nat, b: Block, k: nat)
    requires Circle(ptr, size, blocks) && Fits(blocks, base, j, b) && k < |blocks|
    ensures blocks[k].at in ptr && (StopsAt(b.at, blocks[k].at, ptr[blocks[k].at]) <==> k == j)
  {
    hide StopsAt;
    assert ptr[blocks[k].at] == blocks[Next(k, |blocks|)].at;
    if k == j {
      StopsHere(blocks, j, b.at);
    } else if k < j {
      PassesBefore(blocks, j, b.at, k);
    } else {
      PassesAfter(blocks, j, b.at, k);
    }
  }

  lemma StopsHere(blocks: seq<Block>, j: nat, at: nat)
    requires Apart(blocks) && j < |blocks| && blocks[j].at < at && (j + 1 < |blocks| ==> at < blocks[j + 1].at)
    ensures StopsAt(at, blocks[j].at, blocks[Next(j, |blocks|)].at)
  {
    if j > 0 {
      ApartAt(blocks, 0, j);
    }
  }

  lemma PassesBefore(blocks: seq<Block>, j: nat, at: nat, k: nat)
    requires Apart(blocks) && k < j < |blocks| && blocks[j].at < at
    ensures !StopsAt(at, blocks[k].at, blocks[Next(k, |blocks|)].at)
  {
    ApartAt(blocks, k, k + 1);
    if k + 1 < j {
      ApartAt(blocks, k + 1, j);
    }
  }

  lemma PassesAfter(blocks: seq<Block>, j: nat, at: nat, k: nat)
    requires Apart(blocks) && j < k < |blocks| && blocks[j].at < at < blocks[j + 1].at
    ensures !StopsAt(at, blocks[k].at, blocks[Next(k, |blocks|)].at)
  {
    if j + 1 < k {
      ApartAt(blocks, j + 1, k);
    }
    if k + 1 < |blocks| {
      ApartAt(blocks, k, k + 1);
    } else if j > 0 {
      ApartAt(blocks, 0, j);
    }
  }

  // A block apart from the free units has a place in the list.
  lemma PlaceOf(blocks: seq<Block>, base: nat, b: Block) returns (j: nat)
    requires Canonical(blocks, base) && base < b.at && b.units > 0 && Units(blocks) !! Range(b.at, b.units)
    ensures Fits(blocks, base, j, b) && forall i :: 0 <= i < |blocks| ==> blocks[i].at != b.at
  {
    assert b.at in Range(b.at, b.units);
    forall i | 0 <= i < |blocks| ensures blocks[i].at != b.at {
      UnitsHas(blocks, i);
      assert i > 0 ==> blocks[i].at in Range(blocks[i].at, blocks[i].units);
    }
    j := Slot(blocks, b.at);
  }

  // Headers of free blocks are not headers of blocks in use.
  lemma FreeNotLive(blocks: seq<Block>, base: nat, live: map<nat, nat>, size: map<nat, nat>, j: nat)
    requires Canonical(blocks, base) && InUse(live, size, Units(blocks)) && base !in live && j < |blocks|
    ensures blocks[j].at !in live
  {
    UnitsHas(blocks, j);
    assert j > 0 ==> blocks[j].at in Range(blocks[j].at, blocks[j].units);
    forall a | a in live ensures a != blocks[j].at {
      assert a in Range(a, live[a]);
    }
  }

  lemma LiveHas(live: map<nat, nat>, a: nat)
    requires a in live
    ensures Range(a, live[a]) <= LiveUnits(live) && (live[a] > 0 ==> a in LiveUnits(live))
  {
  }

  lemma LiveLess(live: map<nat, nat>, size: map<nat, nat>, free: set<nat>, bp: nat)
    requires InUse(live, size, free) && bp in live
    ensures LiveUnits(live - {bp}) == LiveUnits(live) - Range(bp, live[bp])
    ensures LiveUnits(live) !! free
  {
    var rest := live - {bp};
    forall u | u in LiveUnits(live) && u !in Range(bp, live[bp]) ensures u in LiveUnits(rest) {
      var a :| a in live && u in Range(a, live[a]);
      assert a in rest && rest[a] == live[a];
    }
  }

  lemma LiveMore(live: map<nat, nat>, bp: nat, n: nat)
    requires bp !in live
    ensures LiveUnits(live[bp := n]) == LiveUnits(live) + Range(bp, n)
  {
    var more := live[bp := n];
    forall u | u in LiveUnits(live) + Range(bp, n) ensures u in LiveUnits(more) {
      if u in Range(bp, n) {
        assert more[bp] == n;
      } else {
        var a :| a in live && u in Range(a, live[a]);
        assert more[a] == live[a];
      }
    }
  }

  // ------------------------------------------------------------ the allocator

  // Units for a request: room for the bytes, and a header.
  function Request(nbytes: nat): nat { (nbytes + UNIT - 1) / UNIT + 1 }

  const UINT: nat := 0x1_0000_0000
  const INTMAX: nat := 0x7fff_ffff

  // What sbrk, which takes an int, receives of a byte count.
  function ToInt(bytes: nat): int {
    if bytes % UINT <= INTMAX then bytes % UINT else bytes % UINT - UINT
  }

  // What morecore asks for.
  function Asked(nu: nat): nat { if nu < MINUNITS then MINUNITS else nu }

  // growproc: the end of memory moves by n bytes, unless that would be before
  // its start.  n is a multiple of UNIT, as every count of morecore is.
  function Moved(brk: nat, n: int): nat {
    if brk * UNIT + n < 0 then brk else (brk * UNIT + n) / UNIT
  }

  // The count that sbrk receives is all of the bytes, if these are an int, and
  // fewer otherwise.
  lemma ToIntUnits(n: nat)
    requires n < UINT
    ensures ToInt(n * UNIT) % UNIT == 0
    ensures if n * UNIT <= INTMAX then ToInt(n * UNIT) == n * UNIT else ToInt(n * UNIT) < n * UNIT
  {
    hide ToInt;
    var m, r := n / 0x1000_0000, n % 0x1000_0000;
    assert n == m * 0x1000_0000 + r;
    ToIntOf(n * UNIT, m, r * UNIT);
  }

  lemma ToIntOf(bytes: nat, m: nat, low: nat)
    requires bytes == m * UINT + low && low < UINT && low % UNIT == 0
    ensures ToInt(bytes) % UNIT == 0
    ensures if bytes <= INTMAX then ToInt(bytes) == bytes else ToInt(bytes) < bytes
  {
    Reduce(m, low);
  }

  lemma Reduce(m: nat, r: nat)
    requires r < UINT
    ensures (m * UINT + r) % UINT == r
  {
  }

  lemma MovedUnits(brk: nat, v: int, n: nat)
    requires v % UNIT == 0 && n > 0
    ensures v == n * UNIT ==> Moved(brk, v) == brk + n
    ensures v < n * UNIT ==> Moved(brk, v) < brk + n
  {
  }

  // The units from the old break to the new one are all those that morecore
  // records exactly when their byte count is an int.
  lemma ObtainedIff(brk: nat, nu: nat)
    requires Asked(nu) < UINT
    ensures ToInt(Asked(nu) * UNIT) % UNIT == 0
    ensures brk + Asked(nu) <= Moved(brk, ToInt(Asked(nu) * UNIT)) <==> nu * UNIT <= INTMAX
    ensures nu * UNIT <= INTMAX ==> Moved(brk, ToInt(Asked(nu) * UNIT)) == brk + Asked(nu)
  {
    hide ToInt, Moved;
    ToIntUnits(Asked(nu));
    MovedUnits(brk, ToInt(Asked(nu) * UNIT), Asked(nu));
  }

  // Whether unit u lies in a page of the process: pages of 256 units are mapped
  // up to the one that holds the break.
  predicate Mapped(u: nat, brk: nat) { u < (brk + 255) / 256 * 256 }

  // malloc(2^32 - 1) asks sbrk for 16 bytes.  malloc(2^31) asks it to take away
  // 2^31 - 16: of a process that has fewer it takes nothing, and the header that
  // morecore then writes is in a page of the process unless the break is at the
  // end of one.
  lemma LargeRequests(brk: nat)
    ensures Request(UINT - 1) == 0x1000_0001 && ToInt(Asked(Request(UINT - 1)) * UNIT) == 16
    ensures Moved(brk, 16) == brk + 1 && Mapped(brk, Moved(brk, 16))
    ensures ToInt(Asked(Request(0x8000_0000)) * UNIT) == 15 - INTMAX
    ensures if brk * UNIT >= INTMAX - 15 then Moved(brk, 15 - INTMAX) < brk else Moved(brk, 15 - INTMAX) == brk
    ensures Mapped(brk, brk) <==> brk % 256 != 0
  {
    WholePages(brk);
  }

  lemma WholePages(brk: nat)
    ensures brk < (brk + 255) / 256 * 256 <==> brk % 256 != 0
    ensures brk < (brk + 1 + 255) / 256 * 256
  {
    assert brk == brk / 256 * 256 + brk % 256;
  }

  // How a call ends: with 0, with the process killed at a write to memory it
  // does not have, or with a pointer.
  datatype Outcome = Null | Killed | At(value: nat)

  ghost predicate Below(heap: set<nat>, base: nat, brk: nat) {
    base < brk && forall u :: u in heap ==> u < brk
  }

  class Heap {
    const base: nat
    var ptr: map<nat, nat>       // s.ptr of the header at an address
    var size: map<nat, nat>      // s.size
    var freep: nat               // 0 before the first call
    var brk: nat                 // the end of the process's memory
    ghost var blocks: seq<Block> // the free list, from base on
    ghost var live: map<nat, nat> // blocks handed out, by header address
    ghost var heap: set<nat>     // all the units morecore has recorded
    ghost var refusals: nat      // how often sbrk has failed

    // Every unit of the allocator is memory the process has.
    ghost predicate Backed()
      reads this
    {
      Below(heap, base, brk)
    }

    ghost predicate Valid()
      reads this
    {
      Linked() && Backed()
    }

    ghost predicate Linked()
      reads this
    {
      && 0 < base
      && (forall u :: u in heap ==> base < u)
      && heap == Units(blocks) + LiveUnits(live)
      && InUse(live, size, Units(blocks))
      && (if freep == 0 then blocks == [] && live == map[]
          else
            && Canonical(blocks, base) && Circle(ptr, size, blocks)
            && exists k :: 0 <= k < |blocks| && blocks[k].at == freep)
    }

    constructor (base: nat, brk: nat)
      requires 0 < base < brk
      ensures Valid() && heap == {} && live == map[] && freep == 0
    {
      this.base, this.brk, freep := base, brk, 0;
      ptr, size := map[], map[];
      blocks, live, heap, refusals := [], map[], {}, 0;
    }

    // A block that free may be called on: one handed out, or fresh memory that
    // morecore has just given a size.
    ghost predicate Freeable(bp: nat)
      reads this
    {
      || bp in live
      || (bp in size && size[bp] > 0 && base < bp && Range(bp, size[bp]) !! heap)
    }

    lemma FreeableFacts(bp: nat)
      requires Linked() && freep != 0 && Freeable(bp)
      ensures bp in size && size[bp] > 0 && base < bp && Units(blocks) !! Range(bp, size[bp])
      ensures base !in live && (bp in live ==> Range(bp, size[bp]) <= heap)
      ensures InUse(live - {bp}, size, Units(blocks) + Range(bp, size[bp]))
      ensures heap + Range(bp, size[bp]) == Units(blocks) + Range(bp, size[bp]) + LiveUnits(live - {bp})
      ensures forall u :: u in heap + Range(bp, size[bp]) ==> base < u
    {
      if base in live { LiveHas(live, base); }
      forall a | a in live ensures Range(a, live[a]) <= heap { LiveHas(live, a); }
      if bp in live {
        LiveHas(live, bp);
        LiveLess(live, size, Units(blocks), bp);
      } else {
        assert live - {bp} == live;
      }
    }

    // free, on the block with header bp.
    method Free(bp: nat)
      requires Linked() && freep != 0 && Freeable(bp)
      modifies this`ptr, this`size, this`freep, this`blocks, this`live, this`heap
      ensures Linked() && freep != 0 && (old(Backed()) && bp in old(live) ==> Backed())
      ensures live == old(live) - {bp} && heap == old(heap) + Range(bp, old(size[bp]))
      ensures Units(blocks) == old(Units(blocks)) + Range(bp, old(size[bp]))
      ensures exists i :: 0 <= i < |blocks| && blocks[i].units >= old(size[bp])
      ensures exists j :: 0 <= j < |old(blocks)| && old(blocks)[j].at == freep < bp &&
                (j + 1 < |old(blocks)| ==> bp < old(blocks)[j + 1].at)
    {
      hide Canonical, Circle, Units, Range, Fits, Merged, Relinked, LiveUnits, InUse;
      FreeableFacts(bp);
      ghost var b, size0 := Block(bp, size[bp]), size;
      ghost var j := PlaceOf(blocks, base, b);
      MergedCanonical(blocks, base, j, b);
      MergedUnits(blocks, base, j, b);
      MergedCircle(ptr, size, blocks, base, j, b);
      FreeNotLive(blocks, base, live, size, j);
      var p := Search(bp, b, j);
      RelinkedSizes(ptr, size, p, bp, live - {bp}, Units(blocks) + Range(bp, size[bp]));
      Relink(p, bp);
      freep := p;
      KeepsPlace(blocks, base, j, b);
      FitsPlace(blocks, base, j, b);
      blocks := Merged(blocks, j, b);
      live := live - {bp};
      heap := heap + Range(bp, b.units);
    }

    // The loop of free: the free block after which bp belongs.
    method Search(bp: nat, ghost b: Block, ghost j: nat) returns (p: nat)
      requires Canonical(blocks, base) && Circle(ptr, size, blocks) && Fits(blocks, base, j, b) && bp == b.at
      requires exists k :: 0 <= k < |blocks| && blocks[k].at == freep
      ensures p == blocks[j].at
    {
      hide Canonical, Fits, Units, Range;
      ghost var n := |blocks|;
      assert j < n by { FitsPlace(blocks, base, j, b); }
      ghost var k :| 0 <= k < n && blocks[k].at == freep;
      p := freep;
      AtPlace(ptr, size, blocks, base, j, b, k);
      while !(bp > p && bp < ptr[p])
        invariant 0 <= k < n && j < n && p == blocks[k].at && p in ptr
        invariant bp > p && bp < ptr[p] ==> k == j
        decreases Steps(k, j, n)
      {
        AtPlace(ptr, size, blocks, base, j, b, k);
        if p >= ptr[p] && (bp > p || bp < ptr[p]) {
          break;
        }
        p, k := ptr[p], Next(k, n);
        AtPlace(ptr, size, blocks, base, j, b, k);
      }
    }

    // The four ways free links bp in after p.
    method Relink(p: nat, bp: nat)
      requires p in ptr && p in size && bp in size && p != bp && ptr[p] in ptr && ptr[p] in size
      modifies this`ptr, this`size
      ensures (ptr, size) == Relinked(old(ptr), old(size), p, bp)
    {
      if bp + size[bp] == ptr[p] {
        size := size[bp := size[bp] + size[ptr[p]]];
        ptr := ptr[bp := ptr[ptr[p]]];
      } else {
        ptr := ptr[bp := ptr[p]];
      }
      if p + size[p] == bp {
        size := size[p := size[p] + size[bp]];
        ptr := ptr[p := ptr[bp]];
      } else {
        ptr := ptr[p := bp];
      }
    }

    // sbrk of n bytes, which may fail, and need not continue the previous heap:
    // the process may have moved the break itself.
    method Sbrk(n: int) returns (r: Option<nat>)
      requires n % UNIT == 0
      modifies this`brk, this`refusals
      ensures r.None? ==> brk == old(brk) && refusals == old(refusals) + 1
      ensures r.Some? ==> r.value >= old(brk) && brk == Moved(r.value, n) && refusals == old(refusals)
    {
      if * {
        refusals := refusals + 1;
        return None;
      }
      var p: nat :| p >= brk;
      r := Some(p);
      brk := Moved(p, n);
    }

    // morecore: 0 when sbrk fails; killed when the header at the old break hp
    // is in no page of the process; otherwise at least nu more free units, in a
    // block that holds them all, which the process has if and only if their
    // byte count is an int.
    method Morecore(nu: nat) returns (r: Outcome, ghost hp: nat)
      requires Valid() && freep != 0 && 0 < nu < UINT
      modifies this
      ensures Linked() && freep != 0 && live == old(live)
      ensures r.Null? ==> Backed() && refusals == old(refusals) + 1
      ensures !r.Null? ==> refusals == old(refusals) && hp >= old(brk) && brk == Moved(hp, ToInt(Asked(nu) * UNIT))
      ensures !r.Null? ==> (r.Killed? <==> !Mapped(hp, brk))
      ensures r.Killed? ==> nu * UNIT > INTMAX
      ensures !r.At? ==> heap == old(heap) && blocks == old(blocks)
      ensures !r.Null? && nu * UNIT <= INTMAX ==> brk == hp + if nu < 4096 then 4096 else nu
      ensures r.At? ==> r.value == freep && old(heap) < heap == old(heap) + Range(hp, if nu < 4096 then 4096 else nu)
      ensures r.At? ==> exists i :: 0 <= i < |blocks| && blocks[i].units >= nu
      ensures r.At? ==> (Backed() <==> nu * UNIT <= INTMAX)
    {
      hide Canonical, Circle, Units, Range, LiveUnits, Moved, ToInt, Mapped;
      var n := Asked(nu);
      BelowBreak();
      ObtainedIff(brk, nu);
      var p := Sbrk(ToInt(n * UNIT));
      hp := 0;
      if p.None? {
        return Null, hp;
      }
      hp := p.value;
      ObtainedIff(p.value, nu);
      if hp < brk { MappedBelow(hp, brk); }
      if !Mapped(p.value, brk) {
        return Killed, hp;
      }
      AddBlock(p.value, n);
      return At(freep), hp;
    }

    // The new memory gets a header and is freed.
    method AddBlock(hp: nat, n: nat)
      requires Linked() && freep != 0 && n > 0 && hp > base
      requires (forall u :: u in heap ==> u < hp) && (forall a :: a in live ==> a < hp)
      requires forall i :: 0 <= i < |blocks| ==> blocks[i].at < hp
      modifies this`ptr, this`size, this`freep, this`blocks, this`live, this`heap
      ensures Linked() && freep != 0 && live == old(live) && old(heap) < heap == old(heap) + Range(hp, n)
      ensures hp + n - 1 in heap && forall u :: u in heap ==> u in old(heap) || u < hp + n
      ensures exists i :: 0 <= i < |blocks| && blocks[i].units >= n
    {
      hide Canonical, Circle, Units, Range, LiveUnits;
      RangeAbove(hp, n, heap);
      NewHeader(ptr, size, blocks, live, Units(blocks), hp, n);
      size := size[hp := n];
      Free(hp);
      assert live == old(live);
      RangeHas(hp, n);
    }

    lemma BelowBreak()
      requires Valid() && freep != 0
      ensures forall a :: a in live ==> a < brk
      ensures forall i :: 0 <= i < |blocks| ==> blocks[i].at < brk
    {
      forall a | a in live ensures a < brk { LiveHas(live, a); }
      forall i | 0 <= i < |blocks| ensures blocks[i].at < brk {
        UnitsHas(blocks, i);
        assert i > 0 ==> blocks[i].at in Range(blocks[i].at, blocks[i].units);
      }
    }

    // The first call: a list of the base alone.
    method Begin()
      requires Valid() && freep == 0
      modifies this`freep, this`ptr, this`size, this`blocks
      ensures Valid() && freep == base
    {
      hide Canonical, Circle, Units, Range, LiveUnits, InUse;
      freep := base;
      ptr := ptr[base := freep];
      size := size[base := 0];
      blocks := [Block(base, 0)];
      OnlyBase(ptr, size, base, live);
    }

    // The loop of malloc: first fit from freep on.
    method FirstFit(nunits: nat) returns (r: Outcome)
      requires Valid() && freep != 0 && 0 < nunits < UINT
      modifies this
      ensures Linked() && freep != 0
      ensures refusals == old(refusals) + if r.Null? then 1 else 0
      ensures r.Killed? ==> live == old(live) && heap == old(heap) && nunits * UNIT > INTMAX
      ensures r.Null? ==> live == old(live) && heap == old(heap) && AllLess(blocks, nunits)
      ensures r.At? ==>
                && r.value !in old(live) && live == old(live)[r.value := nunits]
                && old(heap) <= heap && Range(r.value, nunits) <= heap
      ensures !r.Killed? ==> (Backed() <==> heap == old(heap) || nunits * UNIT <= INTMAX)
      ensures AllLess(old(blocks), nunits) <==> !r.At? || heap != old(heap)
      ensures !AllLess(old(blocks), nunits) ==> FitFrom(old(blocks), old(freep), nunits, r.value, freep)
    {
      hide Canonical, Circle, Units, Range, LiveUnits, InUse, Below, AllSmall, AllLess, FitFrom;
      var prevp := freep;
      ghost var called, m :| !called && 0 <= m < |blocks| && blocks[m].at == freep;
      ghost var f := m;
      CircleAt(ptr, size, blocks, m);
      NothingPassed(blocks, f, nunits);
      var p := ptr[prevp];
      while true
        invariant Linked() && freep != 0 && live == old(live) && old(heap) <= heap && refusals == old(refusals)
        invariant if called then heap != old(heap) else heap == old(heap)
        invariant Backed() <==> !called || nunits * UNIT <= INTMAX
        invariant if called then AllLess(old(blocks), nunits) else blocks == old(blocks) && freep == old(freep)
        invariant 0 <= m < |blocks| && 0 <= f < |blocks| && blocks[m].at == prevp && blocks[f].at == freep
        invariant p == blocks[Next(m, |blocks|)].at
        invariant AllSmall(blocks, f, Next(m, |blocks|), nunits)
        invariant called ==> exists i :: 0 <= i < |blocks| && blocks[i].units >= nunits
        decreases if called then 0 else 1, Steps(Next(m, |blocks|), f, |blocks|)
      {
        ghost var q := Next(m, |blocks|);
        CircleAt(ptr, size, blocks, m);
        CircleAt(ptr, size, blocks, q);
        if size[p] >= nunits {
          AtLeastBase(blocks, base, m);
          FitFound(blocks, f, m, nunits);
          var at := Take(prevp, p, q, nunits);
          freep := prevp;
          return At(at);
        }
        SmallSoFar(blocks, f, q, nunits);
        if p == freep {
          SameAt(blocks, base, q, f);
          ghost var hp;
          r, hp := Morecore(nunits);
          if !r.At? {
            return;
          }
          called := true;
          p := r.value;
          f :| 0 <= f < |blocks| && blocks[f].at == freep;
          q := f;
          CircleAt(ptr, size, blocks, q);
          NothingPassed(blocks, f, nunits);
        }
        prevp, p, m := p, ptr[p], q;
      }
    }

    // malloc.  The block returned is new to the caller and large enough; 0
    // exactly when sbrk has refused and no free block is large enough, and then
    // nothing is lost.  A request that sbrk cannot be given as an int may kill
    // the process, or records memory that it does not have.
    method Malloc(nbytes: nat) returns (r: Outcome)
      requires Valid() && nbytes < UINT
      modifies this
      ensures Linked() && freep != 0
      ensures refusals == old(refusals) + if r.Null? then 1 else 0
      ensures r.Killed? ==> live == old(live) && heap == old(heap) && Request(nbytes) * UNIT > INTMAX
      ensures r.Null? ==> live == old(live) && heap == old(heap) && AllLess(blocks, Request(nbytes))
      ensures r.At? ==>
                && r.value !in old(live) && live == old(live)[r.value := Request(nbytes)]
                && old(heap) <= heap && Range(r.value, Request(nbytes)) <= heap
      ensures var n := Request(nbytes); n * 16 >= nbytes + 16 > (n - 1) * 16
      ensures old(freep) != 0 ==>
                && (AllLess(old(blocks), Request(nbytes)) <==> !r.At? || heap != old(heap))
                && (!AllLess(old(blocks), Request(nbytes)) ==>
                    FitFrom(old(blocks), old(freep), Request(nbytes), r.value, freep))
      ensures !r.Killed? ==> (Valid() <==> heap == old(heap) || Request(nbytes) * UNIT <= INTMAX)
    {
      hide Canonical, Circle, Units, Range, LiveUnits, InUse, Below;
      if freep == 0 {
        Begin();
      }
      r := FirstFit(Request(nbytes));
    }

    // Take nunits from the block p after prevp: all of it, or its end.
    method Take(prevp: nat, p: nat, ghost q: nat, nunits: nat) returns (r: nat)
      requires Linked() && freep != 0 && q < |blocks| && p == blocks[q].at && 0 < nunits <= blocks[q].units
      requires q > 0 ==> prevp == blocks[q - 1].at
      modifies this`ptr, this`size, this`blocks, this`live
      ensures r !in old(live) && live == old(live)[r := nunits]
      ensures r == old(blocks)[q].at + old(blocks)[q].units - nunits && Range(r, nunits) <= heap
      ensures heap == Units(blocks) + LiveUnits(live) && InUse(live, size, Units(blocks))
      ensures Canonical(blocks, base) && Circle(ptr, size, blocks)
      ensures exists k :: 0 <= k < |blocks| && blocks[k].at == prevp
    {
      hide Canonical, Units, Range, LiveUnits, InUse, Apart, Circle;
      PositiveNotBase(blocks, base, q);
      FreeNotLiveBase();
      FreeNotLive(blocks, base, live, size, q);
      CutCanonical(blocks, base, q, nunits);
      CutUnits(blocks, q, nunits);
      CircleAt(ptr, size, blocks, q);
      CircleWithout(ptr, size, blocks, base, q);
      CircleShorter(ptr, size, blocks, base, q, nunits);
      LastUnits(blocks, q, nunits, live, size);
      ghost var free := Units(blocks);
      if size[p] == nunits {
        ptr := ptr[prevp := ptr[p]];
        r := p;
      } else {
        size := size[p := size[p] - nunits];
        var cut: nat := p + size[p];
        r := cut;
        size := size[cut := nunits];
      }
      TakenInUse(live, old(size), size, free, p, r, nunits);
      LiveMore(live, r, nunits);
      blocks := Cut(blocks, q, nunits);
      live := live[r := nunits];
      assert blocks[q - 1].at == prevp;
    }

    lemma FreeNotLiveBase()
      requires Linked()
      ensures base !in live
    {
    }
  }

  lemma PositiveNotBase(blocks: seq<Block>, base: nat, q: nat)
    requires Canonical(blocks, base) && q < |blocks| && blocks[q].units > 0
    ensures q > 0 && Apart(blocks)
  {
  }

  // The circle after the end of block q is split off under a new header.
  lemma CircleShorter(ptr: map<nat, nat>, size: map<nat, nat>, blocks: seq<Block>, base: nat, q: nat, n: nat)
    requires Circle(ptr, size, blocks) && Canonical(blocks, base) && 0 < q < |blocks| && 0 < n <= blocks[q].units
    ensures n < blocks[q].units ==>
              var p, rest := blocks[q].at, blocks[q].units - n;
              Circle(ptr, size[p := rest][p + rest := n], blocks[..q] + [Block(p, rest)] + blocks[q + 1..])
  {
    hide Apart, Canonical, Circle;
    if n < blocks[q].units {
      var p, rest := blocks[q].at, blocks[q].units - n;
      var size' := size[p := rest][p + rest := n];
      forall i | 0 <= i < |blocks| ensures blocks[i].at != p + rest && (i != q ==> blocks[i].at != p) {
        if i != q { InsideBlock(blocks, base, q, i); }
      }
      CircleOpen(ptr, size, blocks);
      CircleAround(ptr, size', blocks, q, q + 1, Block(p, rest));
    }
  }

  // No header lies inside a block of the list.
  lemma InsideBlock(blocks: seq<Block>, base: nat, q: nat, i: nat)
    requires Canonical(blocks, base) && q < |blocks| && i < |blocks| && i != q
    ensures !(blocks[q].at <= blocks[i].at <= blocks[q].at + blocks[q].units)
  {
    if i < q { ApartAt(blocks, i, q); }
    if i > q { ApartAt(blocks, q, i); }
  }

  lemma AtLeastBase(blocks: seq<Block>, base: nat, i: nat)
    requires Canonical(blocks, base) && i < |blocks|
    ensures blocks[i].at >= base
  {
    if i > 0 { ApartAt(blocks, 0, i); }
  }

  lemma LastUnits(blocks: seq<Block>, q: nat, n: nat, live: map<nat, nat>, size: map<nat, nat>)
    requires q < |blocks| && 0 < n <= blocks[q].units && InUse(live, size, Units(blocks))
    ensures var r := blocks[q].at + blocks[q].units - n;
            r !in live && Range(r, n) <= Units(blocks)
  {
    UnitsHas(blocks, q);
    var r := blocks[q].at + blocks[q].units - n;
    assert r in Range(blocks[q].at, blocks[q].units);
    forall a | a in live ensures a != r {
      assert a in Range(a, live[a]);
    }
  }

  lemma TakenInUse(live: map<nat, nat>, size: map<nat, nat>, size': map<nat, nat>, free: set<nat>, p: nat, r: nat,
                   n: nat)
    requires InUse(live, size, free) && r !in live && p !in live && Range(r, n) <= free && n > 0
    requires r in size' && size'[r] == n && forall a :: a in size && a != p && a != r ==>
               a in size' && size'[a] == size[a]
    ensures InUse(live[r := n], size', free - Range(r, n))
  {
  }

  // A header where there was none disturbs nothing.
  lemma NewHeader(ptr: map<nat, nat>, size: map<nat, nat>, blocks: seq<Block>, live: map<nat, nat>, free: set<nat>,
                  at: nat, n: nat)
    requires Circle(ptr, size, blocks) && InUse(live, size, free)
    requires at !in live && forall i :: 0 <= i < |blocks| ==> blocks[i].at != at
    ensures Circle(ptr, size[at := n], blocks) && InUse(live, size[at := n], free)
  {
  }

  lemma MappedBelow(u: nat, brk: nat)
    requires u < brk
    ensures Mapped(u, brk)
  {
  }

  lemma RangeHas(at: nat, n: nat)
    requires n > 0
    ensures at in Range(at, n) && at + n - 1 in Range(at, n) && forall u :: u in Range(at, n) ==> at <= u < at + n
  {
  }

  lemma RangeAbove(at: nat, n: nat, s: set<nat>)
    requires forall u :: u in s ==> u < at
    ensures Range(at, n) !! s
  {
  }

  // Between free's last place and q, along the circle, every block is small.
  ghost predicate AllSmall(blocks: seq<Block>, f: nat, q: nat, nunits: nat)
    requires f < |blocks| && q < |blocks|
  {
    var n, s := |blocks|, Next(f, |blocks|);
    forall i :: 0 <= i < n && Steps(s, i, n) < Steps(s, q, n) ==> blocks[i].units < nunits
  }

  ghost predicate AllLess(blocks: seq<Block>, nunits: nat) {
    forall i :: 0 <= i < |blocks| ==> blocks[i].units < nunits
  }

  // The first block of at least n units on the way around the circle from the
  // one at from on, which itself comes last, ends at the end of r's; the one
  // before it is at prev.
  ghost predicate FitFrom(blocks: seq<Block>, from: nat, n: nat, r: nat, prev: nat) {
    exists f, m :: 0 <= f < |blocks| && 0 <= m < |blocks| && blocks[f].at == from && blocks[m].at == prev &&
      FitAfter(blocks, f, m, n, r)
  }

  lemma FitFound(blocks: seq<Block>, f: nat, m: nat, n: nat)
    requires f < |blocks| && m < |blocks|
    requires AllSmall(blocks, f, Next(m, |blocks|), n) && blocks[Next(m, |blocks|)].units >= n
    ensures !AllLess(blocks, n)
    ensures var b := blocks[Next(m, |blocks|)]; FitFrom(blocks, blocks[f].at, n, b.at + b.units - n, blocks[m].at)
  {
    var b := blocks[Next(m, |blocks|)];
    assert FitAfter(blocks, f, m, n, b.at + b.units - n);
  }

  ghost predicate FitAfter(blocks: seq<Block>, f: nat, m: nat, n: nat, r: nat)
    requires f < |blocks| && m < |blocks|
  {
    var q := Next(m, |blocks|);
    blocks[q].units >= n && r + n == blocks[q].at + blocks[q].units && AllSmall(blocks, f, q, n)
  }

  lemma NothingPassed(blocks: seq<Block>, f: nat, nunits: nat)
    requires f < |blocks|
    ensures AllSmall(blocks, f, Next(f, |blocks|), nunits)
  {
  }

  // One more small block: the next place, or all of them.
  lemma SmallSoFar(blocks: seq<Block>, f: nat, q: nat, nunits: nat)
    requires f < |blocks| && q < |blocks| && AllSmall(blocks, f, q, nunits) && blocks[q].units < nunits
    ensures q != f ==> AllSmall(blocks, f, Next(q, |blocks|), nunits) &&
                       Steps(Next(q, |blocks|), f, |blocks|) < Steps(q, f, |blocks|)
    ensures q == f ==> AllLess(blocks, nunits)
  {
  }

  lemma CircleAt(ptr: map<nat, nat>, size: map<nat, nat>, blocks: seq<Block>, i: nat)
    requires Circle(ptr, size, blocks) && i < |blocks|
    ensures blocks[i].at in ptr && ptr[blocks[i].at] == blocks[Next(i, |blocks|)].at
    ensures blocks[i].at in size && size[blocks[i].at] == blocks[i].units
  {
  }

  lemma SameAt(blocks: seq<Block>, base: nat, i: nat, j: nat)
    requires Canonical(blocks, base) && i < |blocks| && j < |blocks| && blocks[i].at == blocks[j].at
    ensures i == j
  {
    if i != j { Distinct(blocks, i, j); }
  }

  // The circle of the first call: base alone.
  lemma OnlyBase(ptr: map<nat, nat>, size: map<nat, nat>, base: nat, live: map<nat, nat>)
    requires base in ptr && ptr[base] == base && base in size && size[base] == 0
    ensures Canonical([Block(base, 0)], base) && Circle(ptr, size, [Block(base, 0)]) && Units([Block(base, 0)]) == {}
    ensures Units([]) == {} && InUse(map[], size, {}) && LiveUnits(map[]) == {}
  {
  }

  // The block that ends up after p keeps p in the list.
  lemma KeepsPlace(blocks: seq<Block>, base: nat, j: nat, b: Block)
    requires Fits(blocks, base, j, b)
    ensures exists k :: 0 <= k < |Merged(blocks, j, b)| && Merged(blocks, j, b)[k].at == blocks[j].at
    ensures base <= blocks[j].at
  {
    if j > 0 { ApartAt(blocks, 0, j); }
    assert Merged(blocks, j, b)[j].at == blocks[j].at;
  }
}

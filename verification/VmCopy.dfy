// Copies between kernel and user memory (walkaddr, copyout, copyin and
// copyinstr in vm.c), page by page in the code, byte by byte in the contracts.
module VmCopy {
  import opened Bytes
  import opened Sv39
  import opened Kalloc
  import opened Vm

  // A user address that the page table lets the kernel copy from or to.
  ghost predicate Accessible(mem: Memory, t: Tree, va: nat)
    requires Shaped(mem, t)
  {
    && va < MAXVA
    && var e := Lookup(mem, t, va / PGSIZE); IsValid(e) && IsUser(e) && Frame(e) != 0
  }

  ghost function PageOf(mem: Memory, t: Tree, va: nat): nat
    requires Shaped(mem, t)
  {
    Frame(Lookup(mem, t, va / PGSIZE))
  }

  // User frames are pages of memory, and not page tables.
  ghost predicate UserFrames(mem: Memory, t: Tree)
    requires Shaped(mem, t)
  {
    forall va: nat {:trigger Accessible(mem, t, va)} ::
      Accessible(mem, t, va) ==> PageOf(mem, t, va) in mem && PageOf(mem, t, va) !in Tables(t)
  }

  ghost function ByteAt(mem: Memory, t: Tree, va: nat): Byte
    requires Shaped(mem, t) && UserFrames(mem, t) && Accessible(mem, t, va)
  {
    mem[PageOf(mem, t, va)][va % PGSIZE]
  }

  // The first n addresses from va on are accessible.
  ghost predicate AllAccessible(mem: Memory, t: Tree, va: nat, n: nat)
    requires Shaped(mem, t)
  {
    forall v: nat :: va <= v < va + n ==> Accessible(mem, t, v)
  }

  lemma SamePage(mem: Memory, t: Tree, va: nat, i: nat)
    requires Shaped(mem, t) && va % PGSIZE + i < PGSIZE
    ensures (va + i) / PGSIZE == va / PGSIZE && (va + i) % PGSIZE == va % PGSIZE + i
    ensures PageOf(mem, t, va + i) == PageOf(mem, t, va)
    ensures Accessible(mem, t, va + i) == Accessible(mem, t, va)
  {
  }

  // Every page that uvmalloc adds can be reached by these copies.
  lemma AllocAccessible(m0: Memory, t0: Tree, free0: set<nat>, mem: Memory, t: Tree, free: set<nat>, lo: nat, n: nat,
                        xperm: nat, contents: seq<Page>, va: nat)
    requires Shaped(m0, t0) && Shaped(mem, t) && MemOk(mem) && xperm in {0, 4, 8, 12} && va < MAXVA
    requires Grown(m0, t0, free0, mem, t, free, lo, Repeat<nat>(1 + 2 + 16 + xperm, n), contents)
    requires lo <= va / PGSIZE < lo + n
    ensures Accessible(mem, t, va)
  {
    hide Lookup, Shaped, Owned, Leaves, SamePages, Frame, Flags, IsLeaf, IsValid, IsUser;
    var e := Lookup(mem, t, va / PGSIZE);
    assert Flags(e) == 19 + xperm;
    BitsOfFlags(e);
  }

  lemma UserPage(mem: Memory, t: Tree, va: nat)
    requires Shaped(mem, t) && UserFrames(mem, t) && Accessible(mem, t, va)
    ensures PageOf(mem, t, va) in mem && PageOf(mem, t, va) != 0
  {
  }

  // The part of a range that lies in the page of its first address.
  lemma Chunk(mem: Memory, t: Tree, va: nat, n: nat)
    requires Shaped(mem, t) && UserFrames(mem, t) && Accessible(mem, t, va) && va % PGSIZE + n <= PGSIZE
    ensures AllAccessible(mem, t, va, n)
    ensures forall v: nat :: va <= v < va + n ==>
              PageOf(mem, t, v) == PageOf(mem, t, va) && v % PGSIZE == va % PGSIZE + v - va
    ensures forall v: nat :: va <= v < va + n ==>
              Accessible(mem, t, v) && ByteAt(mem, t, v) == mem[PageOf(mem, t, va)][va % PGSIZE + v - va]
  {
    forall v: nat | va <= v < va + n
      ensures Accessible(mem, t, v) && PageOf(mem, t, v) == PageOf(mem, t, va) && v % PGSIZE == va % PGSIZE + v - va
    {
      SamePage(mem, t, va, v - va);
    }
  }

  // n accessible bytes without a NUL.
  ghost predicate Text(mem: Memory, t: Tree, va: nat, n: nat) {
    && Shaped(mem, t) && UserFrames(mem, t)
    && forall v: nat :: va <= v < va + n ==> Accessible(mem, t, v) && ByteAt(mem, t, v) != 0
  }

  // The same, for its first m bytes, none of them NUL, and the one after them.
  lemma NoNul(mem: Memory, t: Tree, va: nat, n: nat, m: nat, pa: nat)
    requires Shaped(mem, t) && UserFrames(mem, t) && Accessible(mem, t, va) && va % PGSIZE + n <= PGSIZE && m <= n
    requires pa == PageOf(mem, t, va) && forall j :: va % PGSIZE <= j < va % PGSIZE + m ==> mem[pa][j] != 0
    ensures Text(mem, t, va, m) && (m < n ==> Accessible(mem, t, va + m))
    ensures forall v: nat :: va <= v < va + m ==> ByteAt(mem, t, v) == mem[pa][va % PGSIZE + v - va]
    ensures m < n ==> ByteAt(mem, t, va + m) == mem[pa][va % PGSIZE + m]
  {
    hide Lookup, Shaped, PageOf;
    Chunk(mem, t, va, n);
  }

  // walkaddr: the frame of an accessible address, 0 for any other.
  method WalkAddr(km: Kmem, root: nat, va: nat, ghost t: Tree) returns (pa: nat)
    requires Space(km, root, t)
    modifies km
    ensures Space(km, root, t) && km.mem == old(km.mem) && km.free == old(km.free)
    ensures pa == if Accessible(km.mem, t, va) then PageOf(km.mem, t, va) else 0
    ensures var e := Lookup(km.mem, t, va / 4096);
      pa == if va < 0x40_0000_0000 && e % 2 == 1 && e / 16 % 2 ==
        1 then e / 1024 * 4096 % 0x1_0000_0000_0000_0000 else 0
  {
    hide TreeOk, Shaped, MemOk, Lookup, Linked, Kalloc.Chain, Pte;
    if va >= MAXVA {
      return 0;
    }
    var w, _ := Walk(km, root, va, false, t);
    if w.NotThere? {
      return 0;
    }
    var pte := Pte(km.mem[w.page], w.index);
    if !IsValid(pte) {
      return 0;
    }
    if !IsUser(pte) {
      return 0;
    }
    return Frame(pte);
  }

  // ------------------------------------------------------------------ copyin

  // copyin: the bytes before the first inaccessible address, all of them if
  // there is none.
  method CopyIn(km: Kmem, root: nat, dst: array<Byte>, srcva: nat, len: nat, ghost t: Tree)
    returns (ok: bool, ghost k: nat)
    requires Space(km, root, t) && UserFrames(km.mem, t) && len <= dst.Length
    modifies km, dst
    ensures Space(km, root, t) && km.mem == old(km.mem)
    ensures k <= len && (ok <==> k == len) && AllAccessible(km.mem, t, srcva, k)
    ensures !ok ==> !Accessible(km.mem, t, srcva + k)
    ensures forall i: nat :: i < dst.Length ==> dst[i] == if i < k then ByteAt(km.mem, t, srcva + i) else old(dst[i])
  {
    hide TreeOk, Shaped, MemOk, Lookup, Kalloc.Chain, PageOf;
    var va, left, at := srcva, len, 0;
    k := 0;
    while left > 0
      invariant at == k <= len && k + left == len && (left > 0 ==> va == srcva + k)
      invariant Space(km, root, t) && km.mem == old(km.mem)
      invariant AllAccessible(km.mem, t, srcva, k)
      invariant forall i: nat :: i < dst.Length ==> dst[i] == if i < k then ByteAt(km.mem, t, srcva + i)
                else old(dst[i])
    {
      var va0 := RoundDown(va);
      SamePage(km.mem, t, va0, va - va0);
      var pa0 := WalkAddr(km, root, va0, t);
      if pa0 == 0 {
        return false, k;
      }
      var n := PGSIZE - (va - va0);
      if n > left {
        n := left;
      }
      Chunk(km.mem, t, va, n);
      MemMove(dst, at, km.mem[pa0], va - va0, n);
      k := k + n;
      left, at, va := left - n, at + n, va0 + PGSIZE;
    }
    return true, k;
  }

  // memmove of n bytes of a page into a kernel buffer.
  method MemMove(dst: array<Byte>, at: nat, src: Page, off: nat, n: nat)
    requires at + n <= dst.Length && off + n <= PGSIZE
    modifies dst
    ensures forall i: nat :: i < dst.Length ==> dst[i] == if at <= i < at + n then src[off + i - at] else old(dst[i])
  {
    forall i | 0 <= i < n {
      dst[at + i] := src[off + i];
    }
  }

  // --------------------------------------------------------------- copyinstr

  // copyinstr: the bytes up to the first NUL, with it; false if an
  // inaccessible address, or the limit, comes first.
  method CopyInStr(km: Kmem, root: nat, dst: array<Byte>, srcva: nat, max: nat, ghost t: Tree)
    returns (ok: bool, ghost k: nat)
    requires Space(km, root, t) && UserFrames(km.mem, t) && max <= dst.Length
    modifies km, dst
    ensures Space(km, root, t) && km.mem == old(km.mem)
    ensures k <= max && Text(km.mem, t, srcva, k)
    ensures ok ==> k < max && Accessible(km.mem, t, srcva + k) && ByteAt(km.mem, t, srcva + k) == 0
    ensures !ok ==> k == max || !Accessible(km.mem, t, srcva + k)
    ensures forall i: nat :: i < dst.Length ==>
              dst[i] == if i < k then ByteAt(km.mem, t, srcva + i) else if ok && i == k then 0 else old(dst[i])
  {
    hide TreeOk, Shaped, MemOk, Lookup, Kalloc.Chain, PageOf, Frame, IsValid, IsUser, ByteAt, UserFrames, Accessible;
    var va, left, at := srcva, max, 0;
    k := 0;
    while left > 0
      invariant at == k <= max && k + left == max && (left > 0 ==> va == srcva + k)
      invariant Space(km, root, t) && km.mem == old(km.mem)
      invariant Text(km.mem, t, srcva, k)
      invariant forall i: nat :: i < dst.Length ==> dst[i] == if i < k then ByteAt(km.mem, t, srcva + i)
                else old(dst[i])
    {
      var va0 := RoundDown(va);
      SamePage(km.mem, t, va0, va - va0);
      var pa0 := WalkAddr(km, root, va0, t);
      if Accessible(km.mem, t, va0) {
        UserPage(km.mem, t, va0);
      }
      if pa0 == 0 {
        return false, k;
      }
      var n := PGSIZE - (va - va0);
      if n > left {
        n := left;
      }
      var nul, m := CopyUpToNul(dst, at, km.mem[pa0], va - va0, n);
      NoNul(km.mem, t, va, n, m, pa0);
      k := k + m;
      if nul {
        assert Accessible(km.mem, t, srcva + k) && ByteAt(km.mem, t, srcva + k) == 0;
        return true, k;
      }
      left, at := left - m, at + m;
      va := va0 + PGSIZE;
    }
    return false, k;
  }

  // The inner loop: n bytes of a page at most, through the first NUL.
  method CopyUpToNul(dst: array<Byte>, at: nat, src: Page, off: nat, n: nat) returns (nul: bool, m: nat)
    requires at + n <= dst.Length && off + n <= PGSIZE
    modifies dst
    ensures m <= n && (if nul then m < n && src[off + m] == 0 else m == n)
    ensures forall j :: off <= j < off + m ==> src[j] != 0
    ensures forall i: nat :: i < dst.Length ==>
              dst[i] == if at <= i < at + m then src[off + i - at] else if nul && i == at + m then 0 else old(dst[i])
  {
    m := 0;
    while m < n
      invariant m <= n && forall j :: off <= j < off + m ==> src[j] != 0
      invariant forall i: nat :: i < dst.Length ==> dst[i] == if at <= i < at + m then src[off + i - at]
                else old(dst[i])
    {
      if src[off + m] == 0 {
        dst[at + m] := 0;
        return true, m;
      } else {
        dst[at + m] := src[off + m];
      }
      m := m + 1;
    }
    return false, m;
  }

  // ----------------------------------------------------------------- copyout

  // Bytes written one at a time through the translation that mem0 gives.
  ghost function WriteBytes(mem0: Memory, t: Tree, mem: Memory, va: nat, src: seq<Byte>): (r: Memory)
    requires Shaped(mem0, t) && UserFrames(mem0, t) && mem.Keys == mem0.Keys && AllAccessible(mem0, t, va, |src|)
    ensures r.Keys == mem.Keys
    decreases src
  {
    if src == [] then mem
    else
      assert Accessible(mem0, t, va);
      var p := PageOf(mem0, t, va);
      WriteBytes(mem0, t, mem[p := mem[p][va % PGSIZE := src[0]]], va + 1, src[1..])
  }

  lemma {:induction false} WriteAppend(mem0: Memory, t: Tree, mem: Memory, va: nat, a: seq<Byte>, b: seq<Byte>)
    requires Shaped(mem0, t) && UserFrames(mem0, t) && mem.Keys == mem0.Keys && AllAccessible(mem0, t, va, |a| + |b|)
    ensures WriteBytes(mem0, t, mem, va, a + b) ==
            WriteBytes(mem0, t, WriteBytes(mem0, t, mem, va, a), va + |a|, b)
    decreases a
  {
    hide Lookup, Shaped, TreeOk, PageOf;
    if a == [] {
      assert a + b == b;
    } else {
      assert Accessible(mem0, t, va);
      var p := PageOf(mem0, t, va);
      assert (a + b)[1..] == a[1..] + b;
      WriteAppend(mem0, t, mem[p := mem[p][va % PGSIZE := a[0]]], va + 1, a[1..], b);
    }
  }

  // Inside one page, the bytes written are one memmove.
  lemma {:induction false} WriteChunk(mem0: Memory, t: Tree, mem: Memory, va: nat, s: seq<Byte>)
    requires Shaped(mem0, t) && UserFrames(mem0, t) && mem.Keys == mem0.Keys
    requires Accessible(mem0, t, va) && va % PGSIZE + |s| <= PGSIZE && AllAccessible(mem0, t, va, |s|)
    ensures var p := PageOf(mem0, t, va);
            WriteBytes(mem0, t, mem, va, s) == mem[p := Splice(mem[p], va % PGSIZE, s)]
    decreases s
  {
    hide Lookup, Shaped, TreeOk;
    var p := PageOf(mem0, t, va);
    if s == [] {
      assert Splice(mem[p], va % PGSIZE, s) == mem[p];
    } else {
      var page' := mem[p][va % PGSIZE := s[0]];
      if |s| > 1 {
        SamePage(mem0, t, va, 1);
        WriteChunk(mem0, t, mem[p := page'], va + 1, s[1..]);
        assert Splice(page', va % PGSIZE + 1, s[1..]) == Splice(mem[p], va % PGSIZE, s);
      } else {
        assert s[1..] == [];
        assert page' == Splice(mem[p], va % PGSIZE, s);
      }
    }
  }

  lemma WriteNothing(mem0: Memory, t: Tree, va: nat, src: seq<Byte>)
    requires Shaped(mem0, t) && UserFrames(mem0, t)
    ensures WriteBytes(mem0, t, mem0, va, src[..0]) == mem0
  {
  }

  // The bytes from k on that fit in the page of their first address.
  lemma WriteMore(mem0: Memory, t: Tree, va: nat, src: seq<Byte>, k: nat, n: nat)
    requires Shaped(mem0, t) && UserFrames(mem0, t) && k + n <= |src| && AllAccessible(mem0, t, va, k)
    requires Accessible(mem0, t, va + k) && (va + k) % PGSIZE + n <= PGSIZE
    ensures AllAccessible(mem0, t, va, k + n)
    ensures PageOf(mem0, t, va + k) in mem0 && PageOf(mem0, t, va + k) !in Tables(t)
    ensures var mem, p := WriteBytes(mem0, t, mem0, va, src[..k]), PageOf(mem0, t, va + k);
            WriteBytes(mem0, t, mem0, va, src[..k + n]) == mem[p := Splice(mem[p], (va + k) % PGSIZE, src[k..k + n])]
  {
    hide Lookup, Shaped, TreeOk, PageOf, WriteBytes;
    Chunk(mem0, t, va + k, n);
    assert src[..k] + src[k..k + n] == src[..k + n];
    WriteAppend(mem0, t, mem0, va, src[..k], src[k..k + n]);
    WriteChunk(mem0, t, WriteBytes(mem0, t, mem0, va, src[..k]), va + k, src[k..k + n]);
  }

  // copyout: the bytes before the first inaccessible address are written, one
  // by one.
  method CopyOut(km: Kmem, root: nat, dstva: nat, src: seq<Byte>, ghost t: Tree) returns (ok: bool, ghost k: nat)
    requires Space(km, root, t) && UserFrames(km.mem, t)
    requires forall va: nat {:trigger Accessible(km.mem, t, va)} ::
               Accessible(km.mem, t, va) ==> PageOf(km.mem, t, va) !in km.free
    modifies km
    ensures Space(km, root, t) && km.free == old(km.free)
    ensures forall v: nat :: Lookup(km.mem, t, v) == old(Lookup(km.mem, t, v))
    ensures k <= |src| && (ok <==> k == |src|) && old(AllAccessible(km.mem, t, dstva, k))
    ensures !ok ==> !old(Accessible(km.mem, t, dstva + k))
    ensures km.mem == WriteBytes(old(km.mem), t, old(km.mem), dstva, src[..k])
  {
    hide TreeOk, Shaped, MemOk, Lookup, Kalloc.Chain, WriteBytes, UserFrames;
    ghost var m0 := km.mem;
    WriteNothing(m0, t, dstva, src);
    var va, left, at := dstva, |src|, 0;
    k := 0;
    while left > 0
      invariant at == k <= |src| && k + left == |src| && (left > 0 ==> va == dstva + k)
      invariant Space(km, root, t) && km.free == old(km.free)
      invariant forall v: nat :: Lookup(km.mem, t, v) == Lookup(m0, t, v)
      invariant AllAccessible(m0, t, dstva, k)
      invariant km.mem == WriteBytes(m0, t, m0, dstva, src[..k])
    {
      var va0 := RoundDown(va);
      SamePage(m0, t, va0, va - va0);
      SameAccess(m0, km.mem, t, va0);
      var pa0 := WalkAddr(km, root, va0, t);
      if pa0 == 0 {
        return false, k;
      }
      var n := PGSIZE - (va - va0);
      if n > left {
        n := left;
      }
      WriteMore(m0, t, dstva, src, k, n);
      PutBytes(km, root, pa0, va - va0, src[at..at + n], t);
      k := k + n;
      left, at, va := left - n, at + n, va0 + PGSIZE;
    }
    return true, k;
  }

  lemma SameAccess(mem: Memory, mem': Memory, t: Tree, va: nat)
    requires Shaped(mem, t) && Shaped(mem', t) && forall v: nat :: Lookup(mem', t, v) == Lookup(mem, t, v)
    ensures Accessible(mem', t, va) == Accessible(mem, t, va) && PageOf(mem', t, va) == PageOf(mem, t, va)
  {
  }

  // memmove into a user page.
  method PutBytes(km: Kmem, root: nat, pa: nat, off: nat, s: seq<Byte>, ghost t: Tree)
    requires Space(km, root, t) && pa in km.mem && pa !in Tables(t) && pa !in km.free && off + |s| <= PGSIZE
    modifies km
    ensures Space(km, root, t) && km.free == old(km.free)
    ensures km.mem == old(km.mem)[pa := Splice(old(km.mem)[pa], off, s)]
    ensures forall v: nat :: Lookup(km.mem, t, v) == old(Lookup(km.mem, t, v))
  {
    hide Kalloc.Chain;
    km.Store(pa, Splice(km.mem[pa], off, s));
    UntouchedTables(old(km.mem), km.mem, t);
  }

  // Writing elsewhere keeps a byte.
  lemma {:induction false} WriteKeeps(mem0: Memory, t: Tree, mem: Memory, va: nat, s: seq<Byte>, p: nat, o: nat)
    requires Shaped(mem0, t) && UserFrames(mem0, t) && mem.Keys == mem0.Keys && AllAccessible(mem0, t, va, |s|)
    requires p in mem && o < PGSIZE
    requires forall v: nat :: va <= v < va + |s| ==> PageOf(mem0, t, v) != p || v % PGSIZE != o
    ensures WriteBytes(mem0, t, mem, va, s)[p][o] == mem[p][o]
    decreases s
  {
    if s != [] {
      assert Accessible(mem0, t, va);
      var q := PageOf(mem0, t, va);
      WriteKeeps(mem0, t, mem[q := mem[q][va % PGSIZE := s[0]]], va + 1, s[1..], p, o);
    }
  }

  // What copyout wrote is what copyin reads, if no two pages share a frame.
  lemma {:induction false} ReadBack(mem0: Memory, t: Tree, mem: Memory, va: nat, s: seq<Byte>, i: nat)
    requires Shaped(mem0, t) && UserFrames(mem0, t) && mem.Keys == mem0.Keys && AllAccessible(mem0, t, va, |s|)
    requires forall u: nat, v: nat :: va <= u < v < va + |s| && u / PGSIZE != v / PGSIZE ==>
               PageOf(mem0, t, u) != PageOf(mem0, t, v)
    requires i < |s|
    ensures PageOf(mem0, t, va + i) in mem
    ensures WriteBytes(mem0, t, mem, va, s)[PageOf(mem0, t, va + i)][(va + i) % PGSIZE] == s[i]
    decreases s
  {
    hide Lookup, Shaped, TreeOk;
    assert Accessible(mem0, t, va) && Accessible(mem0, t, va + i);
    var q := PageOf(mem0, t, va);
    var mem' := mem[q := mem[q][va % PGSIZE := s[0]]];
    if i == 0 {
      forall v: nat | va + 1 <= v < va + |s| ensures PageOf(mem0, t, v) != q || v % PGSIZE != va % PGSIZE {
        if v / PGSIZE == va / PGSIZE {
          assert v == v / PGSIZE * PGSIZE + v % PGSIZE && va == va / PGSIZE * PGSIZE + va % PGSIZE;
        }
      }
      WriteKeeps(mem0, t, mem', va + 1, s[1..], q, va % PGSIZE);
    } else {
      ReadBack(mem0, t, mem', va + 1, s[1..], i - 1);
    }
  }

  // ------------------------------------------------------- write permission

  predicate IsWritable(pte: nat) { pte / PTE_W % 2 == 1 }

  // The user may write to va.
  ghost predicate UserWritable(mem: Memory, t: Tree, va: nat)
    requires Shaped(mem, t)
  {
    Accessible(mem, t, va) && IsWritable(Lookup(mem, t, va / PGSIZE))
  }

  // No frame serves two user pages.
  ghost predicate Unshared(mem: Memory, t: Tree)
    requires Shaped(mem, t)
  {
    forall u: nat, v: nat ::
      Accessible(mem, t, u) && Accessible(mem, t, v) && PageOf(mem, t, u) == PageOf(mem, t, v) ==>
        u / PGSIZE == v / PGSIZE
  }

  // Every page that differs is one the user may write to.
  ghost predicate OnlyWritable(mem: Memory, t: Tree, mem': Memory)
    requires Shaped(mem, t) && mem'.Keys == mem.Keys
  {
    forall p :: p in mem && mem'[p] != mem[p] ==> exists v: nat :: UserWritable(mem, t, v) && PageOf(mem, t, v) == p
  }

  // copyout changes only pages the user may write to, whatever the bytes, if
  // and only if the entry of every page it writes to has PTE_W.
  lemma WritesOnlyWritableIff(mem: Memory, t: Tree, va: nat, n: nat)
    requires Shaped(mem, t) && UserFrames(mem, t) && AllAccessible(mem, t, va, n) && Unshared(mem, t)
    ensures (forall s: seq<Byte> :: |s| == n ==> OnlyWritable(mem, t, WriteBytes(mem, t, mem, va, s)))
            <==> forall v: nat :: va <= v < va + n ==> UserWritable(mem, t, v)
  {
    hide Lookup, Shaped, WriteBytes, UserFrames, Accessible, PageOf, IsWritable;
    if v: nat :| va <= v < va + n && !UserWritable(mem, t, v) {
      var s := ChangesByte(mem, t, va, n, v - va);
      assert Accessible(mem, t, v);
      assert !OnlyWritable(mem, t, WriteBytes(mem, t, mem, va, s)) by {
        NotWritable(mem, t, v);
      }
    } else {
      forall s: seq<Byte> | |s| == n ensures OnlyWritable(mem, t, WriteBytes(mem, t, mem, va, s)) {
        WritesThere(mem, t, va, s);
      }
    }
  }

  // No writable page shares the frame of one that is not.
  lemma NotWritable(mem: Memory, t: Tree, v: nat)
    requires Shaped(mem, t) && Unshared(mem, t) && Accessible(mem, t, v) && !UserWritable(mem, t, v)
    ensures forall w: nat :: UserWritable(mem, t, w) ==> PageOf(mem, t, w) != PageOf(mem, t, v)
  {
    hide Lookup, Shaped, IsWritable, PageOf;
  }

  // Bytes that change the page of the i-th address.
  lemma ChangesByte(mem: Memory, t: Tree, va: nat, n: nat, i: nat) returns (s: seq<Byte>)
    requires Shaped(mem, t) && UserFrames(mem, t) && AllAccessible(mem, t, va, n) && Unshared(mem, t) && i < n
    ensures |s| == n && PageOf(mem, t, va + i) in mem
    ensures WriteBytes(mem, t, mem, va, s)[PageOf(mem, t, va + i)] != mem[PageOf(mem, t, va + i)]
  {
    hide Lookup, Shaped, WriteBytes;
    assert Accessible(mem, t, va + i);
    var p, o := PageOf(mem, t, va + i), (va + i) % PGSIZE;
    s := Zeros(n)[i := if mem[p][o] == 0 then 1 else 0];
    forall u: nat, v: nat | va <= u < v < va + n && u / PGSIZE != v / PGSIZE
      ensures PageOf(mem, t, u) != PageOf(mem, t, v)
    {
      assert Accessible(mem, t, u) && Accessible(mem, t, v);
    }
    ReadBack(mem, t, mem, va, s, i);
  }

  // A page that differs is the page of one of the addresses written.
  lemma WritesThere(mem: Memory, t: Tree, va: nat, s: seq<Byte>)
    requires Shaped(mem, t) && UserFrames(mem, t) && AllAccessible(mem, t, va, |s|)
    requires forall v: nat :: va <= v < va + |s| ==> UserWritable(mem, t, v)
    ensures OnlyWritable(mem, t, WriteBytes(mem, t, mem, va, s))
  {
    hide Lookup, Shaped, WriteBytes, UserWritable, PageOf, UserFrames;
    var mem' := WriteBytes(mem, t, mem, va, s);
    forall p | p in mem && mem'[p] != mem[p] ensures exists v: nat ::
        UserWritable(mem, t, v) && PageOf(mem, t, v) == p {
      if forall v: nat :: va <= v < va + |s| ==> PageOf(mem, t, v) != p {
        forall o: nat | o < PGSIZE ensures mem'[p][o] == mem[p][o] {
          WriteKeeps(mem, t, mem, va, s, p, o);
        }
        SameBytes(mem'[p], mem[p]);
        assert false;
      }
    }
  }

  lemma SameBytes(a: Page, b: Page)
    requires forall o: nat :: o < PGSIZE ==> a[o] == b[o]
    ensures a == b
  {
  }

  // The three tables of an empty address space in zeroed memory.
  lemma ThreeTables(m0: Memory, p0: nat, p1: nat, p2: nat, p3: nat) returns (mem: Memory, t: Tree)
    requires MemOk(m0) && p0 in m0 && p1 in m0 && p2 in m0 && p3 in m0
    requires p0 < p1 < p2 < p3 && forall p :: p in m0 ==> m0[p] == Zeros(PGSIZE)
    ensures TreeOk(mem, t) && Shaped(mem, t) && Key(0, 0) in t && p3 in mem && p3 !in Tables(t)
    ensures mem[p3] == Zeros(PGSIZE) && forall v: nat :: Lookup(mem, t, v) == 0
  {
    hide TreeOk, Lookup, Linked, Shaped;
    var t0: Tree := map[ROOT := p0];
    NewTree(m0, p0);
    var m1, t1 := MoreTable(m0, t0, ROOT, 0, p1);
    assert t1 == map[ROOT := p0, Key(1, 0) := p1];
    mem, t := MoreTable(m1, t1, Key(1, 0), 0, p2);
    assert t == map[ROOT := p0, Key(1, 0) := p1, Key(0, 0) := p2];
  }

  // An address space with one page, that the user may only read.
  lemma ReadOnlySpace(p3: nat) returns (mem: Memory, t: Tree)
    requires p3 == KERNBASE + 3 * PGSIZE
    ensures TreeOk(mem, t) && Shaped(mem, t) && p3 in mem && mem[p3] == Zeros(PGSIZE) && p3 !in Tables(t)
    ensures forall v: nat :: Lookup(mem, t, v) == if v == 0 then Sv39.Entry(p3, PTE_V + PTE_R + PTE_U) else 0
  {
    hide TreeOk, Lookup, Linked, Sv39.Entry, Pte, SetPte, Shaped;
    var e := Sv39.Entry(p3, PTE_V + PTE_R + PTE_U);
    FrameOfEntry(p3, PTE_V + PTE_R + PTE_U);
    var p0, p1, p2 := KERNBASE, KERNBASE + PGSIZE, KERNBASE + 2 * PGSIZE;
    var m0: Memory := map[p0 := Zeros(PGSIZE), p1 := Zeros(PGSIZE), p2 := Zeros(PGSIZE), p3 := Zeros(PGSIZE)];
    var m2, t2 := ThreeTables(m0, p0, p1, p2, p3);
    SetLeaf(m2, t2, 0, e);
    ShapedTree(m2, t2);
    assert t2[Key(0, 0)] in Tables(t2);
    mem, t := WithLeaf(m2, t2, 0, e), t2;
    ShapedTree(mem, t);
    forall v: nat ensures Lookup(mem, t, v) == if v == 0 then e else 0 {
      assert Lookup(m2, t2, v) == 0;
    }
  }

  lemma MoreTable(mem: Memory, t: Tree, k: Key, i: nat, pa: nat) returns (mem': Memory, t': Tree)
    requires Hookable(mem, t, k, i, pa) && Shaped(mem, t) && forall v: nat :: Lookup(mem, t, v) == 0
    ensures TreeOk(mem', t') && Shaped(mem', t') && t' == t[Child(k, i) := pa] && mem'.Keys == mem.Keys
    ensures forall p :: p in mem && p != pa && p != t[k] ==> mem'[p] == mem[p]
    ensures forall v: nat :: Lookup(mem', t', v) == 0
  {
    hide TreeOk, Lookup, Linked, Sv39.Entry, Pte, SetPte;
    AddTable(mem, t, k, i, pa);
    mem', t' := Hook(mem, t, k, i, pa), t[Child(k, i) := pa];
    ShapedTree(mem', t');
    forall v: nat ensures Lookup(mem', t', v) == 0 {
      assert Lookup(mem, t, v) == 0;
    }
  }

  // copyout writes to it.
  lemma WritesReadOnly() returns (mem: Memory, t: Tree)
    ensures TreeOk(mem, t) && Shaped(mem, t) && UserFrames(mem, t) && AllAccessible(mem, t, 0, 1)
    ensures Flags(Lookup(mem, t, 0)) == PTE_V + PTE_R + PTE_U && !UserWritable(mem, t, 0)
    ensures ByteAt(mem, t, 0) == 0 && WriteBytes(mem, t, mem, 0, [1])[PageOf(mem, t, 0)][0] == 1
  {
    hide TreeOk, Lookup, Shaped, Sv39.Entry, Tables, Frame, IsValid, IsUser, Flags, IsWritable;
    var p3 := KERNBASE + 3 * PGSIZE;
    var e := Sv39.Entry(p3, PTE_V + PTE_R + PTE_U);
    mem, t := ReadOnlySpace(p3);
    EntryFacts(p3);
    forall va: nat | Accessible(mem, t, va) ensures PageOf(mem, t, va) == p3 {
    }
    assert Accessible(mem, t, 0) && PageOf(mem, t, 0) == p3;
    assert [1][1..] == [];
  }

  lemma EntryFacts(pa: nat)
    requires pa % PGSIZE == 0 && pa < LONG
    ensures var e := Sv39.Entry(pa, PTE_V + PTE_R + PTE_U);
      Frame(e) == pa && Flags(e) == PTE_V + PTE_R + PTE_U && IsValid(e) && IsUser(e) && !IsWritable(e) && !IsValid(0)
  {
    FrameOfEntry(pa, PTE_V + PTE_R + PTE_U);
    NoWriteBit(pa);
  }

  lemma NoWriteBit(pa: nat)
    ensures !IsWritable(Sv39.Entry(pa, PTE_V + PTE_R + PTE_U))
  {
    assert (pa / PGSIZE * 1024 + 19) / 4 == pa / PGSIZE * 256 + 4;
    EvenPlus(pa / PGSIZE * 128, 4);
  }

  lemma ShapedTree(mem: Memory, t: Tree)
    requires TreeOk(mem, t)
    ensures Shaped(mem, t)
  {
  }
}

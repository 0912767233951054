// User virtual memory (vm.c).  Every routine works in place on the pages of
// the allocator; the ghost tree names the table pages of the address space.
module Vm {
  import opened Bytes
  import opened Sv39
  import opened Kalloc

  // The tables of a well-formed tree are in use.
  ghost predicate Space(km: Kmem, root: nat, t: Tree)
    reads km
  {
    && km.Valid() && Shaped(km.mem, t) && TreeOk(km.mem, t) && ROOT in t && t[ROOT] == root
    && (forall p :: p in Tables(t) ==> p !in km.free)
  }

  // The last page number of a range, in 64-bit arithmetic.
  function LastPage(va: nat, size: nat): nat
    requires size > 0
  {
    (va + size - 1) % LONG / PGSIZE
  }

  // The page at p still holds what it held, unless it was free or a table.
  ghost predicate SamePages(mem: Memory, mem': Memory, changed: set<nat>) {
    mem.Keys == mem'.Keys && forall p :: p in mem && p !in changed ==> mem'[p] == mem[p]
  }

  // ------------------------------------------------------------------ walk

  datatype Walked = Panic | NotThere | At(page: nat, index: nat)

  // walk: the place of the entry for va.  With alloc, missing tables are
  // taken from the allocator and hooked in.
  method Walk(km: Kmem, root: nat, va: nat, alloc: bool, ghost t: Tree) returns (r: Walked, ghost t': Tree)
    requires Space(km, root, t)
    modifies km
    ensures Space(km, root, t')
    ensures r.Panic? <==> va >= 0x40_0000_0000
    ensures |km.free| + 2 >= |old(km.free)| && (r.NotThere? && alloc ==> |old(km.free)| <= 1)
    ensures r.At? ==> Key(0, va / PGSIZE / NPTE) in t' && r == At(t'[Key(0, va / PGSIZE / NPTE)], va / PGSIZE % NPTE)
    ensures r.NotThere? ==> Key(0, va / PGSIZE / NPTE) !in t' && (alloc ==> km.free == [])
    ensures r.At? ==>
              r.page in km.mem && r.index < NPTE && Pte(km.mem[r.page], r.index) == Lookup(km.mem, t', va / PGSIZE)
    ensures r.NotThere? ==> Lookup(km.mem, t', va / PGSIZE) == 0
    ensures !alloc ==> t' == t && km.mem == old(km.mem) && km.free == old(km.free) && km.freelist == old(km.freelist)
    ensures forall v: nat :: Lookup(km.mem, t', v) == old(Lookup(km.mem, t, v))
    ensures km.Free() + Tables(t') == old(km.Free()) + Tables(t) && km.Free() <= old(km.Free())
    ensures SamePages(old(km.mem), km.mem, old(km.Free()) + Tables(t))
  {
    hide TreeOk, Shaped, MemOk, Lookup, Linked, Kalloc.Chain, SamePages, Entry, Frame, IsValid;
    t' := t;
    NoChange(km.mem);
    if va >= MAXVA {
      return Panic, t';
    }
    var pagetable := root;
    var level := 2;
    while level > 0
      invariant 0 <= level <= 2
      invariant Space(km, root, t') && |km.free| + 2 - level >= |old(km.free)|
      invariant Key(level, Prefix(level, va / PGSIZE)) in t' && pagetable == t'[Key(level, Prefix(level, va / PGSIZE))]
      invariant !alloc ==>
                  t' == t && km.mem == old(km.mem) && km.free == old(km.free) && km.freelist == old(km.freelist)
      invariant forall v: nat :: Lookup(km.mem, t', v) == old(Lookup(km.mem, t, v))
      invariant km.Free() + Tables(t') == old(km.Free()) + Tables(t) && km.Free() <= old(km.Free())
      invariant SamePages(old(km.mem), km.mem, old(km.Free()) + Tables(t))
    {
      ghost var k := Key(level, Prefix(level, va / PGSIZE));
      PrefixStep(va, level);
      var i := PX(level, va);
      StepDown(km.mem, t', k, i);
      var pte := Pte(km.mem[pagetable], i);
      if IsValid(pte) {
        pagetable := Frame(pte);
      } else {
        if !alloc {
          NoLeafTable(km.mem, t', k, i, va / PGSIZE);
          LookupAt(km.mem, t', va / PGSIZE);
          return NotThere, t';
        }
        ghost var mem, changed := km.mem, km.Free() + Tables(t');
        var newtab := Grow(km, root, pagetable, i, k, t');
        SameSteps(old(km.mem), mem, km.mem, old(km.Free()) + Tables(t), changed);
        if newtab == 0 {
          NoLeafTable(km.mem, t', k, i, va / PGSIZE);
          LookupAt(km.mem, t', va / PGSIZE);
          return NotThere, t';
        }
        t' := t'[Child(k, i) := newtab];
        pagetable := newtab;
      }
      level := level - 1;
    }
    PrefixStep(va, 1);
    LookupAt(km.mem, t', va / PGSIZE);
    return At(pagetable, PX(0, va)), t';
  }

  // A valid entry of a table above the last level leads to the child table.
  lemma StepDown(mem: Memory, t: Tree, k: Key, i: nat)
    requires TreeOk(mem, t) && k in t && k.level > 0 && i < NPTE
    ensures t[k] in mem
    ensures var pte := Pte(mem[t[k]], i);
            if Child(k, i) in t then IsValid(pte) && Frame(pte) == t[Child(k, i)] else !IsValid(pte)
  {
    assert Linked(mem, t, k, i);
    if Child(k, i) in t {
      FrameOfEntry(t[Child(k, i)], PTE_V);
    }
  }

  lemma SameSteps(mem: Memory, mem': Memory, mem'': Memory, changed: set<nat>, changed': set<nat>)
    requires SamePages(mem, mem', changed) && SamePages(mem', mem'', changed') && changed' <= changed
    ensures SamePages(mem, mem'', changed)
  {
  }

  lemma LookupAt(mem: Memory, t: Tree, vpn: nat)
    requires Shaped(mem, t)
    ensures var k := Key(0, vpn / NPTE);
            if k in t then t[k] in mem && Pte(mem[t[k]], vpn % NPTE) == Lookup(mem, t, vpn)
              else Lookup(mem, t, vpn) == 0
  {
  }

  lemma NoChange(mem: Memory)
    ensures forall s :: SamePages(mem, mem, s)
  {
  }

  // Without the table on the path, the last-level table is missing too.
  lemma NoLeafTable(mem: Memory, t: Tree, k: Key, i: nat, vpn: nat)
    requires TreeOk(mem, t) && k in t && k.level > 0 && i < NPTE && Child(k, i) !in t
    requires Child(k, i) == Key(k.level - 1, Prefix(k.level - 1, vpn))
    ensures Key(0, vpn / NPTE) !in t
  {
  }

  // The allocating step of walk: a zeroed page hooked into entry i of a table;
  // 0 when no page is free.
  method Grow(km: Kmem, root: nat, pagetable: nat, i: nat, ghost k: Key, ghost t: Tree) returns (pa: nat)
    requires Space(km, root, t) && k in t && pagetable == t[k] && k.level > 0 && i < NPTE
    requires GoodKey(Child(k, i)) && Child(k, i) !in t
    modifies km
    ensures km.Valid() && |km.free| + 1 >= |old(km.free)|
    ensures pa == 0 ==> km.free == old(km.free) == [] && km.Free() == old(km.Free())
    ensures pa == 0 ==> Space(km, root, t) && km.mem == old(km.mem)
    ensures pa != 0 ==> var t' := t[Child(k, i) := pa];
                        && Space(km, root, t')
                        && (forall v: nat :: Lookup(km.mem, t', v) == old(Lookup(km.mem, t, v)))
                        && km.Free() + Tables(t') == old(km.Free()) + Tables(t) && km.Free() <= old(km.Free())
    ensures SamePages(old(km.mem), km.mem, old(km.Free()) + Tables(t))
  {
    hide Shaped, TreeOk, Lookup, Linked, Kalloc.Chain, Entry, SetPte, Hookable;
    assert pagetable in Tables(t) && pagetable in km.mem by { StepDown(km.mem, t, k, i); }
    pa := km.Kalloc();
    if pa != 0 {
      ghost var before := km.mem;
      km.Store(pa, Filled(0));
      km.Store(pagetable, SetPte(km.mem[pagetable], i, Entry(pa, PTE_V)));
      GrowTree(old(km.mem), before, t, k, i, pa);
      assert Filled(0) == Zeros(PGSIZE);
      assert km.mem == Hook(before, t, k, i, pa);
      TablesGrow(t, Child(k, i), pa);
      assert old(km.Free()) == km.Free() + {pa};
    }
  }

  lemma GrowTree(mem: Memory, mem': Memory, t: Tree, k: Key, i: nat, pa: nat)
    requires TreeOk(mem, t) && k in t && k.level > 0 && i < NPTE && GoodKey(Child(k, i)) && Child(k, i) !in t
    requires pa in mem && pa !in Tables(t) && mem'.Keys == mem.Keys && forall p :: p in mem && p != pa ==>
               mem'[p] == mem[p]
    ensures t[k] in mem'
    ensures TreeOk(Hook(mem', t, k, i, pa), t[Child(k, i) := pa])
    ensures Shaped(Hook(mem', t, k, i, pa), t[Child(k, i) := pa])
    ensures forall v: nat ::
              Shaped(mem, t) && Lookup(Hook(mem', t, k, i, pa), t[Child(k, i) := pa], v) == Lookup(mem, t, v)
  {
    UntouchedTables(mem, mem', t);
    AddTable(mem', t, k, i, pa);
  }

  lemma TablesGrow(t: Tree, k: Key, pa: nat)
    requires k !in t
    ensures Tables(t[k := pa]) == Tables(t) + {pa}
  {
    var t' := t[k := pa];
    forall p | p in Tables(t) + {pa} ensures p in Tables(t') {
      if p in Tables(t) {
        var j :| j in t && t[j] == p;
        assert t'[j] == p;
      } else {
        assert t'[k] == p;
      }
    }
  }

  // -------------------------------------------------------------- mappages

  datatype Mapped = Halt | NoMemory | Done

  // The entries after the k pages from first on are mapped to frames from pa on.
  ghost predicate MapsFrom(mem: Memory, t: Tree, mem': Memory, t': Tree, first: nat, k: nat, pa: nat, flags: nat)
    requires Shaped(mem, t) && Shaped(mem', t')
  {
    forall v: nat :: Lookup(mem', t', v) ==
                if first <= v < first + k then Entry(pa + (v - first) * PGSIZE, flags) else Lookup(mem, t, v)
  }

  // mappages: on Done exactly its range is added; on NoMemory exactly the
  // first k pages of it; a page already mapped, or beyond MAXVA, halts.
  method MapPages(km: Kmem, root: nat, va: nat, size: nat, pa: nat, perm: nat, ghost t: Tree)
    returns (r: Mapped, ghost t': Tree, ghost k: nat)
    requires Space(km, root, t) && va < LONG && size < LONG && perm < 1024
    requires pa + MAXVA < 0x100_0000_0000_0000 // physical addresses have 56 bits
    modifies km
    ensures Space(km, root, t')
    ensures size > 0 ==> MapsFrom(old(km.mem), t, km.mem, t', va / PGSIZE, k, pa / PGSIZE * PGSIZE, WithV(perm))
    ensures forall v: nat :: va / PGSIZE <= v < va / PGSIZE + k ==> !IsValid(old(Lookup(km.mem, t, v)))
    ensures r.Halt? ==>
              size == 0 || (va / PGSIZE + k) * PGSIZE >= MAXVA || IsValid(old(Lookup(km.mem, t, va / PGSIZE + k)))
    ensures r.NoMemory? ==> |old(km.free)| <= 2 * k + 1
    ensures |km.free| + 2 * k + 2 >= |old(km.free)| && (r.Done? ==> |km.free| + 2 * k >= |old(km.free)|)
    ensures r.NoMemory? ==> km.free == [] && (va / PGSIZE + k) * PGSIZE < MAXVA
    ensures r.NoMemory? ==> !IsValid(old(Lookup(km.mem, t, va / PGSIZE + k)))
    ensures size > 0 && !r.Done? ==> !(va / PGSIZE <= LastPage(va, size) < va / PGSIZE + k)
    ensures r.Done? ==> size > 0 && k > 0 && va / PGSIZE + k - 1 == LastPage(va, size)
    ensures km.Free() + Tables(t') == old(km.Free()) + Tables(t) && km.Free() <= old(km.Free())
    ensures SamePages(old(km.mem), km.mem, old(km.Free()) + Tables(t))
  {
    hide TreeOk, Shaped, MemOk, Lookup, Linked, Kalloc.Chain, SamePages, Entry, Pte, MapsFrom;
    t', k := t, 0;
    NoChange(km.mem);
    MapNothing(km.mem, t, va / PGSIZE, pa / PGSIZE * PGSIZE, WithV(perm));
    if size == 0 {
      return Halt, t', k;
    }
    var a := RoundDown(va);
    var last := RoundDown((va + size - 1) % LONG);
    ghost var first := va / PGSIZE;
    var p := pa;
    while true
      invariant a == (first + k) * PGSIZE && p == pa + k * PGSIZE && a < MAXVA + LONG
      invariant k > 0 ==> a <= MAXVA
      invariant Space(km, root, t') && |km.free| + 2 * k >= |old(km.free)|
      invariant MapsFrom(old(km.mem), t, km.mem, t', first, k, pa / PGSIZE * PGSIZE, WithV(perm))
      invariant forall v: nat :: first <= v < first + k ==> !IsValid(old(Lookup(km.mem, t, v)))
      invariant !(first <= LastPage(va, size) < first + k)
      invariant km.Free() + Tables(t') == old(km.Free()) + Tables(t) && km.Free() <= old(km.Free())
      invariant SamePages(old(km.mem), km.mem, old(km.Free()) + Tables(t))
      decreases MAXVA + LONG - a
    {
      assert a / PGSIZE == first + k && a % PGSIZE == 0;
      EntryBound(p, pa, k, WithV(perm));
      ghost var before, u, changed := km.mem, t', km.Free() + Tables(t');
      MapSame(old(km.mem), t, before, u, first, k, pa / PGSIZE * PGSIZE, WithV(perm));
      r, t' := MapStep(km, root, a, Entry(p, WithV(perm)), first + k, t');
      SameSteps(old(km.mem), before, km.mem, old(km.Free()) + Tables(t), changed);
      MapOneMore(old(km.mem), t, before, u, km.mem, t', first, k, pa / PGSIZE * PGSIZE, WithV(perm), r.Done?);
      if !r.Done? {
        return r, t', k;
      }
      k := k + 1;
      if a == last {
        return Done, t', k;
      }
      a := a + PGSIZE;
      p := p + PGSIZE;
    }
  }

  // One turn of mappages' loop.
  method MapStep(km: Kmem, root: nat, a: nat, e: nat, ghost v: nat, ghost t: Tree) returns (r: Mapped, ghost t': Tree)
    requires Space(km, root, t) && a % PGSIZE == 0 && a / PGSIZE == v && e < LONG
    modifies km
    ensures Space(km, root, t')
    ensures r.Halt? <==> a >= MAXVA || IsValid(old(Lookup(km.mem, t, v)))
    ensures r.NoMemory? ==> km.free == [] && |old(km.free)| <= 1
    ensures |km.free| + 2 >= |old(km.free)|
    ensures forall u: nat :: Lookup(km.mem, t', u) == if r.Done? && u == v then e else old(Lookup(km.mem, t, u))
    ensures km.Free() + Tables(t') == old(km.Free()) + Tables(t) && km.Free() <= old(km.Free())
    ensures SamePages(old(km.mem), km.mem, old(km.Free()) + Tables(t))
  {
    hide TreeOk, Shaped, MemOk, Lookup, Linked, Kalloc.Chain, SamePages, Pte, Tables;
    var w;
    w, t' := Walk(km, root, a, true, t);
    if w.NotThere? {
      return NoMemory, t';
    }
    if w.Panic? || IsValid(Pte(km.mem[w.page], w.index)) {
      return Halt, t';
    }
    ghost var before := km.mem;
    PutLeaf(km, root, v, w.page, w.index, e, t');
    SameSteps(old(km.mem), before, km.mem, old(km.Free()) + Tables(t), Tables(t'));
    return Done, t';
  }

  lemma EntryBound(p: nat, pa: nat, k: nat, flags: nat)
    requires p == pa + k * PGSIZE && p < 0x200_0000_0000_0000 && flags < 1025
    ensures Entry(p, flags) < LONG && Entry(p, flags) == Entry(pa / PGSIZE * PGSIZE + k * PGSIZE, flags)
  {
  }

  lemma MapNothing(mem: Memory, t: Tree, first: nat, pa: nat, flags: nat)
    requires Shaped(mem, t)
    ensures MapsFrom(mem, t, mem, t, first, 0, pa, flags)
  {
  }

  lemma MapSame(m0: Memory, t0: Tree, mem: Memory, t: Tree, first: nat, k: nat, pa: nat, flags: nat)
    requires Shaped(m0, t0) && Shaped(mem, t) && MapsFrom(m0, t0, mem, t, first, k, pa, flags)
    ensures Lookup(mem, t, first + k) == Lookup(m0, t0, first + k)
  {
  }

  lemma MapOneMore(
      m0: Memory, t0: Tree, mem: Memory, t: Tree, mem': Memory, t': Tree, first: nat, k: nat, pa: nat, flags: nat,
      done: bool)
    requires Shaped(m0, t0) && Shaped(mem, t) && Shaped(mem', t')
    requires MapsFrom(m0, t0, mem, t, first, k, pa, flags)
    requires forall v: nat :: Lookup(mem', t', v) ==
                              if done && v == first + k then Entry(pa + k * PGSIZE, flags) else Lookup(mem, t, v)
    ensures MapsFrom(m0, t0, mem', t', first, if done then k + 1 else k, pa, flags)
  {
    hide Lookup, Shaped, Entry;
    forall v: nat ensures Lookup(mem', t', v) ==
                if first <= v < first + (if done then k + 1 else k) then Entry(pa + (v - first) * PGSIZE, flags)
                else Lookup(m0, t0, v)
    {
      if v == first + k {
        assert v - first == k;
      }
    }
  }

  // *pte = e, for the entry of page number vpn.
  method PutLeaf(km: Kmem, root: nat, ghost vpn: nat, page: nat, index: nat, e: nat, ghost t: Tree)
    requires Space(km, root, t) && Key(0, vpn / NPTE) in t && e < LONG
    requires page == t[Key(0, vpn / NPTE)] && index == vpn % NPTE
    modifies km
    ensures Space(km, root, t) && km.free == old(km.free) && km.freelist == old(km.freelist)
    ensures forall v: nat :: Lookup(km.mem, t, v) == if v == vpn then e else old(Lookup(km.mem, t, v))
    ensures SamePages(old(km.mem), km.mem, Tables(t))
  {
    assert page in Tables(t);
    SetLeaf(km.mem, t, vpn, e);
    km.Store(page, SetPte(km.mem[page], index, e));
  }

  // -------------------------------------------------------------- uvmunmap

  // The frames the valid entries of a range of page numbers lead to.
  ghost function Leaves(mem: Memory, t: Tree, lo: nat, hi: nat): set<nat>
    requires Shaped(mem, t)
  {
    set v: nat | lo <= v < hi && IsValid(Lookup(mem, t, v)) :: Frame(Lookup(mem, t, v))
  }

  // The frames of a range belong to the address space: each to one page
  // number, none of them free or a table.
  ghost predicate Owned(mem: Memory, t: Tree, free: set<nat>, lo: nat, hi: nat)
    requires Shaped(mem, t)
  {
    && (forall v: nat :: lo <= v < hi && IsValid(Lookup(mem, t, v)) ==>
          var p := Frame(Lookup(mem, t, v)); p in mem && p !in Tables(t) && p !in free)
    && (forall u: nat, v: nat :: lo <= u < v < hi && IsValid(Lookup(mem, t, u)) && IsValid(Lookup(mem, t, v)) ==>
          Frame(Lookup(mem, t, u)) != Frame(Lookup(mem, t, v)))
  }

  // A leaf entry, as opposed to none or to one without permissions.
  predicate IsLeaf(pte: nat) { IsValid(pte) && Flags(pte) != PTE_V }

  // The first k entries of a range removed, and nothing else.
  ghost predicate Unmaps(mem: Memory, mem': Memory, t: Tree, lo: nat, k: nat)
    requires Shaped(mem, t) && Shaped(mem', t)
  {
    forall v: nat :: Lookup(mem', t, v) == if lo <= v < lo + k then 0 else Lookup(mem, t, v)
  }

  // uvmunmap: removes exactly its range, and frees exactly the frames of it;
  // false when it halts, which is at the first page that is not a leaf below
  // MAXVA.
  method UvmUnmap(km: Kmem, root: nat, va: nat, npages: nat, doFree: bool, ghost t: Tree) returns (ok: bool)
    requires Space(km, root, t) && va + npages * PGSIZE < LONG
    requires doFree ==> Owned(km.mem, t, km.Free(), va / PGSIZE, va / PGSIZE + npages)
    modifies km
    ensures ok <==> va % PGSIZE == 0 &&
                    (forall v: nat :: va / PGSIZE <= v < va / PGSIZE + npages ==>
                        v * PGSIZE < MAXVA && IsLeaf(old(Lookup(km.mem, t, v))))
    ensures ok ==> Space(km, root, t) && Unmaps(old(km.mem), km.mem, t, va / PGSIZE, npages)
    ensures ok ==> km.Free() == old(km.Free()) +
                                (if doFree then old(Leaves(km.mem, t, va / PGSIZE, va / PGSIZE + npages)) else {})
    ensures ok ==> SamePages(old(km.mem), km.mem, Tables(t) +
                             (if doFree then old(Leaves(km.mem, t, va / PGSIZE, va / PGSIZE + npages)) else {}))
  {
    hide TreeOk, Shaped, MemOk, Lookup, Linked, Kalloc.Chain, SamePages, Pte, Leaves, Frame, Unmaps, Tables, Flags;
    if va % PGSIZE != 0 {
      return false;
    }
    ghost var m0, lo, free0 := km.mem, va / PGSIZE, km.Free();
    ghost var k := 0;
    var a := va;
    UnmapNothing(m0, t, lo);
    NoChange(m0);
    while a < va + npages * PGSIZE
      invariant a == va + k * PGSIZE && a % PGSIZE == 0 && a / PGSIZE == lo + k && k <= npages
      invariant Space(km, root, t) && Unmaps(m0, km.mem, t, lo, k)
      invariant forall v: nat :: lo <= v < lo + k ==> v * PGSIZE < MAXVA && IsLeaf(Lookup(m0, t, v))
      invariant km.Free() == free0 + (if doFree then Leaves(m0, t, lo, lo + k) else {})
      invariant SamePages(m0, km.mem, Tables(t) + (if doFree then Leaves(m0, t, lo, lo + k) else {}))
    {
      UnmapAt(m0, km.mem, t, lo, k, lo + k);
      if doFree {
        UnmapFrees(m0, t, free0, lo, k, npages);
      }
      LeavesOneMore(m0, t, lo, lo + k);
      ghost var before := km.mem;
      var one := UnmapOne(km, root, a, doFree, lo + k, t);
      if !one {
        return false;
      }
      UnmapOneMore(m0, before, km.mem, t, lo, k);
      UnmapSame(m0, before, km.mem, Tables(t), Frame(Lookup(m0, t, lo + k)),
                if doFree then Leaves(m0, t, lo, lo + k) else {}, doFree);
      k := k + 1;
      a := a + PGSIZE;
    }
    return true;
  }

  // One turn of uvmunmap's loop.
  method UnmapOne(km: Kmem, root: nat, a: nat, doFree: bool, ghost v: nat, ghost t: Tree) returns (ok: bool)
    requires Space(km, root, t) && a / PGSIZE == v && a % PGSIZE == 0
    requires doFree && IsValid(Lookup(km.mem, t, v)) ==>
               var p := Frame(Lookup(km.mem, t, v)); p in km.mem && p !in Tables(t) && p !in km.Free()
    modifies km
    ensures ok <==> v * PGSIZE < MAXVA && IsLeaf(old(Lookup(km.mem, t, v)))
    ensures ok ==> Space(km, root, t)
    ensures ok ==> forall u: nat :: Lookup(km.mem, t, u) == if u == v then 0 else old(Lookup(km.mem, t, u))
    ensures ok ==> km.Free() == old(km.Free()) + (if doFree then {Frame(old(Lookup(km.mem, t, v)))} else {})
    ensures ok ==> SamePages(old(km.mem), km.mem,
                             Tables(t) + (if doFree then {Frame(old(Lookup(km.mem, t, v)))} else {}))
  {
    hide TreeOk, Shaped, MemOk, Lookup, Linked, Kalloc.Chain, Pte, Frame;
    var w, _ := Walk(km, root, a, false, t);
    if !w.At? {
      return false;
    }
    var pte := Pte(km.mem[w.page], w.index);
    if !IsValid(pte) || Flags(pte) == PTE_V {
      return false;
    }
    if doFree {
      FreeLeaf(km, root, Frame(pte), t);
    }
    assert w.page in Tables(t);
    PutLeaf(km, root, v, w.page, w.index, 0, t);
    return true;
  }

  // kfree of a frame the address space owns.
  method FreeLeaf(km: Kmem, root: nat, pa: nat, ghost t: Tree)
    requires Space(km, root, t) && pa in km.mem && pa !in Tables(t) && pa !in km.free
    modifies km
    ensures Space(km, root, t) && km.Free() == old(km.Free()) + {pa}
    ensures forall v: nat :: Lookup(km.mem, t, v) == old(Lookup(km.mem, t, v))
    ensures SamePages(old(km.mem), km.mem, {pa})
  {
    hide Kalloc.Chain;
    var ok := km.Kfree(pa);
    UntouchedTables(old(km.mem), km.mem, t);
  }

  lemma UnmapNothing(mem: Memory, t: Tree, lo: nat)
    requires Shaped(mem, t)
    ensures Unmaps(mem, mem, t, lo, 0) && Leaves(mem, t, lo, lo) == {}
  {
  }

  lemma UnmapAt(mem: Memory, mem': Memory, t: Tree, lo: nat, k: nat, v: nat)
    requires Shaped(mem, t) && Shaped(mem', t) && Unmaps(mem, mem', t, lo, k) && !(lo <= v < lo + k)
    ensures Lookup(mem', t, v) == Lookup(mem, t, v)
  {
  }

  lemma UnmapOneMore(m0: Memory, mem: Memory, mem': Memory, t: Tree, lo: nat, k: nat)
    requires Shaped(m0, t) && Shaped(mem, t) && Shaped(mem', t) && Unmaps(m0, mem, t, lo, k)
    requires forall v: nat :: Lookup(mem', t, v) == if v == lo + k then 0 else Lookup(mem, t, v)
    ensures Unmaps(m0, mem', t, lo, k + 1)
  {
  }

  lemma LeavesOneMore(mem: Memory, t: Tree, lo: nat, hi: nat)
    requires Shaped(mem, t) && lo <= hi
    ensures Leaves(mem, t, lo, hi + 1) == Leaves(mem, t, lo, hi) +
                                          (if IsValid(Lookup(mem, t, hi)) then {Frame(Lookup(mem, t, hi))} else {})
  {
  }

  // The next frame to free is still in use.
  lemma UnmapFrees(mem: Memory, t: Tree, free: set<nat>, lo: nat, k: nat, n: nat)
    requires Shaped(mem, t) && k < n && Owned(mem, t, free, lo, lo + n)
    ensures IsValid(Lookup(mem, t, lo + k)) ==>
              var p := Frame(Lookup(mem, t, lo + k));
              p in mem && p !in Tables(t) && p !in free + Leaves(mem, t, lo, lo + k)
  {
  }

  lemma UnmapSame(m0: Memory, m1: Memory, m2: Memory, tables: set<nat>, p: nat, freed: set<nat>, doFree: bool)
    requires SamePages(m0, m1, tables + freed)
    requires SamePages(m1, m2, tables + if doFree then {p} else {})
    ensures SamePages(m0, m2, tables + if doFree then freed + {p} else freed)
  {
  }

  // ------------------------------------------------ uvmalloc and uvmdealloc

  // uvmdealloc: the pages between the two sizes, rounded up, are removed and
  // their frames freed; ok == false is the halt at one that is not mapped.
  method UvmDealloc(km: Kmem, root: nat, oldsz: nat, newsz: nat, ghost t: Tree) returns (sz: nat, ok: bool)
    requires Space(km, root, t) && oldsz <= MAXVA
    requires newsz < oldsz ==> Owned(km.mem, t, km.Free(), RoundUp(newsz) / PGSIZE, RoundUp(oldsz) / PGSIZE)
    modifies km
    ensures sz == if newsz < oldsz then newsz else oldsz
    ensures ok <==>
              newsz >= oldsz || forall v: nat :: RoundUp(newsz) / PGSIZE <= v < RoundUp(oldsz) / PGSIZE ==>
                IsLeaf(old(Lookup(km.mem, t, v)))
    ensures ok ==> Space(km, root, t)
    ensures newsz >= oldsz ==> km.mem == old(km.mem) && km.free == old(km.free)
    ensures ok && newsz < oldsz ==>
              var lo, hi := RoundUp(newsz) / PGSIZE, RoundUp(oldsz) / PGSIZE;
              && lo <= hi && Unmaps(old(km.mem), km.mem, t, lo, hi - lo)
              && km.Free() == old(km.Free()) + old(Leaves(km.mem, t, lo, hi))
              && SamePages(old(km.mem), km.mem, Tables(t) + old(Leaves(km.mem, t, lo, hi)))
  {
    hide TreeOk, Shaped, MemOk, Lookup, Linked, Kalloc.Chain, SamePages, Leaves, Frame, Unmaps, Tables, Flags, RoundUp;
    if newsz >= oldsz {
      return oldsz, true;
    }
    RoundedUp(newsz, oldsz);
    ok := true;
    if RoundUp(newsz) < RoundUp(oldsz) {
      var npages := (RoundUp(oldsz) - RoundUp(newsz)) / PGSIZE;
      ok := UvmUnmap(km, root, RoundUp(newsz), npages, true, t);
    } else {
      UnmapNothing(km.mem, t, RoundUp(newsz) / PGSIZE);
      NoChange(km.mem);
    }
    return newsz, ok;
  }

  lemma RoundedUp(a: nat, b: nat)
    requires a <= b
    ensures a <= RoundUp(a) < a + PGSIZE && RoundUp(a) <= RoundUp(b) && RoundUp(a) % PGSIZE == 0
    ensures RoundUp(b) % PGSIZE == 0
    ensures (RoundUp(b) - RoundUp(a)) / PGSIZE == RoundUp(b) / PGSIZE - RoundUp(a) / PGSIZE
    ensures b <= MAXVA ==> RoundUp(b) <= MAXVA
  {
  }

  // The entries from lo on, as many as there are contents, map pages that were
  // free to those contents with those flags; every page is accounted for.
  ghost predicate Grown(m0: Memory, t0: Tree, free0: set<nat>, mem: Memory, t: Tree, free: set<nat>,
                        lo: nat, flags: seq<nat>, contents: seq<Page>)
    requires Shaped(m0, t0) && Shaped(mem, t)
  {
    && |flags| == |contents| && free <= free0
    && (forall v: nat :: !(lo <= v < lo + |flags|) ==> Lookup(mem, t, v) == Lookup(m0, t0, v))
    && (forall v: nat :: lo <= v < lo + |flags| ==>
          var e := Lookup(mem, t, v);
          IsLeaf(e) && Flags(e) == flags[v - lo] && Frame(e) in free0 && Frame(e) in mem &&
            mem[Frame(e)] == contents[v - lo])
    && Owned(mem, t, free, lo, lo + |flags|)
    && free + Tables(t) + Leaves(mem, t, lo, lo + |flags|) == free0 + Tables(t0)
    && SamePages(m0, mem, free0 + Tables(t0))
  }

  // A free page with the given contents; 0 when there is none.
  method FillPage(km: Kmem, root: nat, content: Page, ghost t: Tree) returns (p: nat)
    requires Space(km, root, t)
    modifies km
    ensures Space(km, root, t) && (p == 0 <==> old(km.free) == [])
    ensures p == 0 ==> km.mem == old(km.mem) && km.free == old(km.free)
    ensures p == 0 ==> km.Free() == old(km.Free())
    ensures p != 0 ==> |km.free| + 1 == |old(km.free)| && p in km.mem && p !in km.free && p !in Tables(t)
    ensures p != 0 ==> p % PGSIZE == 0 && p < PHYSTOP && km.mem == old(km.mem)[p := content]
    ensures p != 0 ==> old(km.Free()) == km.Free() + {p}
    ensures forall v: nat :: Lookup(km.mem, t, v) == old(Lookup(km.mem, t, v))
  {
    hide TreeOk, Lookup, Linked, Kalloc.Chain, Tables, Shaped;
    p := km.Kalloc();
    if p == 0 {
      assert km.Free() == old(km.Free());
    } else {
      assert old(km.Free()) == km.Free() + {p};
      km.Store(p, content);
      Untouched(old(km.mem), km.mem, t, p);
    }
  }

  // The part uvmalloc and uvmcopy share: a page with the given contents, mapped
  // at va; if there is no page for it or for the tables it needs, false, with
  // the page given back.
  method TakePage(km: Kmem, root: nat, va: nat, content: Page, perm: nat, ghost t: Tree)
    returns (ok: bool, ghost t': Tree, ghost pa: nat)
    requires Space(km, root, t) && va % PGSIZE == 0 && va < MAXVA && perm < 1024 && perm > 1
    requires Lookup(km.mem, t, va / PGSIZE) == 0
    modifies km
    ensures Space(km, root, t')
    ensures if ok then |km.free| + 3 >= |old(km.free)| else |old(km.free)| <= 2
    ensures !ok ==> forall v: nat :: Lookup(km.mem, t', v) == old(Lookup(km.mem, t, v))
    ensures !ok ==> km.Free() + Tables(t') == old(km.Free()) + Tables(t)
    ensures ok ==> pa in old(km.Free()) && pa in km.mem && pa !in km.free && pa !in Tables(t')
    ensures ok ==> pa % PGSIZE == 0 && pa < LONG
    ensures ok ==> km.mem[pa] == content
    ensures ok ==> forall v: nat :: Lookup(km.mem, t', v) ==
                                    if v == va / PGSIZE then Entry(pa, WithV(perm)) else old(Lookup(km.mem, t, v))
    ensures ok ==> km.Free() + Tables(t') + {pa} == old(km.Free()) + Tables(t)
    ensures km.Free() <= old(km.Free())
    ensures SamePages(old(km.mem), km.mem, old(km.Free()) + Tables(t))
  {
    hide TreeOk, Lookup, Linked, Kalloc.Chain, Entry, Tables, Shaped, WithV, Pte;
    t' := t;
    var p := FillPage(km, root, content, t);
    pa := p;
    if p == 0 {
      return false, t', pa;
    }
    ok, t' := MapOne(km, root, va, p, perm, t);
    if !ok {
      FreeLeaf(km, root, p, t');
    }
  }

  // mappages of a single page that is not mapped yet.
  method MapOne(km: Kmem, root: nat, va: nat, pa: nat, perm: nat, ghost t: Tree) returns (ok: bool, ghost t': Tree)
    requires Space(km, root, t) && va % PGSIZE == 0 && va < MAXVA && perm < 1024
    requires pa % PGSIZE == 0 && pa < PHYSTOP && Lookup(km.mem, t, va / PGSIZE) == 0
    modifies km
    ensures Space(km, root, t')
    ensures if ok then |km.free| + 2 >= |old(km.free)| else |old(km.free)| <= 1
    ensures forall v: nat :: Lookup(km.mem, t', v) ==
                             if ok && v == va / PGSIZE then Entry(pa, WithV(perm)) else old(Lookup(km.mem, t, v))
    ensures km.Free() + Tables(t') == old(km.Free()) + Tables(t) && km.Free() <= old(km.Free())
    ensures SamePages(old(km.mem), km.mem, old(km.Free()) + Tables(t))
  {
    hide TreeOk, Lookup, Linked, Kalloc.Chain, Entry, Tables, Shaped, SamePages, WithV, Pte;
    var r; ghost var k;
    r, t', k := MapPages(km, root, va, PGSIZE, pa, perm, t);
    assert LastPage(va, PGSIZE) == va / PGSIZE;
    return r.Done?, t';
  }

  lemma Untouched(mem: Memory, mem': Memory, t: Tree, p: nat)
    requires TreeOk(mem, t) && MemOk(mem') && mem.Keys == mem'.Keys && p !in Tables(t)
    requires forall q :: q in mem && q != p ==> mem'[q] == mem[q]
    ensures TreeOk(mem', t) && Shaped(mem', t) && Shaped(mem, t)
    ensures forall v: nat :: Lookup(mem', t, v) == Lookup(mem, t, v)
  {
    UntouchedTables(mem, mem', t);
  }

  function Repeat<T>(x: T, k: nat): (r: seq<T>)
    ensures |r| == k
  {
    seq(k, _ => x)
  }

  lemma RepeatMore<T>(x: T, k: nat)
    ensures Repeat(x, 0) == [] && Repeat(x, k + 1) == Repeat(x, k) + [x]
  {
  }

  lemma GrownNone(mem: Memory, t: Tree, free: set<nat>, lo: nat)
    requires Shaped(mem, t)
    ensures Grown(mem, t, free, mem, t, free, lo, [], [])
  {
  }

  lemma GrownOneMore(m0: Memory, t0: Tree, free0: set<nat>, mem: Memory, t: Tree, free: set<nat>,
                     mem': Memory, t': Tree, free': set<nat>, lo: nat, flags: seq<nat>, contents: seq<Page>,
                     pa: nat, flag: nat)
    requires Shaped(m0, t0) && Shaped(mem, t) && Shaped(mem', t')
    requires Grown(m0, t0, free0, mem, t, free, lo, flags, contents)
    requires 1 < flag < 1024 && IsValid(flag) && pa % PGSIZE == 0 && pa < LONG
    requires forall v: nat :: Lookup(mem', t', v) == if v == lo + |flags| then Entry(pa, flag) else Lookup(mem, t, v)
    requires pa in free && pa !in free' && pa !in Tables(t') && pa in mem' && free' <= free
    requires free' + Tables(t') + {pa} == free + Tables(t)
    requires SamePages(mem, mem', free + Tables(t))
    ensures Grown(m0, t0, free0, mem', t', free', lo, flags + [flag], contents + [mem'[pa]])
  {
    hide Lookup, Entry, Frame, IsValid, Shaped, Tables, Flags, Leaves;
    var k := |flags|;
    FrameOfEntry(pa, flag);
    GrownKept(m0, t0, free0, mem, t, free, mem', t', free', lo, flags, contents);
    assert forall v: nat :: lo <= v < lo + k ==> Frame(Lookup(mem', t', v)) != pa;
    SameLeaves(mem, t, mem', t', lo, lo + k);
    LeavesOneMore(mem', t', lo, lo + k);
  }

  // The pages added before are neither among the free pages nor the tables
  // that a later step takes its pages from.
  lemma GrownKept(m0: Memory, t0: Tree, free0: set<nat>, mem: Memory, t: Tree, free: set<nat>,
                  mem': Memory, t': Tree, free': set<nat>, lo: nat, flags: seq<nat>, contents: seq<Page>)
    requires Shaped(m0, t0) && Shaped(mem, t) && Shaped(mem', t')
    requires Grown(m0, t0, free0, mem, t, free, lo, flags, contents)
    requires forall v: nat :: v != lo + |flags| ==> Lookup(mem', t', v) == Lookup(mem, t, v)
    requires free' + Tables(t') <= free + Tables(t) && free' <= free && SamePages(mem, mem', free + Tables(t))
    ensures forall v: nat :: lo <= v < lo + |flags| ==>
              var e := Lookup(mem, t, v);
              && Lookup(mem', t', v) == e && Frame(e) in mem' && mem'[Frame(e)] == contents[v - lo]
              && Frame(e) !in free && Frame(e) !in free' && Frame(e) !in Tables(t')
    ensures SamePages(m0, mem', free0 + Tables(t0))
  {
    hide Lookup, Entry, Frame, IsValid, Shaped, Tables, Flags, Leaves;
  }

  lemma SameLeaves(mem: Memory, t: Tree, mem': Memory, t': Tree, lo: nat, hi: nat)
    requires Shaped(mem, t) && Shaped(mem', t')
    requires forall v: nat :: lo <= v < hi ==> Lookup(mem', t', v) == Lookup(mem, t, v)
    ensures Leaves(mem', t', lo, hi) == Leaves(mem, t, lo, hi)
  {
    hide Lookup, Frame;
  }

  // Removing everything that was added restores every entry, and gives back
  // every page but those of new tables.
  lemma GrownUndone(m0: Memory, t0: Tree, free0: set<nat>, mem: Memory, t: Tree, free: set<nat>, mem': Memory,
                    lo: nat, flags: seq<nat>, contents: seq<Page>)
    requires Shaped(m0, t0) && Shaped(mem, t) && Shaped(mem', t)
    requires Grown(m0, t0, free0, mem, t, free, lo, flags, contents)
    requires forall v: nat :: lo <= v < lo + |flags| ==> Lookup(m0, t0, v) == 0
    requires Unmaps(mem, mem', t, lo, |flags|)
    ensures forall v: nat :: Lookup(mem', t, v) == Lookup(m0, t0, v)
    ensures (free + Leaves(mem, t, lo, lo + |flags|)) + Tables(t) == free0 + Tables(t0)
    ensures SamePages(m0, mem, free0 + Tables(t0))
    ensures Tables(t) + Leaves(mem, t, lo, lo + |flags|) <= free0 + Tables(t0)
  {
  }

  // uvmalloc: the new pages are zeroed, were free, and are mapped with the
  // given permissions; on failure (0) every entry is as it was, and every page
  // is back on the free list except those that became tables.
  method UvmAlloc(km: Kmem, root: nat, oldsz: nat, newsz: nat, xperm: nat, ghost t: Tree) returns (sz: nat,
      ghost t': Tree)
    requires Space(km, root, t) && newsz <= MAXVA && xperm in {0, PTE_W, PTE_X, PTE_W + PTE_X}
    requires forall v: nat :: RoundUp(oldsz) / PGSIZE <= v < RoundUp(newsz) / PGSIZE ==> Lookup(km.mem, t, v) == 0
    modifies km
    ensures newsz < oldsz ==> sz == oldsz && t' == t && km.mem == old(km.mem) && km.free == old(km.free)
    ensures newsz >= oldsz ==> Space(km, root, t') && (sz == newsz || sz == 0)
    ensures newsz >= oldsz && sz != newsz ==> |old(km.free)| < 3 * (RoundUp(newsz) / PGSIZE - RoundUp(oldsz) / PGSIZE)
    ensures newsz >= oldsz && sz == newsz ==>
              var n := RoundUp(newsz) / PGSIZE - RoundUp(oldsz) / PGSIZE;
              n >= 0 && Grown(old(km.mem), t, old(km.Free()), km.mem, t', km.Free(), RoundUp(oldsz) / PGSIZE,
                              Repeat<nat>(PTE_V + PTE_R + PTE_U + xperm, n), Repeat(Filled(0), n))
    ensures newsz >= oldsz && sz != newsz ==>
              && (forall v: nat :: Lookup(km.mem, t', v) == old(Lookup(km.mem, t, v)))
              && km.Free() + Tables(t') == old(km.Free()) + Tables(t)
              && SamePages(old(km.mem), km.mem, old(km.Free()) + Tables(t))
  {
    hide TreeOk, Shaped, MemOk, Lookup, Linked, Kalloc.Chain, SamePages, Leaves, Frame, Tables, Flags, RoundUp, Grown,
         Owned, Unmaps, Entry, Repeat;
    t' := t;
    if newsz < oldsz {
      return oldsz, t';
    }
    ghost var m0, free0, lo := km.mem, km.Free(), RoundUp(oldsz) / PGSIZE;
    ghost var flag := PTE_V + PTE_R + PTE_U + xperm;
    ghost var k := 0;
    GrownNone(m0, t, free0, lo);
    RoundedUp(oldsz, newsz);
    RepeatMore<nat>(flag, 0);
    RepeatMore(Filled(0), 0);
    var a := RoundUp(oldsz);
    while a < newsz
      invariant a == (lo + k) * PGSIZE && a / PGSIZE == lo + k && a <= RoundUp(newsz)
      invariant lo + k <= RoundUp(newsz) / PGSIZE
      invariant Space(km, root, t') && |km.free| + 3 * k >= |old(km.free)|
      invariant Grown(m0, t, free0, km.mem, t', km.Free(), lo, Repeat<nat>(flag, k), Repeat(Filled(0), k))
      decreases RoundUp(newsz) - a
    {
      OnePageLess(a, newsz);
      GrownOutside(m0, t, free0, km.mem, t', km.Free(), lo, Repeat<nat>(flag, k), Repeat(Filled(0), k), lo + k);
      ghost var mem, u, free := km.mem, t', km.Free();
      var ok; ghost var pa;
      ok, t', pa := TakePage(km, root, a, Filled(0), PTE_R + PTE_U + xperm, t');
      if !ok {
        GrownStill(m0, t, free0, mem, u, free, km.mem, t', km.Free(), lo, Repeat<nat>(flag, k), Repeat(Filled(0), k));
        Rollback(km, root, a, RoundUp(oldsz), m0, t, free0, t', lo, Repeat<nat>(flag, k), Repeat(Filled(0), k));
        return 0, t';
      }
      GrownOneMore(m0, t, free0, mem, u, free, km.mem, t', km.Free(), lo, Repeat<nat>(flag, k), Repeat(Filled(0), k),
                   pa, flag);
      RepeatMore<nat>(flag, k);
      RepeatMore(Filled(0), k);
      k := k + 1;
      a := a + PGSIZE;
    }
    LastRound(a, newsz);
    assert k == RoundUp(newsz) / PGSIZE - lo;
    return newsz, t';
  }

  // The error path of uvmalloc: uvmdealloc of the pages added so far.
  method Rollback(km: Kmem, root: nat, a: nat, base: nat, ghost m0: Memory, ghost t0: Tree, ghost free0: set<nat>,
                  ghost t: Tree, ghost lo: nat, ghost flags: seq<nat>, ghost contents: seq<Page>)
    requires Space(km, root, t) && Shaped(m0, t0) && a <= MAXVA
    requires Grown(m0, t0, free0, km.mem, t, km.Free(), lo, flags, contents)
    requires base == lo * PGSIZE && a == (lo + |flags|) * PGSIZE
    requires forall v: nat :: lo <= v < lo + |flags| ==> Lookup(m0, t0, v) == 0
    modifies km
    ensures Space(km, root, t)
    ensures forall v: nat :: Lookup(km.mem, t, v) == Lookup(m0, t0, v)
    ensures km.Free() + Tables(t) == free0 + Tables(t0)
    ensures SamePages(m0, km.mem, free0 + Tables(t0))
  {
    hide TreeOk, Shaped, MemOk, Lookup, Linked, Kalloc.Chain, SamePages, Leaves, Frame, Tables, Flags, RoundUp, Grown,
         Owned, Unmaps;
    GrownOwned(m0, t0, free0, km.mem, t, km.Free(), lo, flags, contents);
    ghost var mem, free := km.mem, km.Free();
    AlreadyRounded(lo);
    AlreadyRounded(lo + |flags|);
    UnmapNothing(mem, t, lo);
    var _, _ := UvmDealloc(km, root, a, base, t);
    GrownUndone(m0, t0, free0, mem, t, free, km.mem, lo, flags, contents);
    SameSteps(m0, mem, km.mem, free0 + Tables(t0), Tables(t) + Leaves(mem, t, lo, lo + |flags|));
  }

  lemma OnePageLess(a: nat, sz: nat)
    requires a % PGSIZE == 0 && a < sz
    ensures a + PGSIZE <= RoundUp(sz) && a / PGSIZE < RoundUp(sz) / PGSIZE && (a + PGSIZE) / PGSIZE == a / PGSIZE + 1
  {
  }

  lemma LastRound(a: nat, sz: nat)
    requires a % PGSIZE == 0 && sz <= a <= RoundUp(sz)
    ensures a == RoundUp(sz)
  {
  }

  lemma AlreadyRounded(n: nat)
    ensures RoundUp(n * PGSIZE) == n * PGSIZE && n * PGSIZE / PGSIZE == n
  {
  }

  lemma GrownOutside(m0: Memory, t0: Tree, free0: set<nat>, mem: Memory, t: Tree, free: set<nat>,
                     lo: nat, flags: seq<nat>, contents: seq<Page>, v: nat)
    requires Shaped(m0, t0) && Shaped(mem, t) && Grown(m0, t0, free0, mem, t, free, lo, flags, contents)
    requires !(lo <= v < lo + |flags|)
    ensures Lookup(mem, t, v) == Lookup(m0, t0, v)
  {
  }

  lemma GrownOwned(m0: Memory, t0: Tree, free0: set<nat>, mem: Memory, t: Tree, free: set<nat>,
                   lo: nat, flags: seq<nat>, contents: seq<Page>)
    requires Shaped(m0, t0) && Shaped(mem, t) && Grown(m0, t0, free0, mem, t, free, lo, flags, contents)
    ensures Owned(mem, t, free, lo, lo + |flags|)
    ensures forall v: nat :: lo <= v < lo + |flags| ==> IsLeaf(Lookup(mem, t, v))
  {
  }

  // A failed TakePage leaves what was added before in place.
  lemma GrownStill(m0: Memory, t0: Tree, free0: set<nat>, mem: Memory, t: Tree, free: set<nat>,
                   mem': Memory, t': Tree, free': set<nat>, lo: nat, flags: seq<nat>, contents: seq<Page>)
    requires Shaped(m0, t0) && Shaped(mem, t) && Shaped(mem', t')
    requires Grown(m0, t0, free0, mem, t, free, lo, flags, contents)
    requires forall v: nat :: Lookup(mem', t', v) == Lookup(mem, t, v)
    requires free' + Tables(t') == free + Tables(t) && free' <= free && SamePages(mem, mem', free + Tables(t))
    ensures Grown(m0, t0, free0, mem', t', free', lo, flags, contents)
  {
    hide Lookup, Entry, Frame, IsValid, Shaped, Tables, Flags, Leaves;
    GrownKept(m0, t0, free0, mem, t, free, mem', t', free', lo, flags, contents);
    SameLeaves(mem, t, mem', t', lo, lo + |flags|);
  }

  // --------------------------------------------------------------- uvmcopy

  // The first n pages of an address space that can be copied: their frames
  // are in use, and not as tables of the new space.
  ghost predicate Copyable(mem: Memory, t: Tree, n: nat, busy: set<nat>)
    requires Shaped(mem, t)
  {
    forall v: nat :: v < n && IsValid(Lookup(mem, t, v)) ==>
      IsLeaf(Lookup(mem, t, v)) && Frame(Lookup(mem, t, v)) in mem && Frame(Lookup(mem, t, v)) !in busy
  }

  ghost function FlagsOf(mem: Memory, t: Tree, n: nat): (r: seq<nat>)
    requires Shaped(mem, t)
    ensures |r| == n
  {
    seq(n, v requires 0 <= v < n => Flags(Lookup(mem, t, v)))
  }

  ghost function PagesOf(mem: Memory, t: Tree, n: nat): (r: seq<Page>)
    requires Shaped(mem, t) && forall v: nat :: v < n ==> Frame(Lookup(mem, t, v)) in mem
    ensures |r| == n
  {
    seq(n, v requires 0 <= v < n => mem[Frame(Lookup(mem, t, v))])
  }

  // The first k pages have been copied: both spaces are well-formed, the old
  // one as it was, and the new one has fresh frames with the same contents.
  ghost predicate Copied(km: Kmem, old_: nat, new_: nat, to: Tree, tn: Tree, m0: Memory, free0: set<nat>, t: Tree,
                         k: nat)
    reads km
    requires Shaped(m0, to) && Shaped(m0, tn)
  {
    && Space(km, old_, to) && Space(km, new_, t)
    && (forall v: nat :: Lookup(km.mem, to, v) == Lookup(m0, to, v))
    && (forall v: nat :: v < k ==> IsValid(Lookup(m0, to, v)) && Frame(Lookup(m0, to, v)) in m0)
    && Grown(m0, tn, free0, km.mem, t, km.Free(), 0, FlagsOf(m0, to, k), PagesOf(m0, to, k))
  }

  // uvmcopy: on Done the new space maps pages that were free, with the old
  // pages' contents and flags; on NoMemory it maps what it mapped before, and
  // gives every page back but those of new tables; a missing page halts.
  method UvmCopy(km: Kmem, old_: nat, new_: nat, sz: nat, ghost to: Tree, ghost tn: Tree)
    returns (r: Mapped, ghost tn': Tree)
    requires Space(km, old_, to) && Space(km, new_, tn) && Tables(to) !! Tables(tn) && sz <= MAXVA
    requires Copyable(km.mem, to, RoundUp(sz) / PGSIZE, km.Free() + Tables(tn))
    requires forall v: nat :: v < RoundUp(sz) / PGSIZE ==> Lookup(km.mem, tn, v) == 0
    modifies km
    ensures r.Halt? ==> exists v: nat :: v < RoundUp(sz) / PGSIZE && !IsValid(old(Lookup(km.mem, to, v)))
    ensures !r.Halt? ==> Space(km, old_, to) && Space(km, new_, tn')
    ensures !r.Halt? ==> forall v: nat :: Lookup(km.mem, to, v) == old(Lookup(km.mem, to, v))
    ensures r.Done? ==>
              var n := RoundUp(sz) / PGSIZE;
              && (forall v: nat :: v < n ==> Frame(old(Lookup(km.mem, to, v))) in old(km.mem))
              && Grown(old(km.mem), tn, old(km.Free()), km.mem, tn', km.Free(), 0,
                       old(FlagsOf(km.mem, to, n)), old(PagesOf(km.mem, to, n)))
    ensures r.NoMemory? ==> |old(km.free)| < 3 * (RoundUp(sz) / PGSIZE)
    ensures r.NoMemory? ==>
              && (forall v: nat :: Lookup(km.mem, tn', v) == old(Lookup(km.mem, tn, v)))
              && km.Free() + Tables(tn') == old(km.Free()) + Tables(tn)
    ensures !r.Halt? ==> SamePages(old(km.mem), km.mem, old(km.Free()) + Tables(tn))
  {
    hide TreeOk, Shaped, MemOk, Lookup, Linked, Kalloc.Chain, SamePages, Leaves, Frame, Tables, Flags, RoundUp, Grown,
         Owned, FlagsOf, PagesOf, Copyable;
    tn' := tn;
    ghost var m0, free0, k := km.mem, km.Free(), 0;
    CopyNone(m0, to, tn, free0);
    RoundedUp(0, sz);
    r := Done;
    var i := 0;
    while i < sz
      invariant i == k * PGSIZE && i / PGSIZE == k && i <= RoundUp(sz) && k <= RoundUp(sz) / PGSIZE
      invariant |km.free| + 3 * k >= |old(km.free)|
      invariant r.Done? && Copied(km, old_, new_, to, tn, m0, free0, tn', k)
      decreases RoundUp(sz) - i
    {
      OnePageLess(i, sz);
      CopyableAt(m0, to, RoundUp(sz) / PGSIZE, free0 + Tables(tn), k);
      r, tn' := CopyPage(km, old_, new_, i, to, tn, m0, free0, tn', k);
      if r.Halt? {
        return;
      }
      if r.NoMemory? {
        CopyUndo(km, old_, new_, i, to, tn, m0, free0, tn', k);
        return;
      }
      k := k + 1;
      i := i + PGSIZE;
    }
    LastRound(i, sz);
    GrownSame(m0, tn, free0, km.mem, tn', km.Free(), 0, FlagsOf(m0, to, k), PagesOf(m0, to, k));
  }

  // One turn of uvmcopy's loop.
  method CopyPage(km: Kmem, old_: nat, new_: nat, i: nat, ghost to: Tree, ghost tn: Tree, ghost m0: Memory,
                  ghost free0: set<nat>, ghost t: Tree, ghost k: nat) returns (r: Mapped, ghost t': Tree)
    requires Shaped(m0, to) && Shaped(m0, tn) && Copied(km, old_, new_, to, tn, m0, free0, t, k)
    requires i / PGSIZE == k && i % PGSIZE == 0 && i < MAXVA
    requires Tables(to) !! Tables(tn) && Tables(to) !! free0 && Lookup(m0, tn, k) == 0
    requires var e := Lookup(m0, to, k);
             IsValid(e) ==> IsLeaf(e) && Frame(e) in m0 && Frame(e) !in free0 + Tables(tn)
    modifies km
    ensures r.Halt? ==> !IsValid(Lookup(m0, to, k))
    ensures r.NoMemory? ==> |old(km.free)| <= 2
    ensures r.Done? ==> |km.free| + 3 >= |old(km.free)|
    ensures r.NoMemory? ==> Copied(km, old_, new_, to, tn, m0, free0, t', k)
    ensures r.Done? ==> Copied(km, old_, new_, to, tn, m0, free0, t', k + 1)
  {
    hide TreeOk, Shaped, MemOk, Lookup, Linked, Kalloc.Chain, SamePages, Leaves, Frame, Tables, Flags, Grown, Owned,
         Unmaps, Entry, Pte, FlagsOf, PagesOf, IsLeaf;
    t' := t;
    ghost var flags, contents := FlagsOf(m0, to, k), PagesOf(m0, to, k);
    var w, _ := Walk(km, old_, i, false, to);
    if !w.At? {
      return Halt, t';
    }
    var pte := Pte(km.mem[w.page], w.index);
    if !IsValid(pte) {
      return Halt, t';
    }
    GrownOutside(m0, tn, free0, km.mem, t, km.Free(), 0, flags, contents, k);
    GrownKeeps(m0, tn, free0, km.mem, t, km.Free(), 0, flags, contents, Frame(pte));
    LeafFlags(pte);
    ghost var mem, free := km.mem, km.Free();
    var ok; ghost var pa;
    ok, t', pa := TakePage(km, new_, i, km.mem[Frame(pte)], Flags(pte), t);
    OldStays(km, old_, mem, to, free, t, m0, tn, free0, flags, contents, free + Tables(t));
    if !ok {
      GrownStill(m0, tn, free0, mem, t, free, km.mem, t', km.Free(), 0, flags, contents);
      return NoMemory, t';
    }
    GrownOneMore(m0, tn, free0, mem, t, free, km.mem, t', km.Free(), 0, flags, contents, pa, Flags(pte));
    CopiesMore(m0, to, k);
    return Done, t';
  }

  // The error path of uvmcopy: uvmunmap of the pages copied so far.
  method CopyUndo(km: Kmem, old_: nat, new_: nat, i: nat, ghost to: Tree, ghost tn: Tree, ghost m0: Memory,
                  ghost free0: set<nat>, ghost t: Tree, ghost k: nat)
    requires Shaped(m0, to) && Shaped(m0, tn) && Copied(km, old_, new_, to, tn, m0, free0, t, k)
    requires i == k * PGSIZE && i / PGSIZE == k && i < MAXVA
    requires Tables(to) !! Tables(tn) && Tables(to) !! free0
    requires forall v: nat :: v < k ==> Lookup(m0, tn, v) == 0
    modifies km
    ensures Space(km, old_, to) && Space(km, new_, t)
    ensures forall v: nat :: Lookup(km.mem, to, v) == Lookup(m0, to, v)
    ensures forall v: nat :: Lookup(km.mem, t, v) == Lookup(m0, tn, v)
    ensures km.Free() + Tables(t) == free0 + Tables(tn)
    ensures SamePages(m0, km.mem, free0 + Tables(tn))
  {
    hide TreeOk, Shaped, MemOk, Lookup, Linked, Kalloc.Chain, SamePages, Leaves, Frame, Tables, Flags, Grown, Owned,
         Unmaps, FlagsOf, PagesOf;
    ghost var flags, contents := FlagsOf(m0, to, k), PagesOf(m0, to, k);
    GrownOwned(m0, tn, free0, km.mem, t, km.Free(), 0, flags, contents);
    ghost var mem, free := km.mem, km.Free();
    var done := UvmUnmap(km, new_, 0, i / PGSIZE, true, t);
    GrownUndone(m0, tn, free0, mem, t, free, km.mem, 0, flags, contents);
    OldStays(km, old_, mem, to, free, t, m0, tn, free0, flags, contents, Tables(t) + Leaves(mem, t, 0, k));
    SameSteps(m0, mem, km.mem, free0 + Tables(tn), Tables(t) + Leaves(mem, t, 0, k));
  }

  lemma CopyNone(m0: Memory, to: Tree, tn: Tree, free0: set<nat>)
    requires Shaped(m0, to) && Shaped(m0, tn)
    ensures Grown(m0, tn, free0, m0, tn, free0, 0, FlagsOf(m0, to, 0), PagesOf(m0, to, 0))
  {
    GrownNone(m0, tn, free0, 0);
    assert FlagsOf(m0, to, 0) == [] && PagesOf(m0, to, 0) == [];
  }

  lemma CopyableAt(mem: Memory, t: Tree, n: nat, busy: set<nat>, v: nat)
    requires Shaped(mem, t) && Copyable(mem, t, n, busy) && v < n
    ensures var e := Lookup(mem, t, v);
            IsValid(e) ==> IsLeaf(e) && Frame(e) in mem && Frame(e) !in busy
  {
  }

  lemma CopiesMore(m0: Memory, to: Tree, k: nat)
    requires Shaped(m0, to) && forall v: nat :: v < k + 1 ==> Frame(Lookup(m0, to, v)) in m0
    ensures FlagsOf(m0, to, k + 1) == FlagsOf(m0, to, k) + [Flags(Lookup(m0, to, k))]
    ensures PagesOf(m0, to, k + 1) == PagesOf(m0, to, k) + [m0[Frame(Lookup(m0, to, k))]]
  {
  }

  lemma GrownSame(m0: Memory, t0: Tree, free0: set<nat>, mem: Memory, t: Tree, free: set<nat>,
                  lo: nat, flags: seq<nat>, contents: seq<Page>)
    requires Shaped(m0, t0) && Shaped(mem, t) && Grown(m0, t0, free0, mem, t, free, lo, flags, contents)
    ensures SamePages(m0, mem, free0 + Tables(t0))
  {
  }

  lemma LeafFlags(pte: nat)
    requires IsValid(pte)
    ensures IsLeaf(pte) ==> 1 < Flags(pte) < 1024 && IsValid(Flags(pte)) && WithV(Flags(pte)) == Flags(pte)
  {
  }

  lemma GrownKeeps(m0: Memory, t0: Tree, free0: set<nat>, mem: Memory, t: Tree, free: set<nat>,
                   lo: nat, flags: seq<nat>, contents: seq<Page>, p: nat)
    requires Shaped(m0, t0) && Shaped(mem, t) && Grown(m0, t0, free0, mem, t, free, lo, flags, contents)
    requires p in m0 && p !in free0 + Tables(t0)
    ensures p in mem && mem[p] == m0[p] && free <= free0
  {
  }

  // Growing one space does not disturb another one.
  lemma OldStays(km: Kmem, root: nat, mem: Memory, t: Tree, free: set<nat>, u: Tree,
                 m0: Memory, t0: Tree, free0: set<nat>, flags: seq<nat>, contents: seq<Page>, changed: set<nat>)
    requires km.Valid() && TreeOk(mem, t) && Shaped(mem, t) && ROOT in t && t[ROOT] == root
    requires Shaped(m0, t0) && Shaped(mem, u) && Grown(m0, t0, free0, mem, u, free, 0, flags, contents)
    requires Tables(t) !! Tables(t0) && Tables(t) !! free0 && MemOk(km.mem)
    requires SamePages(mem, km.mem, changed) && changed <= free + Tables(u) + Leaves(mem, u, 0, |flags|)
    requires km.Free() <= free0 + Tables(t0)
    ensures Space(km, root, t) && forall v: nat :: Lookup(km.mem, t, v) == Lookup(mem, t, v)
  {
    assert forall p :: p in changed ==> p in free0 + Tables(t0);
    UntouchedTables(mem, km.mem, t);
    forall p | p in Tables(t) ensures p !in km.free {
      assert p !in km.Free();
    }
  }
}

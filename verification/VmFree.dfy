// Tearing down an address space (freewalk and uvmfree in vm.c).
module VmFree {
  import opened Sv39
  import opened Kalloc
  import opened Vm

  // The ancestor of a table at a level.
  function Ancestor(k: Key, level: nat): Key
    decreases level - k.level
  {
    if k.level >= level then k else Ancestor(Parent(k), level)
  }

  predicate Under(k: Key, top: Key) { k.level <= top.level && Ancestor(k, top.level) == top }

  lemma {:induction false} AncestorUp(k: Key, level: nat)
    requires k.level < level
    ensures Ancestor(k, level - 1).level == level - 1 && Parent(Ancestor(k, level - 1)) == Ancestor(k, level)
    decreases level - k.level
  {
    if k.level < level - 1 {
      AncestorUp(Parent(k), level);
    }
  }

  // The entry of top through which a table below it is reached.
  function Slot(k: Key, top: Key): nat
    requires top.level > 0
  {
    Ancestor(k, top.level - 1).prefix % NPTE
  }

  lemma UnderSlot(k: Key, top: Key)
    requires Under(k, top) && k.level < top.level
    ensures Under(k, Child(top, Slot(k, top)))
  {
    AncestorUp(k, top.level);
  }

  lemma UnderRoot(k: Key)
    requires GoodKey(k)
    ensures Under(k, ROOT)
  {
  }

  lemma {:induction false} AncestorInTree(t: Tree, k: Key, level: nat)
    requires k in t && k.level <= level <= 2
    requires forall j :: j in t && j.level < 2 ==> Parent(j) in t
    ensures Ancestor(k, level) in t
    decreases level - k.level
  {
    if k.level < level {
      AncestorInTree(t, Parent(k), level);
    }
  }

  // ---------------------------------------------------------------- freewalk

  // A tree that may lack its root, and one of whose entries may dangle.
  ghost predicate Core(mem: Memory, t: Tree) {
    && MemOk(mem)
    && (forall k :: k in t ==> GoodKey(k) && t[k] in mem)
    && (forall j, k :: j in t && k in t && t[j] == t[k] ==> j == k)
    && (forall k :: k in t && k.level < 2 ==> Parent(k) in t)
  }

  ghost predicate LinkedBut(mem: Memory, t: Tree, loose: set<(Key, nat)>)
    requires Core(mem, t)
  {
    forall k, i {:trigger Linked(mem, t, k, i)} ::
      k in t && k.level > 0 && 0 <= i < NPTE && (k, i) !in loose ==> Linked(mem, t, k, i)
  }

  ghost predicate NoLeaves(mem: Memory, t: Tree)
    requires Core(mem, t)
  {
    forall k, i {:trigger Pte(mem[t[k]], i)} :: k in t && k.level == 0 && 0 <= i < NPTE ==> !IsValid(Pte(mem[t[k]], i))
  }

  ghost predicate State(km: Kmem, t: Tree, loose: set<(Key, nat)>)
    reads km
  {
    && km.Valid() && Core(km.mem, t) && LinkedBut(km.mem, t, loose) && NoLeaves(km.mem, t)
    && (forall p :: p in Tables(t) ==> p !in km.free)
  }

  // The keys at or below top, and those below top through entries before i.
  ghost function Below(t: Tree, top: Key): set<Key> { set k | k in t && Under(k, top) }

  ghost function BelowFirst(t: Tree, top: Key, i: nat): set<Key> {
    set k | k in t && k.level < top.level && Under(k, top) && Slot(k, top) < i
  }

  ghost function PagesUnder(t: Tree, top: Key): set<nat> { set k | k in t && Under(k, top) :: t[k] }

  lemma UnderChildIff(k: Key, top: Key, i: nat)
    requires k.level < top.level && i < NPTE
    ensures Under(k, Child(top, i)) <==> Under(k, top) && Slot(k, top) == i
  {
    AncestorUp(k, top.level);
    ParentOfChild(top, i);
    if Under(k, top) {
      UnderSlot(k, top);
    }
  }

  // What freewalk finds in entry i of the table for top.
  lemma EntryFacts(mem: Memory, t: Tree, top: Key, i: nat)
    requires Core(mem, t) && LinkedBut(mem, t, {}) && NoLeaves(mem, t) && top in t && i < NPTE
    ensures t[top] in mem && t[top] in Tables(t) && top.level <= 2
    ensures var pte := Pte(mem[t[top]], i);
            if top.level > 0 && Child(top, i) in t then IsValid(pte) && IsPointer(pte) && Frame(pte) == t[Child(top, i)]
            else !IsValid(pte)
  {
    if top.level > 0 {
      assert Linked(mem, t, top, i);
      if Child(top, i) in t {
        FrameOfEntry(t[Child(top, i)], PTE_V);
      }
    }
  }

  // Dropping what is below entry i, after what is below the entries before it.
  lemma Peel(mem: Memory, t: Tree, top: Key, i: nat, t1: Tree)
    requires Core(mem, t) && top in t && top.level > 0 && i < NPTE && t1 == t - BelowFirst(t, top, i)
    ensures var c := Child(top, i);
            var t2 := t1 - Below(t1, c);
            && t2 == t - BelowFirst(t, top, i + 1)
            && PagesUnder(t1, top) == PagesUnder(t2, top) + PagesUnder(t1, c)
            && PagesUnder(t2, top) !! PagesUnder(t1, c)
            && top in t2 && t2[top] == t[top]
  {
    var c := Child(top, i);
    var t2 := t1 - Below(t1, c);
    forall k | k in t ensures Under(k, c) <==> k.level < top.level && Under(k, top) && Slot(k, top) == i {
      if k.level < top.level {
        UnderChildIff(k, top, i);
      }
    }
    assert t2 == t - BelowFirst(t, top, i + 1);
    forall p | p in PagesUnder(t1, c) ensures p in PagesUnder(t1, top) && p !in PagesUnder(t2, top) {
      var k :| k in t1 && Under(k, c) && t1[k] == p;
    }
    forall p | p in PagesUnder(t1, top) && p !in PagesUnder(t1, c) ensures p in PagesUnder(t2, top) {
      var k :| k in t1 && Under(k, top) && t1[k] == p;
      assert k in t2;
    }
  }

  // Without a child, nothing is reached through the entry.
  lemma NothingBelow(mem: Memory, t: Tree, c: Key)
    requires Core(mem, t) && c !in t && c.level <= 2
    ensures Below(t, c) == {} && PagesUnder(t, c) == {} && t - Below(t, c) == t
  {
    forall k | k in t ensures !Under(k, c) {
      if k.level <= c.level {
        AncestorInTree(t, k, c.level);
      }
    }
  }

  // pagetable[i] = 0, after the child is gone.
  lemma Unhook(mem: Memory, t: Tree, top: Key, i: nat)
    requires Core(mem, t) && LinkedBut(mem, t, {(top, i)}) && NoLeaves(mem, t)
    requires top in t && top.level > 0 && i < NPTE && Child(top, i) !in t
    ensures t[top] in mem
    ensures var mem' := mem[t[top] := SetPte(mem[t[top]], i, 0)];
            Core(mem', t) && LinkedBut(mem', t, {}) && NoLeaves(mem', t)
  {
    var mem' := mem[t[top] := SetPte(mem[t[top]], i, 0)];
    forall k, j | k in t && k.level > 0 && 0 <= j < NPTE ensures Linked(mem', t, k, j) {
      PteSetPte(mem[t[top]], i, 0, j);
      if (k, j) != (top, i) {
        assert Linked(mem, t, k, j);
      }
    }
  }

  // The table itself is all that is left under top.
  lemma OnlyTop(mem: Memory, t: Tree, top: Key, t1: Tree)
    requires Core(mem, t) && top in t && t1 == t - BelowFirst(t, top, NPTE)
    ensures top in t1 && t1 - {top} == t - Below(t, top) && PagesUnder(t1, top) == {t[top]}
    ensures forall k :: k in t1 && Under(k, top) ==> k == top
  {
    assert Under(top, top);
    forall k | k in t && Under(k, top) && k != top ensures k in BelowFirst(t, top, NPTE) {}
    assert t1 - {top} == t - Below(t, top);
  }

  lemma BelowNone(t: Tree, top: Key)
    ensures BelowFirst(t, top, 0) == {} && t - BelowFirst(t, top, 0) == t
  {
  }

  lemma NoLower(t: Tree, top: Key, i: nat)
    requires top.level == 0
    ensures BelowFirst(t, top, i + 1) == BelowFirst(t, top, i)
  {
  }

  lemma PagesInUse(km: Kmem, t: Tree, top: Key)
    requires forall p :: p in Tables(t) ==> p !in km.free
    ensures PagesUnder(t, top) !! km.Free() && PagesUnder(t, top) <= Tables(t)
    ensures top in t ==> t[top] in PagesUnder(t, top)
  {
  }

  lemma DropTop(mem: Memory, t: Tree, top: Key)
    requires Core(mem, t) && LinkedBut(mem, t, {}) && NoLeaves(mem, t) && top in t
    requires forall k :: k in t && Under(k, top) ==> k == top
    ensures Core(mem, t - {top}) && NoLeaves(mem, t - {top})
    ensures LinkedBut(mem, t - {top}, if top == ROOT then {} else {(Parent(top), top.prefix % NPTE)})
    ensures t[top] !in Tables(t - {top})
  {
    var t' := t - {top};
    forall k | k in t' && k.level < 2 ensures Parent(k) in t' {
      if Parent(k) == top {
        assert Under(k, top);
      }
    }
    forall k, i | k in t' && k.level > 0 && 0 <= i < NPTE && !(k == Parent(top) && i == top.prefix % NPTE)
      ensures Linked(mem, t', k, i)
    {
      assert Linked(mem, t, k, i);
      ParentOfChild(k, i);
    }
  }

  lemma CoreUntouched(mem: Memory, mem': Memory, t: Tree, loose: set<(Key, nat)>)
    requires Core(mem, t) && LinkedBut(mem, t, loose) && NoLeaves(mem, t)
    requires MemOk(mem') && mem.Keys == mem'.Keys && forall p :: p in Tables(t) && p in mem ==> mem'[p] == mem[p]
    ensures Core(mem', t) && LinkedBut(mem', t, loose) && NoLeaves(mem', t)
  {
    forall k | k in t ensures t[k] in Tables(t) {}
    forall k, i | k in t && k.level > 0 && 0 <= i < NPTE && (k, i) !in loose ensures Linked(mem', t, k, i) {
      assert Linked(mem, t, k, i);
    }
  }

  lemma Subset(t: Tree, gone: set<Key>)
    ensures Tables(t - gone) <= Tables(t)
  {
  }

  // The recursive step of freewalk: the child is freed, its entry cleared.
  method FreeChild(km: Kmem, pagetable: nat, i: nat, child: nat, ghost top: Key, ghost t: Tree,
                   ghost m0: Memory, ghost all: set<nat>)
    requires State(km, t, {}) && top in t && t[top] == pagetable && top.level > 0 && i < NPTE
    requires Child(top, i) in t && child == t[Child(top, i)]
    requires SamePages(m0, km.mem, all) && PagesUnder(t, Child(top, i)) <= all && pagetable in all
    modifies km
    ensures State(km, t - Below(t, Child(top, i)), {})
    ensures km.Free() == old(km.Free()) + PagesUnder(t, Child(top, i))
    ensures SamePages(m0, km.mem, all)
    decreases top.level, 0
  {
    hide Core, LinkedBut, NoLeaves, Slot, Kalloc.Chain, Pte, Linked, BelowFirst, Tables, PagesUnder;
    assert Child(top, i).level <= 1 by { assert GoodKey(top) by { EntryHome(km.mem, t, top); } }
    ghost var c := Child(top, i);
    ghost var t' := t - Below(t, c);
    FreeWalk(km, child, c, t);
    ParentOfChild(top, i);
    assert c.prefix % NPTE == i;
    assert c != ROOT && {(Parent(c), c.prefix % NPTE)} == {(top, i)};
    assert !Under(top, c) && Under(c, c);
    assert top in t' && c !in t';
    Unhook(km.mem, t', top, i);
    assert pagetable in Tables(t') && pagetable in km.mem by { EntryHome(km.mem, t', top); }
    km.Store(pagetable, SetPte(km.mem[pagetable], i, 0));
  }

  lemma EntryHome(mem: Memory, t: Tree, k: Key)
    requires Core(mem, t) && k in t
    ensures t[k] in mem && t[k] in Tables(t) && GoodKey(k)
  {
  }

  // freewalk: every table at or below top is freed, once; what the entry that
  // led to top now holds is the caller's concern.
  method FreeWalk(km: Kmem, pagetable: nat, ghost top: Key, ghost t: Tree)
    requires State(km, t, {}) && top in t && t[top] == pagetable
    modifies km
    ensures State(km, t - Below(t, top), if top == ROOT then {} else {(Parent(top), top.prefix % NPTE)})
    ensures km.Free() == old(km.Free()) + PagesUnder(t, top) && old(km.Free()) !! PagesUnder(t, top)
    ensures SamePages(old(km.mem), km.mem, PagesUnder(t, top))
    decreases top.level, 1
  {
    hide Core, LinkedBut, NoLeaves, Under, Slot, Frame, IsPointer, IsValid, Kalloc.Chain, Pte, Linked, SamePages,
         BelowFirst, Tables, PagesUnder, Below;
    ghost var t1, m0, all := t, km.mem, PagesUnder(t, top);
    BelowNone(t, top);
    NoChange(m0);
    PagesInUse(km, t, top);

    var i := 0;
    while i < NPTE
      invariant 0 <= i <= NPTE && t1 == t - BelowFirst(t, top, i) && top in t1 && t1[top] == pagetable
      invariant State(km, t1, {})
      invariant PagesUnder(t1, top) <= all && km.Free() == old(km.Free()) + (all - PagesUnder(t1, top))
      invariant SamePages(m0, km.mem, all)
    {
      EntryFacts(km.mem, t1, top, i);
      var pte := Pte(km.mem[pagetable], i);
      if top.level > 0 {
        Peel(m0, t, top, i, t1);
      }
      if IsValid(pte) && IsPointer(pte) {
        FreeChild(km, pagetable, i, Frame(pte), top, t1, m0, all);
        t1 := t1 - Below(t1, Child(top, i));
      } else if IsValid(pte) {
        assert false;
      } else if top.level > 0 {
        NothingBelow(km.mem, t1, Child(top, i));
      } else {
        NoLower(t, top, i);
      }
      i := i + 1;
    }
    OnlyTop(m0, t, top, t1);
    DropTop(km.mem, t1, top);
    EntryFacts(km.mem, t1, top, 0);
    ghost var before := km.mem;

    var ok := km.Kfree(pagetable);
    CoreUntouched(before, km.mem, t1 - {top}, if top == ROOT then {} else {(Parent(top), top.prefix % NPTE)});
    Subset(t1, {top});
    LastFree(m0, before, km.mem, all, pagetable);
  }

  lemma LastFree(m0: Memory, mem: Memory, mem': Memory, all: set<nat>, p: nat)
    requires SamePages(m0, mem, all) && mem.Keys == mem'.Keys && p in all
    requires forall q :: q in mem' && q != p ==> mem'[q] == mem[q]
    ensures SamePages(m0, mem', all)
  {
  }

  // ----------------------------------------------------------------- uvmfree

  // Every mapping is one of the first n page numbers, and a leaf.
  ghost predicate OnlyUser(mem: Memory, t: Tree, n: nat)
    requires Shaped(mem, t)
  {
    forall v: nat :: if v < n then IsLeaf(Lookup(mem, t, v)) else Lookup(mem, t, v) == 0
  }

  lemma NoEntriesNoLeaves(mem: Memory, t: Tree)
    requires TreeOk(mem, t) && forall v: nat :: Lookup(mem, t, v) == 0
    ensures Core(mem, t) && LinkedBut(mem, t, {}) && NoLeaves(mem, t)
  {
    forall k, i {:trigger Pte(mem[t[k]], i)} | k in t && k.level == 0 && 0 <= i < NPTE
      ensures !IsValid(Pte(mem[t[k]], i))
    {
      var v := k.prefix * NPTE + i;
      assert v / NPTE == k.prefix && v % NPTE == i;
      assert Key(0, v / NPTE) == k && Lookup(mem, t, v) == Pte(mem[t[k]], i);
    }
  }

  lemma AllUnderRoot(mem: Memory, t: Tree)
    requires Core(mem, t)
    ensures PagesUnder(t, ROOT) == Tables(t) && t - Below(t, ROOT) == map[]
  {
    forall k | k in t ensures Under(k, ROOT) { UnderRoot(k); }
    forall p | p in Tables(t) ensures p in PagesUnder(t, ROOT) {
      var k :| k in t && t[k] == p;
      assert Under(k, ROOT);
    }
  }

  // uvmfree: every user frame and every table goes back to the allocator,
  // none of them twice.
  method UvmFree(km: Kmem, root: nat, sz: nat, ghost t: Tree)
    requires Space(km, root, t) && sz <= MAXVA
    requires OnlyUser(km.mem, t, RoundUp(sz) / PGSIZE) && Owned(km.mem, t, km.Free(), 0, RoundUp(sz) / PGSIZE)
    modifies km
    ensures km.Valid()
    ensures var leaves := old(Leaves(km.mem, t, 0, RoundUp(sz) / PGSIZE));
            && km.Free() == old(km.Free()) + leaves + Tables(t)
            && leaves !! Tables(t) && leaves !! old(km.Free()) && Tables(t) !! old(km.Free())
            && SamePages(old(km.mem), km.mem, leaves + Tables(t))
  {
    hide Core, LinkedBut, NoLeaves, Kalloc.Chain, Lookup, RoundUp, Linked, Frame, PagesUnder, Below;
    ghost var m0, n := km.mem, RoundUp(sz) / PGSIZE;
    ghost var leaves := Leaves(m0, t, 0, n);
    RoundedUp(0, sz);
    Apart(km, t, n);
    if sz > 0 {
      var ok := UvmUnmap(km, root, 0, RoundUp(sz) / PGSIZE, true, t);
    } else {
      SmallestSize();
    }
    NoEntriesNoLeaves(km.mem, t);
    AllUnderRoot(km.mem, t);
    FreeWalk(km, root, ROOT, t);
  }

  lemma SmallestSize()
    ensures RoundUp(0) == 0
  {
  }

  lemma Apart(km: Kmem, t: Tree, n: nat)
    requires km.Valid() && Shaped(km.mem, t) && Owned(km.mem, t, km.Free(), 0, n)
    requires forall p :: p in Tables(t) ==> p !in km.free
    ensures var leaves := Leaves(km.mem, t, 0, n);
            leaves !! Tables(t) && leaves !! km.Free() && Tables(t) !! km.Free()
  {
  }

  const TRAMPOLINE: nat := MAXVA - PGSIZE
  const TRAPFRAME: nat := TRAMPOLINE - PGSIZE

  // proc_freepagetable (proc.c): the trampoline and trapframe pages are
  // unmapped and kept, everything else is freed.
  method ProcFreePagetable(km: Kmem, root: nat, sz: nat, ghost t: Tree)
    requires Space(km, root, t) && sz <= TRAPFRAME
    requires Owned(km.mem, t, km.Free(), 0, RoundUp(sz) / PGSIZE)
    requires forall v: nat ::
               if v < RoundUp(sz) / PGSIZE || v * PGSIZE == TRAMPOLINE || v * PGSIZE == TRAPFRAME
               then IsLeaf(Lookup(km.mem, t, v)) else Lookup(km.mem, t, v) == 0
    modifies km
    ensures km.Valid()
    ensures var leaves := old(Leaves(km.mem, t, 0, RoundUp(sz) / PGSIZE));
            && km.Free() == old(km.Free()) + leaves + Tables(t)
            && leaves !! Tables(t) && leaves !! old(km.Free()) && Tables(t) !! old(km.Free())
            && SamePages(old(km.mem), km.mem, leaves + Tables(t))
  {
    hide Core, LinkedBut, NoLeaves, Kalloc.Chain, Lookup, RoundUp, Linked, Frame, SamePages, PagesUnder, Below,
         TreeOk, Shaped, MemOk, Leaves;
    ghost var m0, n := km.mem, RoundUp(sz) / PGSIZE;
    ghost var leaves := Leaves(m0, t, 0, n);
    UserBelow(sz);
    var ok := UvmUnmap(km, root, TRAMPOLINE, 1, false, t);
    ghost var m1 := km.mem;
    ok := UvmUnmap(km, root, TRAPFRAME, 1, false, t);
    ghost var m2 := km.mem;
    assert forall v: nat :: v < n ==> Lookup(km.mem, t, v) == Lookup(m0, t, v);
    SameLeaves(m0, t, km.mem, t, 0, n);
    UvmFree(km, root, sz, t);
    assert Tables(t) + {} == Tables(t);
    WiderSame(m0, m1, Tables(t), leaves + Tables(t));
    SameSteps(m0, m1, m2, leaves + Tables(t), Tables(t));
    SameSteps(m0, m2, km.mem, leaves + Tables(t), leaves + Tables(t));
  }

  lemma WiderSame(mem: Memory, mem': Memory, changed: set<nat>, more: set<nat>)
    requires SamePages(mem, mem', changed) && changed <= more
    ensures SamePages(mem, mem', more)
  {
  }

  lemma UserBelow(sz: nat)
    requires sz <= TRAPFRAME
    ensures RoundUp(sz) / PGSIZE <= TRAPFRAME / PGSIZE && RoundUp(sz) <= TRAPFRAME
  {
  }
}

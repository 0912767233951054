// All address spaces of the machine together: the free list, the tables and
// user pages of each address space, and the pages the kernel has taken for
// itself divide physical memory among them, whatever is done with them.
module Spaces {
  import opened Sv39
  import opened Kalloc
  import opened Vm
  import opened VmFree
  import VmCopy

  // p->pagetable and p->sz of a process, if it has them.
  datatype Entry = Unused | InUse(root: nat, sz: nat)

  function Count(sz: nat): nat { RoundUp(sz) / PGSIZE }

  predicate High(v: nat) { v * PGSIZE == TRAMPOLINE || v * PGSIZE == TRAPFRAME }

  // One address space: the pages below sz are mapped, each to a page of its
  // own, and above them only the trampoline and the trapframe.
  ghost predicate Good(mem: Memory, free: set<nat>, e: Entry, t: Tree) {
    e.InUse? ==>
      && e.sz <= TRAPFRAME && Shaped(mem, t) && TreeOk(mem, t) && t[ROOT] == e.root
      && Tables(t) !! free && Owned(mem, t, free, 0, Count(e.sz))
      && forall v: nat ::
           if v < Count(e.sz) then IsLeaf(Lookup(mem, t, v))
           else if High(v) then HighEntry(Lookup(mem, t, v), v)
           else Lookup(mem, t, v) == 0
  }

  // The entries of the trampoline and the trapframe: valid, and readable and
  // executable, or readable and writable, but not for the user.
  predicate HighEntry(pte: nat, v: nat) {
    IsLeaf(pte) && Flags(pte) == if v * PGSIZE == TRAMPOLINE then 1 + 2 + 8 else 1 + 2 + 4
  }

  // User memory ends below the trapframe: no system call can be made to copy
  // from or to the pages there.
  lemma HighRefused(mem: Memory, free: set<nat>, e: Entry, t: Tree, va: nat)
    requires Good(mem, free, e, t) && e.InUse? && va >= TRAPFRAME
    ensures !VmCopy.Accessible(mem, t, va)
  {
    hide Lookup, Shaped, TreeOk, Owned, Frame, Flags, IsLeaf, IsValid, IsUser;
    var v := va / PGSIZE;
    SmallestSize();
    HighAbove(e.sz);
    assert if High(v) then HighEntry(Lookup(mem, t, v), v) else Lookup(mem, t, v) == 0;
    BitsOfFlags(Lookup(mem, t, v));
    NoEntry();
  }

  lemma NoEntry()
    ensures !IsValid(0)
  {
  }

  // The pages an address space consists of.
  ghost function Pages(mem: Memory, e: Entry, t: Tree): set<nat> {
    if e.InUse? && Shaped(mem, t) then Tables(t) + Leaves(mem, t, 0, Count(e.sz)) else {}
  }

  // Nothing has happened to an address space: neither its entries nor its bytes.
  ghost predicate Intact(mem: Memory, mem': Memory, e: Entry, t: Tree) {
    e.InUse? ==>
      && Shaped(mem, t) && Shaped(mem', t)
      && (forall v: nat :: Lookup(mem', t, v) == Lookup(mem, t, v))
      && (forall p :: p in Pages(mem, e, t) ==> p in mem && p in mem' && mem'[p] == mem[p])
  }

  // The first n pages of an address space are the same, with the same bytes.
  ghost predicate SameUser(mem: Memory, t: Tree, mem': Memory, t': Tree, n: nat) {
    && Shaped(mem, t) && Shaped(mem', t')
    && forall v: nat :: v < n ==>
         var e := Lookup(mem, t, v);
         Lookup(mem', t', v) == e && Frame(e) in mem && Frame(e) in mem' && mem'[Frame(e)] == mem[Frame(e)]
  }

  ghost predicate Partition(mem: Memory, free: set<nat>, procs: seq<Entry>, trees: seq<Tree>, kernel: set<nat>) {
    && |procs| == |trees| && MemOk(mem)
    && (forall i :: 0 <= i < |procs| ==> Good(mem, free, procs[i], trees[i]))
    && (forall i :: 0 <= i < |procs| ==> Pages(mem, procs[i], trees[i]) !! free + kernel)
    && (forall i, j :: 0 <= i < j < |procs| ==> Pages(mem, procs[i], trees[i]) !! Pages(mem, procs[j], trees[j]))
    && free !! kernel && free <= mem.Keys && kernel <= mem.Keys
    && (forall i :: 0 <= i < |procs| ==> Pages(mem, procs[i], trees[i]) <= mem.Keys)
    && (forall p :: p in mem ==> p in free || p in kernel || Belongs(mem, procs, trees, p))
  }

  ghost predicate Belongs(mem: Memory, procs: seq<Entry>, trees: seq<Tree>, p: nat)
    requires |procs| == |trees|
  {
    exists i :: 0 <= i < |procs| && p in Pages(mem, procs[i], trees[i])
  }

  // ------------------------------------------------------ the common argument

  // An address space stands aside while others change.
  lemma StandsAside(mem: Memory, free: set<nat>, mem': Memory, free': set<nat>, changed: set<nat>, e: Entry, t: Tree)
    requires Good(mem, free, e, t) && MemOk(mem') && SamePages(mem, mem', changed)
    requires Pages(mem, e, t) !! changed && Pages(mem, e, t) !! free'
    ensures Good(mem', free', e, t) && Intact(mem, mem', e, t) && Pages(mem', e, t) == Pages(mem, e, t)
    ensures Pages(mem, e, t) <= mem.Keys
  {
    hide Lookup, Frame, IsLeaf, RoundUp, High, TreeOk;
    if e.InUse? {
      forall k | k in t ensures t[k] in Tables(t) {}
      UntouchedTables(mem, mem', t) by { TreeOpen(mem, t); }
      SameLeaves(mem, t, mem', t, 0, Count(e.sz));
      LeavesIn(mem, t, free, Count(e.sz));
    }
  }

  lemma TreeOpen(mem: Memory, t: Tree)
    requires TreeOk(mem, t)
    ensures MemOk(mem) && Shaped(mem, t) && forall p :: p in Tables(t) ==> p in mem
  {
  }

  lemma LeavesIn(mem: Memory, t: Tree, free: set<nat>, n: nat)
    requires Shaped(mem, t) && Owned(mem, t, free, 0, n)
    ensures Leaves(mem, t, 0, n) <= mem.Keys && Leaves(mem, t, 0, n) !! free && Leaves(mem, t, 0, n) !! Tables(t)
    ensures Tables(t) <= mem.Keys
  {
  }

  // An operation on address space i that takes pages only from the free list
  // and from what i had, and gives them only back there, keeps the partition.
  lemma Replace(mem: Memory, free: set<nat>, mem': Memory, free': set<nat>, procs: seq<Entry>, trees: seq<Tree>,
                kernel: set<nat>, i: nat, e: Entry, t: Tree)
    requires Partition(mem, free, procs, trees, kernel) && i < |procs| && MemOk(mem')
    requires SamePages(mem, mem', free + Pages(mem, procs[i], trees[i]))
    requires Good(mem', free', e, t) && Pages(mem', e, t) !! free'
    requires free' + Pages(mem', e, t) == free + Pages(mem, procs[i], trees[i])
    ensures Partition(mem', free', procs[i := e], trees[i := t], kernel)
    ensures forall j :: 0 <= j < |procs| && j != i ==> Intact(mem, mem', procs[j], trees[j])
  {
    hide Good, Pages, Intact, MemOk;
    var procs', trees' := procs[i := e], trees[i := t];
    forall j | 0 <= j < |procs| && j != i
      ensures Good(mem', free', procs[j], trees[j]) && Intact(mem, mem', procs[j], trees[j])
      ensures Pages(mem', procs[j], trees[j]) == Pages(mem, procs[j], trees[j])
      ensures Pages(mem', procs[j], trees[j]) !! free' + Pages(mem', e, t)
    {
      assert Pages(mem, procs[j], trees[j]) !! Pages(mem, procs[i], trees[i]) by {
        assert if i < j then true else j < i;
      }
      StandsAside(mem, free, mem', free', free + Pages(mem, procs[i], trees[i]), procs[j], trees[j]);
    }
    forall p | p in mem' ensures p in free' || p in kernel || Belongs(mem', procs', trees', p) {
      if p in Pages(mem', e, t) {
        assert p in Pages(mem', procs'[i], trees'[i]);
      } else if p !in free' && p !in kernel {
        var j :| 0 <= j < |procs| && p in Pages(mem, procs[j], trees[j]);
        assert p in Pages(mem', procs'[j], trees'[j]);
      }
    }
  }

  // A page goes from the free list to the kernel, or back.
  lemma Transfer(mem: Memory, free: set<nat>, mem': Memory, free': set<nat>, procs: seq<Entry>, trees: seq<Tree>,
                 kernel: set<nat>, kernel': set<nat>, p: nat)
    requires Partition(mem, free, procs, trees, kernel) && MemOk(mem')
    requires SamePages(mem, mem', {p}) && p in free + kernel
    requires free' + kernel' == free + kernel && free' !! kernel'
    ensures Partition(mem', free', procs, trees, kernel')
    ensures forall j :: 0 <= j < |procs| ==> Intact(mem, mem', procs[j], trees[j])
  {
    hide Good, Pages, Intact, MemOk;
    forall j | 0 <= j < |procs|
      ensures Good(mem', free', procs[j], trees[j]) && Intact(mem, mem', procs[j], trees[j])
      ensures Pages(mem', procs[j], trees[j]) == Pages(mem, procs[j], trees[j])
    {
      StandsAside(mem, free, mem', free', {p}, procs[j], trees[j]);
    }
    forall q | q in mem' ensures q in free' || q in kernel' || Belongs(mem', procs, trees, q) {
      if q !in free' && q !in kernel' {
        var j :| 0 <= j < |procs| && q in Pages(mem, procs[j], trees[j]);
        assert q in Pages(mem', procs[j], trees[j]);
      }
    }
  }

  // ------------------------------------------------- the address space itself

  lemma LeavesSplit(mem: Memory, t: Tree, lo: nat, mid: nat, hi: nat)
    requires Shaped(mem, t) && lo <= mid <= hi
    ensures Leaves(mem, t, lo, hi) == Leaves(mem, t, lo, mid) + Leaves(mem, t, mid, hi)
  {
    hide Lookup, Frame;
  }

  lemma HighAbove(sz: nat)
    requires sz <= TRAPFRAME
    ensures forall v: nat :: v < Count(sz) ==> !High(v)
    ensures Count(sz) * PGSIZE <= TRAPFRAME
  {
    UserBelow(sz);
  }

  // After growing from sz to sz'.
  lemma GrownGood(m0: Memory, t: Tree, free0: set<nat>, mem: Memory, t': Tree, free: set<nat>, root: nat, sz: nat,
                  sz': nat,
                  flags: seq<nat>, contents: seq<Page>)
    requires Good(m0, free0, InUse(root, sz), t) && sz' <= TRAPFRAME && Count(sz') == Count(sz) + |flags|
    requires TreeOk(mem, t') && Shaped(mem, t') && t'[ROOT] == root && Tables(t') !! free
    requires Grown(m0, t, free0, mem, t', free, Count(sz), flags, contents)
    ensures Good(mem, free, InUse(root, sz'), t')
    ensures Pages(mem, InUse(root, sz'), t') !! free
    ensures free + Pages(mem, InUse(root, sz'), t') == free0 + Pages(m0, InUse(root, sz), t)
    ensures SameUser(m0, t, mem, t', Count(sz))
  {
    hide Lookup, Frame, RoundUp, TreeOk, IsLeaf, High;
    var n, n' := Count(sz), Count(sz');
    HighAbove(sz');
    LeafValid();
    SameLeaves(m0, t, mem, t', 0, n);
    LeavesSplit(mem, t', 0, n, n');
    GrownWithin(m0, t, free0, mem, t', free, n, flags, contents);
    LeavesIn(m0, t, free0, n);
    assert Owned(mem, t', free, 0, n');
    LeavesIn(mem, t', free, n');
  }

  lemma LeafValid()
    ensures forall e: nat :: IsLeaf(e) ==> IsValid(e)
  {
  }

  lemma GrownWithin(m0: Memory, t0: Tree, free0: set<nat>, mem: Memory, t: Tree, free: set<nat>,
                    lo: nat, flags: seq<nat>, contents: seq<Page>)
    requires Shaped(m0, t0) && Shaped(mem, t) && Grown(m0, t0, free0, mem, t, free, lo, flags, contents)
    ensures Tables(t) <= free0 + Tables(t0) && free <= free0
    ensures forall v: nat :: lo <= v < lo + |flags| ==> Frame(Lookup(mem, t, v)) in free0
  {
  }

  // After a failure that left the mappings as they were.
  lemma SameGood(m0: Memory, t: Tree, free0: set<nat>, mem: Memory, t': Tree, free: set<nat>, root: nat, sz: nat)
    requires Good(m0, free0, InUse(root, sz), t)
    requires TreeOk(mem, t') && Shaped(mem, t') && t'[ROOT] == root && Tables(t') !! free
    requires forall v: nat :: Lookup(mem, t', v) == Lookup(m0, t, v)
    requires free + Tables(t') == free0 + Tables(t) && SamePages(m0, mem, free0 + Tables(t))
    ensures Good(mem, free, InUse(root, sz), t')
    ensures Pages(mem, InUse(root, sz), t') !! free
    ensures free + Pages(mem, InUse(root, sz), t') == free0 + Pages(m0, InUse(root, sz), t)
    ensures SameUser(m0, t, mem, t', Count(sz))
  {
    hide Lookup, Frame, RoundUp, TreeOk, IsLeaf, High;
    LeafValid();
    SameLeaves(m0, t, mem, t', 0, Count(sz));
    LeavesIn(m0, t, free0, Count(sz));
    assert Owned(mem, t', free, 0, Count(sz));
    LeavesIn(mem, t', free, Count(sz));
  }

  // After shrinking from sz to sz'.
  lemma ShrunkGood(m0: Memory, t: Tree, free0: set<nat>, mem: Memory, free: set<nat>, root: nat, sz: nat, sz': nat)
    requires Good(m0, free0, InUse(root, sz), t) && sz' <= sz && Count(sz') <= Count(sz)
    requires TreeOk(mem, t) && Shaped(mem, t) && Tables(t) !! free
    requires Unmaps(m0, mem, t, Count(sz'), Count(sz) - Count(sz'))
    requires free == free0 + Leaves(m0, t, Count(sz'), Count(sz))
    requires SamePages(m0, mem, Tables(t) + Leaves(m0, t, Count(sz'), Count(sz)))
    ensures Good(mem, free, InUse(root, sz'), t)
    ensures Pages(mem, InUse(root, sz'), t) !! free
    ensures free + Pages(mem, InUse(root, sz'), t) == free0 + Pages(m0, InUse(root, sz), t)
    ensures SameUser(m0, t, mem, t, Count(sz'))
  {
    hide Lookup, Frame, RoundUp, TreeOk, IsLeaf, High;
    var n, n' := Count(sz), Count(sz');
    HighAbove(sz);
    LeafValid();
    SameLeaves(m0, t, mem, t, 0, n');
    LeavesSplit(m0, t, 0, n', n);
    LeavesIn(m0, t, free0, n);
    KeptApart(m0, t, free0, n', n);
    assert Owned(mem, t, free, 0, n');
    LeavesIn(mem, t, free, n');
  }

  lemma KeptApart(mem: Memory, t: Tree, free: set<nat>, mid: nat, n: nat)
    requires Shaped(mem, t) && Owned(mem, t, free, 0, n) && mid <= n
    requires forall v: nat :: v < n ==> IsValid(Lookup(mem, t, v))
    ensures forall v: nat :: v < mid ==> Frame(Lookup(mem, t, v)) !in Leaves(mem, t, mid, n)
  {
    hide Lookup, Frame;
  }

  // A page of one address space is not free, nor a table of another.
  lemma OwnPage(mem: Memory, free: set<nat>, e: Entry, t: Tree, tables: set<nat>, v: nat)
    requires Good(mem, free, e, t) && e.InUse? && v < Count(e.sz) && Pages(mem, e, t) !! tables
    ensures Shaped(mem, t) && IsLeaf(Lookup(mem, t, v)) && Frame(Lookup(mem, t, v)) in mem
    ensures Frame(Lookup(mem, t, v)) !in free + tables
  {
    hide Lookup, Frame, RoundUp, TreeOk, IsLeaf, High;
    LeafValid();
    assert Frame(Lookup(mem, t, v)) in Leaves(mem, t, 0, Count(e.sz));
  }

  lemma NothingLow(mem: Memory, free: set<nat>, e: Entry, t: Tree, n: nat)
    requires Good(mem, free, e, t) && e.InUse? && e.sz == 0 && n * PGSIZE <= TRAPFRAME
    ensures Shaped(mem, t) && forall v: nat :: v < n ==> Lookup(mem, t, v) == 0
  {
    hide Lookup, Owned, TreeOk, IsLeaf;
    NoCount();
    assert forall v: nat :: v < n ==> !High(v);
  }

  // The parent of a fork can be copied.
  lemma ParentCopies(mem: Memory, free: set<nat>, procs: seq<Entry>, trees: seq<Tree>, kernel: set<nat>, i: nat, j: nat)
    requires Partition(mem, free, procs, trees, kernel) && i < |procs| && j < |procs| && i != j
    requires procs[i].InUse? && procs[j].InUse? && procs[j].sz == 0
    requires Shaped(mem, trees[i]) && Shaped(mem, trees[j])
    ensures Tables(trees[i]) !! Tables(trees[j]) && procs[i].sz <= TRAPFRAME
    ensures Copyable(mem, trees[i], Count(procs[i].sz), free + Tables(trees[j]))
    ensures forall v: nat :: v < Count(procs[i].sz) ==> Lookup(mem, trees[j], v) == 0
    ensures forall v: nat :: v < Count(procs[i].sz) ==> IsValid(Lookup(mem, trees[i], v))
  {
    hide Lookup, Frame, RoundUp, TreeOk, IsLeaf, High, Owned, Pages, Good, Count, Leaves;
    assert procs[i].sz <= TRAPFRAME by { SmallSize(mem, free, procs[i], trees[i]); }
    HighAbove(procs[i].sz);
    LeafValid();
    NothingLow(mem, free, procs[j], trees[j], Count(procs[i].sz));
    assert Pages(mem, procs[i], trees[i]) !! Pages(mem, procs[j], trees[j]) by {
      assert i < j || j < i;
    }
    PartOfPages(mem, procs[i], trees[i], 0);
    PartOfPages(mem, procs[j], trees[j], 0);
    forall v: nat | v < Count(procs[i].sz)
      ensures var e := Lookup(mem, trees[i], v);
              IsLeaf(e) && Frame(e) in mem && Frame(e) !in free + Tables(trees[j])
    {
      OwnPage(mem, free, procs[i], trees[i], Tables(trees[j]), v);
    }
  }

  lemma SmallSize(mem: Memory, free: set<nat>, e: Entry, t: Tree)
    requires Good(mem, free, e, t) && e.InUse?
    ensures e.sz <= TRAPFRAME
  {
  }

  lemma NoCount()
    ensures Count(0) == 0
  {
    SmallestSize();
  }

  // ------------------------------------------------------------ new page tables

  // uvmcreate: an empty page table, 0 when no page is free.
  method UvmCreate(km: Kmem) returns (root: nat, ghost t: Tree)
    requires km.Valid()
    modifies km
    ensures km.Valid()
    ensures root == 0 <==> old(km.free) == []
    ensures root == 0 ==> km.mem == old(km.mem) && km.free == old(km.free)
    ensures root != 0 ==> |old(km.free)| == |km.free| + 1
    ensures root != 0 ==> Space(km, root, t) && (forall v: nat :: Lookup(km.mem, t, v) == 0)
    ensures root != 0 ==> km.Free() + Tables(t) == old(km.Free())
    ensures SamePages(old(km.mem), km.mem, old(km.Free()))
  {
    hide Kalloc.Chain;
    root := km.Kalloc();
    t := map[ROOT := root];
    if root != 0 {
      assert old(km.Free()) == km.Free() + {root};
      km.Store(root, Filled(0));
      NewTree(km.mem, root);
    }
  }

  // proc_pagetable (proc.c): the trampoline and the trapframe are mapped; 0,
  // with every page back on the free list, when memory runs out.
  method ProcPagetable(km: Kmem, trampoline: nat, trapframe: nat) returns (root: nat, ghost t: Tree)
    requires km.Valid() && trampoline % PGSIZE == 0 && trampoline < PHYSTOP
    requires trapframe % PGSIZE == 0 && trapframe < PHYSTOP
    modifies km
    ensures km.Valid()
    ensures root == 0 ==> km.Free() == old(km.Free()) && |old(km.free)| < 5
    ensures root != 0 ==> Good(km.mem, km.Free(), InUse(root, 0), t) && km.Free() + Tables(t) == old(km.Free())
    ensures root != 0 ==> forall va: nat :: !VmCopy.Accessible(km.mem, t, va)
    ensures root != 0 ==> Lookup(km.mem, t, TRAMPOLINE / PGSIZE) == Sv39.Entry(trampoline, PTE_V + PTE_R + PTE_X)
    ensures root != 0 ==> Lookup(km.mem, t, TRAPFRAME / PGSIZE) == Sv39.Entry(trapframe, PTE_V + PTE_R + PTE_W)
    ensures SamePages(old(km.mem), km.mem, old(km.Free()))
  {
    hide Kalloc.Chain, Lookup, TreeOk, Shaped, SamePages, Frame, Flags, Sv39.Entry, Owned, Leaves, Tables, WithV;
    ghost var m0, free0 := km.mem, km.Free();
    root, t := UvmCreate(km);
    if root == 0 {
      return;
    }
    HighEntries(trampoline, trapframe);
    ghost var m1, all := km.mem, km.Free() + Tables(t);
    var ok;
    ok, t := MapOne(km, root, TRAMPOLINE, trampoline, PTE_R + PTE_X, t);
    SameSteps(m0, m1, km.mem, free0, all);
    if !ok {
      DropEmpty(km, root, t, m0, free0);
      root := 0;
      return;
    }
    ghost var m2 := km.mem;
    ok, t := MapOne(km, root, TRAPFRAME, trapframe, PTE_R + PTE_W, t);
    SameSteps(m0, m2, km.mem, free0, all);
    if !ok {
      ghost var m3 := km.mem;
      var done := UvmUnmap(km, root, TRAMPOLINE, 1, false, t);
      SameSteps(m0, m3, km.mem, free0, Tables(t) + {});
      DropEmpty(km, root, t, m0, free0);
      root := 0;
      return;
    }
    NewGood(km.mem, km.Free(), root, t, trampoline, trapframe);
    forall va: nat ensures !VmCopy.Accessible(km.mem, t, va) {
      NothingBelow(km.mem, km.Free(), root, t, va);
    }
  }

  lemma InPages(lo: nat, sz: nat, va: nat)
    requires lo * PGSIZE <= va < sz <= TRAPFRAME
    ensures lo <= va / PGSIZE < Count(sz) && va < MAXVA
  {
  }

  lemma NothingBelow(mem: Memory, free: set<nat>, root: nat, t: Tree, va: nat)
    requires Good(mem, free, InUse(root, 0), t)
    ensures !VmCopy.Accessible(mem, t, va)
  {
    hide Lookup, TreeOk, Shaped, Owned, Frame, Flags, IsLeaf, IsValid, IsUser;
    if va >= TRAPFRAME {
      HighRefused(mem, free, InUse(root, 0), t, va);
    } else {
      SmallestSize();
      assert Lookup(mem, t, va / PGSIZE) == 0;
      NoEntry();
    }
  }

  // uvmfree of an address space without entries.
  method DropEmpty(km: Kmem, root: nat, ghost t: Tree, ghost m0: Memory, ghost free0: set<nat>)
    requires Space(km, root, t) && forall v: nat :: Lookup(km.mem, t, v) == 0
    requires km.Free() + Tables(t) == free0 && SamePages(m0, km.mem, free0)
    modifies km
    ensures km.Valid() && km.Free() == free0 && SamePages(m0, km.mem, free0)
  {
    hide Kalloc.Chain, Lookup, TreeOk, Shaped, SamePages, Frame, RoundUp, Tables;
    SmallestSize();
    NoLeaves0(km.mem, t, km.Free());
    ghost var m1 := km.mem;
    UvmFree(km, root, 0, t);
    SameSteps(m0, m1, km.mem, free0, {} + Tables(t));
  }

  lemma NoLeaves0(mem: Memory, t: Tree, free: set<nat>)
    requires Shaped(mem, t)
    ensures Leaves(mem, t, 0, 0) == {} && Owned(mem, t, free, 0, 0)
  {
  }

  lemma HighEntries(trampoline: nat, trapframe: nat)
    requires trampoline % PGSIZE == 0 && trampoline < PHYSTOP && trapframe % PGSIZE == 0 && trapframe < PHYSTOP
    ensures WithV(PTE_R + PTE_X) == PTE_V + PTE_R + PTE_X && WithV(PTE_R + PTE_W) == PTE_V + PTE_R + PTE_W
    ensures HighEntry(Sv39.Entry(trampoline, PTE_V + PTE_R + PTE_X), TRAMPOLINE / PGSIZE)
    ensures HighEntry(Sv39.Entry(trapframe, PTE_V + PTE_R + PTE_W), TRAPFRAME / PGSIZE)
  {
    FrameOfEntry(trampoline, PTE_V + PTE_R + PTE_X);
    FrameOfEntry(trapframe, PTE_V + PTE_R + PTE_W);
  }

  lemma NewGood(mem: Memory, free: set<nat>, root: nat, t: Tree, trampoline: nat, trapframe: nat)
    requires trampoline % PGSIZE == 0 && trampoline < PHYSTOP && trapframe % PGSIZE == 0 && trapframe < PHYSTOP
    requires Shaped(mem, t) && TreeOk(mem, t) && t[ROOT] == root && Tables(t) !! free
    requires forall v: nat :: Lookup(mem, t, v) ==
               if v == TRAMPOLINE / PGSIZE then Sv39.Entry(trampoline, PTE_V + PTE_R + PTE_X)
               else if v == TRAPFRAME / PGSIZE then Sv39.Entry(trapframe, PTE_V + PTE_R + PTE_W) else 0
    ensures Good(mem, free, InUse(root, 0), t)
  {
    hide Lookup, Sv39.Entry, Frame, IsLeaf;
    HighEntries(trampoline, trapframe);
    SmallestSize();
    NoLeaves0(mem, t, free);
  }

  // -------------------------------------------------------------- the machine

  datatype Op =
    | Create(i: nat, trapframe: nat)
    | Grow(i: nat, sz: nat, xperm: nat)
    | Shrink(i: nat, sz: nat)
    | Copy(i: nat, j: nat)
    | Free(i: nat)
    | Take
    | Give(p: nat)

  class Machine {
    const km: Kmem
    const trampoline: nat
    var procs: seq<Entry>
    ghost var trees: seq<Tree>
    var kernel: set<nat>

    ghost predicate Valid()
      reads this, km
    {
      && km.Valid() && trampoline % PGSIZE == 0 && trampoline < PHYSTOP
      && Partition(km.mem, km.Free(), procs, trees, kernel)
    }

    // The address spaces other than i are as they were.
    twostate predicate Others(i: nat)
      reads this, km
    {
      && |procs| == old(|procs|) == |trees| == old(|trees|) && kernel == old(kernel)
      && forall j :: 0 <= j < |procs| && j != i ==>
           procs[j] == old(procs[j]) && trees[j] == old(trees[j]) && Intact(old(km.mem), km.mem, procs[j], trees[j])
    }

    // After kinit: all memory is free and there is no process.
    constructor (km: Kmem, trampoline: nat, n: nat)
      requires km.Valid() && km.Free() == km.mem.Keys && trampoline % PGSIZE == 0 && trampoline < PHYSTOP
      ensures Valid() && this.km == km && kernel == {} && procs == seq(n, _ => Unused)
    {
      this.km, this.trampoline := km, trampoline;
      procs, trees, kernel := seq(n, _ => Unused), seq(n, _ => map[]), {};
    }

    lemma Opened(i: nat)
      requires Valid() && i < |procs|
      ensures |procs| == |trees| && Good(km.mem, km.Free(), procs[i], trees[i])
      ensures procs[i].InUse? ==> Space(km, procs[i].root, trees[i])
      ensures procs[i].InUse? ==> Shaped(km.mem, trees[i]) && TreeOk(km.mem, trees[i]) && Tables(trees[i]) !! km.Free()
    {
      hide Lookup, Kalloc.Chain, RoundUp, Owned, High, IsLeaf;
    }

    lemma InKernel(p: nat)
      requires Valid() && p in kernel
      ensures p in km.mem && p !in km.Free() && p % PGSIZE == 0 && p < PHYSTOP
    {
    }

    // growproc for a positive count: uvmalloc.
    method Grow(i: nat, sz: nat, xperm: nat) returns (ok: bool)
      requires Valid() && i < |procs| && procs[i].InUse? && procs[i].sz < sz <= TRAPFRAME
      requires xperm in {0, PTE_W, PTE_X, PTE_W + PTE_X}
      modifies this, km
      ensures Valid() && Others(i)
      ensures procs[i] == old(procs[i]).(sz := if ok then sz else old(procs[i].sz))
      ensures SameUser(old(km.mem), old(trees[i]), km.mem, trees[i], Count(old(procs[i].sz)))
      ensures !ok ==> |old(km.free)| < 3 * (Count(sz) - Count(old(procs[i].sz)))
      ensures ok ==> forall va: nat :: Count(old(procs[i].sz)) * PGSIZE <= va < sz ==>
                VmCopy.Accessible(km.mem, trees[i], va)
    {
      hide Lookup, Kalloc.Chain, Shaped, TreeOk, Owned, SamePages, Leaves, Grown, Pages, Intact, SameUser, Repeat,
           RoundUp, Partition, IsLeaf;
      Opened(i);
      ghost var m0, free0, t := km.mem, km.Free(), trees[i];
      var e := procs[i];
      RoundedUp(e.sz, sz);
      HighAbove(sz);
      var r; ghost var t';
      r, t' := UvmAlloc(km, e.root, e.sz, sz, xperm, t);
      ok := r != 0;
      if ok {
        ghost var n := Count(sz) - Count(e.sz);
        GrownGood(m0, t, free0, km.mem, t', km.Free(), e.root, e.sz, sz,
                  Repeat<nat>(PTE_V + PTE_R + PTE_U + xperm, n), Repeat(Filled(0), n));
        GrownSame(m0, t, free0, km.mem, t', km.Free(), Count(e.sz),
                  Repeat<nat>(PTE_V + PTE_R + PTE_U + xperm, n), Repeat(Filled(0), n));
        forall va: nat | Count(e.sz) * PGSIZE <= va < sz ensures VmCopy.Accessible(km.mem, t', va) {
          InPages(Count(e.sz), sz, va);
          VmCopy.AllocAccessible(m0, t, free0, km.mem, t', km.Free(), Count(e.sz), n, xperm, Repeat(Filled(0), n), va);
        }
        e := e.(sz := sz);
      } else {
        SameGood(m0, t, free0, km.mem, t', km.Free(), e.root, e.sz);
      }
      PartOfPages(m0, procs[i], t, Count(procs[i].sz));
      WithinOwn(m0, km.mem, free0, procs[i], t, Tables(t));
      Replace(m0, free0, km.mem, km.Free(), procs, trees, kernel, i, e, t');
      procs, trees := procs[i := e], trees[i := t'];
    }

    // growproc for a negative count: uvmdealloc.
    method Shrink(i: nat, sz: nat)
      requires Valid() && i < |procs| && procs[i].InUse? && sz < procs[i].sz
      modifies this, km
      ensures Valid() && Others(i) && procs[i] == old(procs[i]).(sz := sz)
      ensures SameUser(old(km.mem), old(trees[i]), km.mem, trees[i], Count(sz))
    {
      hide Lookup, Kalloc.Chain, Shaped, TreeOk, SamePages, Leaves, Pages, Intact, SameUser, RoundUp, Unmaps,
           Partition, IsLeaf, Owned;
      Opened(i);
      ghost var m0, free0, t := km.mem, km.Free(), trees[i];
      var e := procs[i];
      RoundedUp(sz, e.sz);
      OwnedPart(m0, t, free0, Count(sz), Count(e.sz));
      var sz', _ := UvmDealloc(km, e.root, e.sz, sz, t);
      ShrunkGood(m0, t, free0, km.mem, km.Free(), e.root, e.sz, sz);
      PartOfPages(m0, e, t, Count(sz));
      WithinOwn(m0, km.mem, free0, e, t, Tables(t) + Leaves(m0, t, Count(sz), Count(e.sz)));
      Replace(m0, free0, km.mem, km.Free(), procs, trees, kernel, i, e.(sz := sz'), t);
      procs, trees := procs[i := e.(sz := sz')], trees[i := t];
    }

    // fork's uvmcopy, into the new and still empty address space j.
    method Copy(i: nat, j: nat) returns (ok: bool)
      requires Valid() && i < |procs| && j < |procs| && i != j
      requires procs[i].InUse? && procs[j].InUse? && procs[j].sz == 0
      modifies this, km
      ensures Valid() && Others(j)
      ensures procs[j] == old(procs[j]).(sz := if ok then procs[i].sz else 0)
      ensures ok ==> SameImage(km.mem, trees[i], trees[j], Count(procs[i].sz))
      ensures !ok ==> |old(km.free)| < 3 * Count(procs[i].sz)
    {
      hide Lookup, Kalloc.Chain, Shaped, TreeOk, Owned, SamePages, Leaves, Grown, Pages, Intact, SameUser, RoundUp,
           Copyable, FlagsOf, PagesOf, SameImage, Partition, Good;
      Opened(i);
      Opened(j);
      ghost var m0, free0, to, tn := km.mem, km.Free(), trees[i], trees[j];
      var e := procs[j];
      ParentCopies(m0, free0, procs, trees, kernel, i, j);
      NoCount();
      var r; ghost var t';
      r, t' := UvmCopy(km, procs[i].root, e.root, procs[i].sz, to, tn);
      ok := r.Done?;
      if ok {
        ghost var n := Count(procs[i].sz);
        GrownGood(m0, tn, free0, km.mem, t', km.Free(), e.root, 0, procs[i].sz, FlagsOf(m0, to, n), PagesOf(m0, to, n));
        CopyImage(m0, free0, to, tn, km.mem, km.Free(), t', n);
        e := e.(sz := procs[i].sz);
      } else {
        SameGood(m0, tn, free0, km.mem, t', km.Free(), e.root, 0);
      }
      PartOfPages(m0, procs[j], tn, 0);
      WithinOwn(m0, km.mem, free0, procs[j], tn, Tables(tn));
      Replace(m0, free0, km.mem, km.Free(), procs, trees, kernel, j, e, t');
      procs, trees := procs[j := e], trees[j := t'];
    }

    // proc_freepagetable.
    method Free(i: nat)
      requires Valid() && i < |procs| && procs[i].InUse?
      modifies this, km
      ensures Valid() && Others(i) && procs[i] == Unused
      ensures km.Free() == old(km.Free()) + old(Pages(km.mem, procs[i], trees[i]))
    {
      hide Lookup, Kalloc.Chain, Shaped, TreeOk, Owned, SamePages, Leaves, Intact, RoundUp, Good, Partition, IsLeaf,
           Frame;
      Opened(i);
      ghost var m0, free0, t := km.mem, km.Free(), trees[i];
      Freeable(m0, free0, procs[i], t);
      ProcFreePagetable(km, procs[i].root, procs[i].sz, t);
      NoneGood(km.mem, km.Free(), t);
      WithinOwn(m0, km.mem, free0, procs[i], t, Leaves(m0, t, 0, Count(procs[i].sz)) + Tables(t));
      Replace(m0, free0, km.mem, km.Free(), procs, trees, kernel, i, Unused, t);
      procs, trees := procs[i := Unused], trees[i := t];
    }

    // proc_pagetable, for a process whose trapframe the kernel has allocated.
    method Create(i: nat, trapframe: nat) returns (ok: bool)
      requires Valid() && i < |procs| && procs[i] == Unused && trapframe in kernel
      modifies this, km
      ensures Valid() && Others(i)
      ensures if ok then procs[i].InUse? && procs[i].sz == 0 else procs[i] == Unused && km.Free() == old(km.Free())
      ensures !ok ==> |old(km.free)| < 5
    {
      hide Lookup, Kalloc.Chain, Shaped, TreeOk, Owned, SamePages, Leaves, Intact, RoundUp, Good, Partition;
      ghost var m0, free0 := km.mem, km.Free();
      Opened(i);
      InKernel(trapframe);
      var root; ghost var t;
      root, t := ProcPagetable(km, trampoline, trapframe);
      ok := root != 0;
      ghost var t' := if ok then t else trees[i];
      NoneGood(km.mem, km.Free(), t');
      if ok {
        GoodOpen(km.mem, km.Free(), InUse(root, 0), t);
        NewPages(km.mem, root, t);
      }
      var e := if ok then InUse(root, 0) else Unused;
      assert free0 + {} == free0;
      WithinOwn(m0, km.mem, free0, Unused, t', {});
      Replace(m0, free0, km.mem, km.Free(), procs, trees, kernel, i, e, t');
      procs, trees := procs[i := e], trees[i := t'];
    }

    // kalloc by the kernel, for itself.
    method Take() returns (p: nat)
      requires Valid()
      modifies this`kernel, km
      ensures Valid() && procs == old(procs) && trees == old(trees)
      ensures kernel == if p == 0 then old(kernel) else old(kernel) + {p}
      ensures p != 0 ==> p in old(km.Free())
      ensures p == 0 <==> old(km.free) == []
      ensures forall j :: 0 <= j < |procs| ==> Intact(old(km.mem), km.mem, procs[j], trees[j])
    {
      hide Kalloc.Chain, Good, Pages, Intact;
      ghost var m0, free0 := km.mem, km.Free();
      p := km.Kalloc();
      if p == 0 {
        AllIntact(m0, free0, procs, trees, kernel);
        assert km.Free() == free0;
      } else {
        assert free0 == km.Free() + {p};
        Transfer(m0, free0, km.mem, km.Free(), procs, trees, kernel, kernel + {p}, p);
        kernel := kernel + {p};
      }
    }

    // kfree by the kernel, of what it has.
    method Give(p: nat)
      requires Valid() && p in kernel
      modifies this`kernel, km
      ensures Valid() && procs == old(procs) && trees == old(trees) && kernel == old(kernel) - {p}
      ensures forall j :: 0 <= j < |procs| ==> Intact(old(km.mem), km.mem, procs[j], trees[j])
    {
      hide Kalloc.Chain, Good, Pages, Intact;
      ghost var m0, free0 := km.mem, km.Free();
      assert p !in free0;
      var ok := km.Kfree(p);
      assert km.Free() == free0 + {p};
      Transfer(m0, free0, km.mem, km.Free(), procs, trees, kernel, kernel - {p}, p);
      kernel := kernel - {p};
    }

    // Any operation whose caller keeps to what it requires.
    predicate Allowed(op: Op)
      reads this
    {
      match op
      case Create(i, trapframe) => i < |procs| && procs[i] == Unused && trapframe in kernel
      case Grow(i, sz, xperm) =>
        && i < |procs| && procs[i].InUse? && procs[i].sz < sz <= TRAPFRAME
        && xperm in {0, PTE_W, PTE_X, PTE_W + PTE_X}
      case Shrink(i, sz) => i < |procs| && procs[i].InUse? && sz < procs[i].sz
      case Copy(i, j) =>
        i < |procs| && j < |procs| && i != j && procs[i].InUse? && procs[j].InUse? && procs[j].sz == 0
      case Free(i) => i < |procs| && procs[i].InUse?
      case Take => true
      case Give(p) => p in kernel
    }

    method Do(op: Op)
      requires Valid() && Allowed(op)
      modifies this, km
      ensures Valid()
    {
      hide Valid, Others, SameUser, Intact, Pages, SameImage;
      match op
      case Create(i, trapframe) => var _ := Create(i, trapframe);
      case Grow(i, sz, xperm) => var _ := Grow(i, sz, xperm);
      case Shrink(i, sz) => Shrink(i, sz);
      case Copy(i, j) => var _ := Copy(i, j);
      case Free(i) => Free(i);
      case Take => var _ := Take();
      case Give(p) => Give(p);
    }

    // Any number of operations, in any order: each may succeed, or fail where
    // memory runs out.
    method Run(ops: seq<Op>)
      requires Valid()
      modifies this, km
      ensures Valid()
    {
      hide Valid;
      for k := 0 to |ops|
        invariant Valid()
      {
        if Allowed(ops[k]) {
          Do(ops[k]);
        }
      }
    }
  }

  // The same bytes and flags behind the first n pages of two address spaces.
  ghost predicate SameImage(mem: Memory, t: Tree, t': Tree, n: nat) {
    && Shaped(mem, t) && Shaped(mem, t')
    && forall v: nat :: v < n ==>
         var e, e' := Lookup(mem, t, v), Lookup(mem, t', v);
         && Flags(e') == Flags(e) && Frame(e) != Frame(e')
         && Frame(e) in mem && Frame(e') in mem && mem[Frame(e')] == mem[Frame(e)]
  }

  lemma CopyImage(m0: Memory, free0: set<nat>, to: Tree, tn: Tree, mem: Memory, free: set<nat>, t': Tree, n: nat)
    requires Shaped(m0, to) && Shaped(m0, tn) && Copyable(m0, to, n, free0 + Tables(tn))
    requires forall v: nat :: v < n ==> IsValid(Lookup(m0, to, v))
    requires Shaped(mem, to) && Shaped(mem, t') && forall v: nat :: Lookup(mem, to, v) == Lookup(m0, to, v)
    requires (forall v: nat :: v < n ==> Frame(Lookup(m0, to, v)) in m0)
             && Grown(m0, tn, free0, mem, t', free, 0, FlagsOf(m0, to, n), PagesOf(m0, to, n))
    ensures SameImage(mem, to, t', n)
  {
    hide Lookup, Frame, IsLeaf, IsValid, Owned, Leaves, Flags, Tables, Shaped;
    forall v: nat | v < n
      ensures var e, e' := Lookup(mem, to, v), Lookup(mem, t', v);
              && Flags(e') == Flags(e) && Frame(e) != Frame(e')
              && Frame(e) in mem && Frame(e') in mem && mem[Frame(e')] == mem[Frame(e)]
    {
      var e := Lookup(m0, to, v);
      assert Frame(e) !in free0 + Tables(tn);
    }
  }

  lemma WithinOwn(mem: Memory, mem': Memory, free: set<nat>, e: Entry, t: Tree, own: set<nat>)
    requires SamePages(mem, mem', free + own) || SamePages(mem, mem', own)
    requires own <= Pages(mem, e, t)
    ensures SamePages(mem, mem', free + Pages(mem, e, t))
  {
  }

  lemma Freeable(mem: Memory, free: set<nat>, e: Entry, t: Tree)
    requires Good(mem, free, e, t) && e.InUse?
    ensures Shaped(mem, t) && e.sz <= TRAPFRAME && Owned(mem, t, free, 0, RoundUp(e.sz) / PGSIZE)
    ensures Pages(mem, e, t) == Tables(t) + Leaves(mem, t, 0, Count(e.sz))
    ensures forall v: nat ::
              if v < RoundUp(e.sz) / PGSIZE || v * PGSIZE == TRAMPOLINE || v * PGSIZE == TRAPFRAME
              then IsLeaf(Lookup(mem, t, v)) else Lookup(mem, t, v) == 0
  {
    hide Lookup, IsLeaf, Owned, RoundUp;
    assert forall v: nat :: High(v) <==> v * PGSIZE == TRAMPOLINE || v * PGSIZE == TRAPFRAME;
  }

  lemma NoneGood(mem: Memory, free: set<nat>, t: Tree)
    ensures Good(mem, free, Unused, t) && Pages(mem, Unused, t) == {}
  {
  }

  lemma GoodOpen(mem: Memory, free: set<nat>, e: Entry, t: Tree)
    requires Good(mem, free, e, t) && e.InUse?
    ensures Shaped(mem, t) && Tables(t) !! free
  {
  }

  lemma NewPages(mem: Memory, root: nat, t: Tree)
    requires Shaped(mem, t)
    ensures Pages(mem, InUse(root, 0), t) == Tables(t)
  {
    NoCount();
  }

  lemma AllIntact(mem: Memory, free: set<nat>, procs: seq<Entry>, trees: seq<Tree>, kernel: set<nat>)
    requires Partition(mem, free, procs, trees, kernel)
    ensures forall j :: 0 <= j < |procs| ==> Intact(mem, mem, procs[j], trees[j])
  {
    hide Lookup, TreeOk, Owned, High, IsLeaf, RoundUp;
  }

  lemma PartOfPages(mem: Memory, e: Entry, t: Tree, n: nat)
    requires e.InUse? && Shaped(mem, t) && n <= Count(e.sz)
    ensures Tables(t) <= Tables(t) + Leaves(mem, t, n, Count(e.sz)) <= Pages(mem, e, t)
  {
    LeavesSplit(mem, t, 0, n, Count(e.sz));
  }

  lemma OwnedPart(mem: Memory, t: Tree, free: set<nat>, lo: nat, hi: nat)
    requires Shaped(mem, t) && Owned(mem, t, free, 0, hi)
    ensures Owned(mem, t, free, lo, hi)
  {
  }
}

// The physical page allocator (kalloc.c): free pages are linked through their
// own first eight bytes.
module Kalloc {
  import opened Bytes
  import opened Sv39

  // memset(pa, b, PGSIZE)
  function Filled(b: Byte): Page { seq(PGSIZE, _ => b) }

  predicate IsPage(end: nat, p: nat) { p % PGSIZE == 0 && end <= p < PHYSTOP }

  function Next(page: Page): nat { Get(page, 0, 8) }

  // head starts a chain through exactly the pages of free, ended by 0.
  ghost predicate Chain(mem: Memory, head: nat, free: seq<nat>)
    decreases free
  {
    if free == [] then head == 0
    else
      && head == free[0] && 0 < head < LONG && head in mem && head !in free[1..]
      && Chain(mem, Next(mem[head]), free[1..])
  }

  lemma {:induction false} ChainUntouched(mem: Memory, head: nat, free: seq<nat>, p: nat, page: Page)
    requires Chain(mem, head, free) && p !in free
    ensures Chain(mem[p := page], head, free)
    decreases free
  {
    if free != [] {
      ChainUntouched(mem, Next(mem[head]), free[1..], p, page);
    }
  }

  lemma ChainPush(mem: Memory, head: nat, free: seq<nat>, p: nat, page: Page)
    requires Chain(mem, head, free) && p !in free && 0 < p < LONG
    ensures Chain(mem[p := Put(page, 0, 8, head)], p, [p] + free)
  {
    var mem' := mem[p := Put(page, 0, 8, head)];
    Pow256Long();
    GetPut(page, 0, 8, head);
    ChainUntouched(mem, head, free, p, mem'[p]);
    assert ([p] + free)[1..] == free;
  }

  lemma FirstPage(end: nat, start: nat)
    ensures RoundUp(start) % PGSIZE == 0 && start <= RoundUp(start)
    ensures forall q: nat :: IsPage(end, q) && start <= q ==> RoundUp(start) <= q
  {
  }

  lemma InRange(end: nat, p: nat)
    requires p % PGSIZE == 0 && end <= p && p + PGSIZE <= PHYSTOP
    ensures IsPage(end, p)
  {
  }

  lemma OnePageAhead(end: nat, p: nat, q: nat)
    requires p % PGSIZE == 0 && IsPage(end, q) && q < p + PGSIZE
    ensures q <= p
  {
  }

  class Kmem {
    const end: nat
    var mem: Memory
    var freelist: nat
    ghost var free: seq<nat>

    ghost predicate Valid()
      reads this
    {
      && KERNBASE <= end <= PHYSTOP
      && (forall p :: p in mem <==> IsPage(end, p))
      && Chain(mem, freelist, free)
    }

    ghost function Free(): set<nat>
      reads this
    {
      set p | p in free
    }

    // kinit: every page of memory above the kernel ends up free.
    constructor (end: nat, image: Memory)
      requires KERNBASE <= end <= PHYSTOP && forall p :: p in image <==> IsPage(end, p)
      ensures Valid() && this.end == end && Free() == mem.Keys
    {
      this.end, mem, freelist, free := end, image, 0, [];
      new;
      FreeRange(end, PHYSTOP);
      assert forall q: nat :: q in free <==> q in mem;
    }

    // Free every whole page of a range; none of them is free yet.
    method FreeRange(start: nat, stop: nat)
      requires Valid() && end <= start && stop <= PHYSTOP && forall q :: q in free ==> q < start || q >= stop
      modifies this
      ensures Valid() && mem.Keys == old(mem.Keys)
      ensures forall q: nat :: q in free <==> q in old(free) || (IsPage(end, q) && start <= q && q + PGSIZE <= stop)
    {
      hide Chain, Next, IsPage, RoundUp;
      var p := RoundUp(start);
      FirstPage(end, start);
      while p + PGSIZE <= stop
        invariant p % PGSIZE == 0 && start <= p
        invariant Valid() && mem.Keys == old(mem.Keys)
        invariant forall q: nat ::
                    q in free <==> q in old(free) || (IsPage(end, q) && start <= q < p && q + PGSIZE <= stop)
        decreases stop - p
      {
        var ok := Kfree(p);
        forall q: nat | IsPage(end, q) && q < p + PGSIZE ensures q <= p {
          OnePageAhead(end, p, q);
        }
        assert IsPage(end, p) by { InRange(end, p); }
        p := p + PGSIZE;
      }
    }

    // false is the panic for an address that is not a page of this memory.
    method Kfree(pa: nat) returns (ok: bool)
      requires Valid() && pa !in free
      modifies this
      ensures Valid() && (ok <==> IsPage(end, pa))
      ensures ok ==> free == [pa] + old(free) && mem.Keys == old(mem.Keys)
      ensures ok ==> forall p :: p in mem && p != pa ==> mem[p] == old(mem)[p]
      ensures !ok ==> free == old(free) && mem == old(mem)
    {
      if pa % PGSIZE != 0 || pa < end || pa >= PHYSTOP {
        return false;
      }
      ChainUntouched(mem, freelist, free, pa, Filled(1));
      mem := mem[pa := Filled(1)];
      ChainPush(mem, freelist, free, pa, mem[pa]);
      mem := mem[pa := Put(mem[pa], 0, 8, freelist)];
      freelist := pa;
      free := [pa] + free;
      return true;
    }

    // 0 when no page is free.
    method Kalloc() returns (pa: nat)
      requires Valid()
      modifies this
      ensures Valid() && (pa == 0 <==> old(free) == [])
      ensures pa == 0 ==> free == old(free) && mem == old(mem)
      ensures pa != 0 ==> old(free) == [pa] + free && pa in mem && pa !in free && mem == old(mem)[pa := Filled(5)]
    {
      pa := freelist;
      if pa != 0 {
        freelist := Next(mem[pa]);
        free := free[1..];
        ChainUntouched(mem, freelist, free, pa, Filled(5));
        mem := mem[pa := Filled(5)];
      }
    }

    // A write to a page that is in use.
    method Store(pa: nat, page: Page)
      requires Valid() && pa in mem && pa !in free
      modifies this`mem
      ensures Valid() && mem == old(mem)[pa := page]
    {
      ChainUntouched(mem, freelist, free, pa, page);
      mem := mem[pa := page];
    }
  }
}

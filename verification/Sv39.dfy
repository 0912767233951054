// Sv39 page tables (riscv.h; section 4.4 of the RISC-V privileged
// architecture): page-table entries in pages of memory, and the three-level
// tree of tables as a finite map from page numbers to entries.
module Sv39 {
  import opened Bytes

  const PGSIZE: nat := 4096
  const NPTE: nat := 512
  const KERNBASE: nat := 0x8000_0000
  const PHYSTOP: nat := KERNBASE + 128 * 1024 * 1024
  const MAXVA: nat := 0x40_0000_0000      // 1 << (9 + 9 + 9 + 12 - 1)
  const LONG: nat := 0x1_0000_0000_0000_0000

  type Page = b: seq<Byte> | |b| == PGSIZE witness Zeros(PGSIZE)

  // ----------------------------------------------------------------- entries

  const PTE_V: nat := 1
  const PTE_R: nat := 2
  const PTE_W: nat := 4
  const PTE_X: nat := 8
  const PTE_U: nat := 16

  // PA2PTE(pa) | flags.
  function Entry(pa: nat, flags: nat): nat { pa / PGSIZE * 1024 + flags }

  function Frame(pte: nat): nat { pte / 1024 * PGSIZE % LONG }

  function Flags(pte: nat): nat { pte % 1024 }

  predicate IsValid(pte: nat) { pte % 2 == 1 }

  predicate IsUser(pte: nat) { pte / PTE_U % 2 == 1 }

  // Neither readable, writable nor executable: a pointer to a table.
  predicate IsPointer(pte: nat) { pte / PTE_R % 8 == 0 }

  // flags | PTE_V.
  function WithV(flags: nat): (r: nat)
    ensures IsValid(r) && r / 2 == flags / 2
  {
    if flags % 2 == 1 then flags else flags + 1
  }

  // PTE2PA undoes PA2PTE, whatever the flags.
  lemma FrameOfEntry(pa: nat, flags: nat)
    requires pa % PGSIZE == 0 && pa < LONG && flags < 1024
    ensures Frame(Entry(pa, flags)) == pa && Flags(Entry(pa, flags)) == flags
    ensures Entry(pa, flags) < LONG
    ensures IsValid(Entry(pa, flags)) == IsValid(flags)
    ensures IsUser(Entry(pa, flags)) == IsUser(flags)
    ensures IsPointer(Entry(pa, flags)) == IsPointer(flags)
  {
    var q := pa / PGSIZE;
    var e := q * 1024 + flags;
    assert e / 1024 == q && e % 1024 == flags;
    assert q * PGSIZE == pa;
    EntryBits(q, flags);
  }

  lemma EntryBits(q: nat, flags: nat)
    ensures (q * 1024 + flags) % 2 == flags % 2
    ensures (q * 1024 + flags) / 16 % 2 == flags / 16 % 2
    ensures (q * 1024 + flags) / 2 % 8 == flags / 2 % 8
  {
    EvenPlus(q * 512, flags);
    assert (q * 1024 + flags) / 16 == q * 64 + flags / 16;
    EvenPlus(q * 32, flags / 16);
    assert (q * 1024 + flags) / 2 == q * 512 + flags / 2;
    EightPlus(q * 64, flags / 2);
  }

  // The flag bits of an entry, by the numbers of the architecture.
  lemma BitsOfFlags(pte: nat)
    ensures IsValid(pte) <==> Flags(pte) % 2 == 1
    ensures IsUser(pte) <==> Flags(pte) / 16 % 2 == 1
    ensures IsPointer(pte) <==> Flags(pte) / 2 % 8 == 0
  {
    assert pte == pte / 1024 * 1024 + pte % 1024;
    EntryBits(pte / 1024, pte % 1024);
  }

  lemma EvenPlus(x: nat, y: nat)
    ensures (2 * x + y) % 2 == y % 2
  {
  }

  lemma EightPlus(x: nat, y: nat)
    ensures (8 * x + y) % 8 == y % 8
  {
  }

  // Entry i of a page used as a table.
  function Pte(p: Page, i: nat): nat
    requires i < NPTE
  {
    Get(p, 8 * i, 8)
  }

  function SetPte(p: Page, i: nat, v: nat): Page
    requires i < NPTE
  {
    Put(p, 8 * i, 8, v)
  }

  lemma PteSetPte(p: Page, i: nat, v: nat, j: nat)
    requires i < NPTE && j < NPTE && v < LONG
    ensures Pte(SetPte(p, i, v), j) == if i == j then v else Pte(p, j)
  {
    Pow256Long();
    if i == j {
      GetPut(p, 8 * i, 8, v);
    } else {
      GetPutOther(p, 8 * i, 8, v, 8 * j, 8);
    }
  }

  lemma Pow256Long()
    ensures Pow256(8) == LONG
  {
  }

  lemma PteZero(i: nat)
    requires i < NPTE
    ensures Pte(Zeros(PGSIZE), i) == 0
  {
    DecodeZeros(Zeros(PGSIZE)[8 * i..8 * i + 8]);
  }

  // --------------------------------------------------------------- addresses

  function RoundDown(a: nat): nat { a - a % PGSIZE }

  function RoundUp(a: nat): nat { RoundDown(a + PGSIZE - 1) }

  // PX(level, va): the three 9-bit indices of a virtual address.
  function PX(level: nat, va: nat): (r: nat)
    requires level <= 2
    ensures r < NPTE
  {
    match level
    case 0 => va / 0x1000 % NPTE
    case 1 => va / 0x20_0000 % NPTE
    case _ => va / 0x4000_0000 % NPTE
  }

  // The page-number prefix that selects the table walked at a level.
  function Prefix(level: nat, vpn: nat): nat {
    if level == 0 then vpn / NPTE else if level == 1 then vpn / NPTE / NPTE else 0
  }

  lemma PrefixStep(va: nat, level: nat)
    requires va < MAXVA && 1 <= level <= 2
    ensures Prefix(level - 1, va / PGSIZE) == Prefix(level, va / PGSIZE) * NPTE + PX(level, va)
    ensures PX(0, va) == va / PGSIZE % NPTE
  {
  }

  // Below MAXVA, the three indices and the offset determine the address.
  lemma IndicesInjective(va: nat, va': nat)
    requires va < MAXVA && va' < MAXVA && va % PGSIZE == va' % PGSIZE
    requires forall l :: 0 <= l <= 2 ==> PX(l, va) == PX(l, va')
    ensures va == va'
  {
    PrefixStep(va, 1);
    PrefixStep(va, 2);
    PrefixStep(va', 1);
    PrefixStep(va', 2);
    assert PX(0, va) == PX(0, va') && PX(1, va) == PX(1, va') && PX(2, va) == PX(2, va');
  }

  // ---------------------------------------------------------------- the tree

  // The table at a level that serves the page numbers with a given prefix.
  datatype Key = Key(level: nat, prefix: nat)

  function Child(k: Key, i: nat): Key
    requires k.level > 0
  {
    Key(k.level - 1, k.prefix * NPTE + i)
  }

  function Parent(k: Key): Key { Key(k.level + 1, k.prefix / NPTE) }

  // The tables of one address space; the root serves the empty prefix.
  type Tree = map<Key, nat>

  const ROOT: Key := Key(2, 0)

  predicate GoodKey(k: Key) {
    k.level <= 2 && k.prefix < (if k.level == 2 then 1 else if k.level == 1 then NPTE else NPTE * NPTE)
  }

  type Memory = map<nat, Page>

  // Memory is made of aligned pages, none of them at address 0.
  ghost predicate MemOk(mem: Memory) {
    forall p :: p in mem ==> p % PGSIZE == 0 && 0 < p < PHYSTOP
  }

  ghost predicate Shaped(mem: Memory, t: Tree) {
    && ROOT in t
    && (forall k :: k in t ==> GoodKey(k) && t[k] in mem)
    && (forall j, k :: j in t && k in t && t[j] == t[k] ==> j == k)
    && (forall k :: k in t && k.level < 2 ==> Parent(k) in t)
  }

  // What entry i of the table for k must hold.
  ghost predicate Linked(mem: Memory, t: Tree, k: Key, i: nat)
    requires k in t && t[k] in mem && i < NPTE && k.level > 0
  {
    Pte(mem[t[k]], i) == if Child(k, i) in t then Entry(t[Child(k, i)], PTE_V) else 0
  }

  ghost predicate TreeOk(mem: Memory, t: Tree) {
    && MemOk(mem) && Shaped(mem, t)
    && (forall k, i {:trigger Linked(mem, t, k, i)} :: k in t && k.level > 0 && 0 <= i < NPTE ==> Linked(mem, t, k, i))
  }

  // The map the tree refines: the entry of a page number, 0 if it has none.
  ghost function Lookup(mem: Memory, t: Tree, vpn: nat): nat
    requires Shaped(mem, t)
  {
    var k := Key(0, vpn / NPTE);
    if k in t then Pte(mem[t[k]], vpn % NPTE) else 0
  }

  // The pages the tables occupy.
  ghost function Tables(t: Tree): set<nat> { t.Values }

  lemma UntouchedTables(mem: Memory, mem': Memory, t: Tree)
    requires TreeOk(mem, t) && MemOk(mem') && mem.Keys <= mem'.Keys
    requires forall p :: p in Tables(t) ==> mem'[p] == mem[p]
    ensures TreeOk(mem', t)
    ensures forall vpn :: Lookup(mem', t, vpn) == Lookup(mem, t, vpn)
  {
    forall k | k in t ensures t[k] in Tables(t) {}
    forall k, i | k in t && k.level > 0 && 0 <= i < NPTE ensures Linked(mem', t, k, i) {
      assert Linked(mem, t, k, i);
    }
  }

  lemma ParentOfChild(k: Key, i: nat)
    requires k.level > 0 && i < NPTE
    ensures Parent(Child(k, i)) == k
  {
  }

  lemma ChildInjective(j: Key, n: nat, k: Key, i: nat)
    requires j.level > 0 && k.level > 0 && n < NPTE && i < NPTE && Child(j, n) == Child(k, i)
    ensures j == k && n == i
  {
  }

  // What the processor finds for an address: three tables, the index in each 9
  // bits of the address, entries of 8 bytes whose bit 0 is the valid bit and
  // whose bits from 10 on are the number of the next table's page.
  function Translated(mem: Memory, root: nat, va: nat): nat {
    var next := ReadEntry(mem, root, va / 0x4000_0000 % 512);
    if next % 2 == 0 then 0
    else
      var last := ReadEntry(mem, next / 1024 * 4096, va / 0x20_0000 % 512);
      if last % 2 == 0 then 0 else ReadEntry(mem, last / 1024 * 4096, va / 0x1000 % 512)
  }

  function ReadEntry(mem: Memory, p: nat, i: nat): nat
    requires i < 512
  {
    if p in mem then Decode(mem[p][8 * i..8 * i + 8]) else 0
  }

  // That is the entry the tree gives.
  lemma TranslatedIs(mem: Memory, t: Tree, va: nat)
    requires TreeOk(mem, t) && Shaped(mem, t) && va < MAXVA
    ensures Translated(mem, t[ROOT], va) == Lookup(mem, t, va / PGSIZE)
  {
    hide Entry, Pte, Frame, Decode;
    var i, j := PX(2, va), PX(1, va);
    var k1, k0 := Child(ROOT, i), Child(Child(ROOT, i), j);
    PrefixStep(va, 1);
    PrefixStep(va, 2);
    assert k0 == Key(0, va / PGSIZE / NPTE) && PX(0, va) == va / PGSIZE % NPTE;
    assert Linked(mem, t, ROOT, i);
    EntryRead(mem, t[ROOT], i);
    if k1 in t {
      TableEntry(t[k1]);
      assert Linked(mem, t, k1, j);
      EntryRead(mem, t[k1], j);
      if k0 in t {
        TableEntry(t[k0]);
        EntryRead(mem, t[k0], PX(0, va));
      }
    } else {
      assert k0 !in t by {
        if k0 in t {
          assert Parent(k0) in t;
          ParentOfChild(k1, j);
        }
      }
    }
  }

  lemma EntryRead(mem: Memory, p: nat, i: nat)
    requires p in mem && i < NPTE
    ensures ReadEntry(mem, p, i) == Pte(mem[p], i)
  {
  }

  lemma TableEntry(pa: nat)
    requires pa % PGSIZE == 0 && pa < PHYSTOP
    ensures Entry(pa, PTE_V) % 2 == 1 && Entry(pa, PTE_V) / 1024 * 4096 == pa
  {
    FrameOfEntry(pa, PTE_V);
  }

  // A zeroed root table translates nothing.
  lemma NewTree(mem: Memory, root: nat)
    requires MemOk(mem) && root in mem && mem[root] == Zeros(PGSIZE)
    ensures var t := map[ROOT := root];
            TreeOk(mem, t) && Shaped(mem, t) && Tables(t) == {root} && forall v: nat :: Lookup(mem, t, v) == 0
  {
    var t := map[ROOT := root];
    forall k, i | k in t && k.level > 0 && 0 <= i < NPTE ensures Linked(mem, t, k, i) {
      PteZero(i);
    }
  }

  // Memory and tree after a fresh zeroed table is hooked into an empty entry.
  function Hook(mem: Memory, t: Tree, k: Key, i: nat, pa: nat): Memory
    requires k in t && t[k] in mem && i < NPTE
  {
    mem[pa := Zeros(PGSIZE)][t[k] := SetPte(mem[t[k]], i, Entry(pa, PTE_V))]
  }

  ghost predicate Hookable(mem: Memory, t: Tree, k: Key, i: nat, pa: nat) {
    && TreeOk(mem, t) && k in t && k.level > 0 && i < NPTE && GoodKey(Child(k, i))
    && Child(k, i) !in t && pa in mem && pa !in Tables(t)
  }

  lemma HookShaped(mem: Memory, t: Tree, k: Key, i: nat, pa: nat)
    requires Hookable(mem, t, k, i, pa)
    ensures MemOk(Hook(mem, t, k, i, pa)) && Shaped(Hook(mem, t, k, i, pa), t[Child(k, i) := pa])
  {
  }

  lemma HookLinked(mem: Memory, t: Tree, k: Key, i: nat, pa: nat, j: Key, n: nat)
    requires Hookable(mem, t, k, i, pa) && j in t[Child(k, i) := pa] && j.level > 0 && n < NPTE
    requires Shaped(Hook(mem, t, k, i, pa), t[Child(k, i) := pa])
    ensures Linked(Hook(mem, t, k, i, pa), t[Child(k, i) := pa], j, n)
  {
    FrameOfEntry(pa, PTE_V);
    ParentOfChild(j, n);
    assert t[k] in Tables(t);
    if j == Child(k, i) {
      PteZero(n);
    } else {
      assert t[j] in Tables(t) && Linked(mem, t, j, n);
      PteSetPte(mem[t[k]], i, Entry(pa, PTE_V), n);
      if Child(j, n) == Child(k, i) {
        ChildInjective(j, n, k, i);
      }
    }
  }

  // Hooking a fresh table into an empty entry translates nothing new.
  lemma AddTable(mem: Memory, t: Tree, k: Key, i: nat, pa: nat)
    requires Hookable(mem, t, k, i, pa)
    ensures TreeOk(Hook(mem, t, k, i, pa), t[Child(k, i) := pa])
    ensures forall vpn :: Lookup(Hook(mem, t, k, i, pa), t[Child(k, i) := pa], vpn) == Lookup(mem, t, vpn)
  {
    var mem', t' := Hook(mem, t, k, i, pa), t[Child(k, i) := pa];
    HookShaped(mem, t, k, i, pa);
    forall j, n | j in t' && j.level > 0 && 0 <= n < NPTE ensures Linked(mem', t', j, n) {
      HookLinked(mem, t, k, i, pa, j, n);
    }
    forall j | j in t ensures t[j] in Tables(t) && t[j] != pa {}
    forall vpn: nat ensures Lookup(mem', t', vpn) == Lookup(mem, t, vpn) {
      if Key(0, vpn / NPTE) == Child(k, i) {
        PteZero(vpn % NPTE);
      }
    }
  }

  // Memory after the entry of a page number is overwritten.
  function WithLeaf(mem: Memory, t: Tree, vpn: nat, e: nat): Memory
    requires Key(0, vpn / NPTE) in t && t[Key(0, vpn / NPTE)] in mem
  {
    var p := t[Key(0, vpn / NPTE)];
    mem[p := SetPte(mem[p], vpn % NPTE, e)]
  }

  // Overwriting a leaf entry changes the entry of that page number alone.
  lemma SetLeaf(mem: Memory, t: Tree, vpn: nat, e: nat)
    requires TreeOk(mem, t) && Key(0, vpn / NPTE) in t && e < LONG
    ensures TreeOk(WithLeaf(mem, t, vpn, e), t)
    ensures forall v :: Lookup(WithLeaf(mem, t, vpn, e), t, v) == if v == vpn then e else Lookup(mem, t, v)
  {
    var p := t[Key(0, vpn / NPTE)];
    var mem' := WithLeaf(mem, t, vpn, e);
    forall k, i | k in t && k.level > 0 && 0 <= i < NPTE ensures Linked(mem', t, k, i) {
      assert Linked(mem, t, k, i);
    }
    forall v: nat ensures Lookup(mem', t, v) == if v == vpn then e else Lookup(mem, t, v) {
      PteSetPte(mem[p], vpn % NPTE, e, v % NPTE);
      if v / NPTE == vpn / NPTE && v % NPTE == vpn % NPTE {
        assert v == vpn;
      }
    }
  }
}

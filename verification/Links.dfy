// Directories and link counts (sysfile.c, fs.c): create, sys_link, sys_unlink
// and the freeing of inodes in iput keep, for every inode, nlink equal to the
// number of entries other than "." that name it in directories still linked.
module Links {
  import opened Basics

  const ROOT: nat := 1

  datatype Kind = Dir | File | Dev

  // An entry with inum 0 is empty.
  datatype Entry = Entry(inum: nat, name: string)

  datatype Node = Free | Node(kind: Kind, nlink: int, ents: seq<Entry>)

  // Pad is the panic "ilock: no type" or "unlink: nlink < 1".
  datatype Outcome = Panic | Fail | Got(inum: nat)

  // The value a C short takes.
  function Short(x: int): int {
    (x + 0x8000) % 0x1_0000 - 0x8000
  }

  predicate Live(n: Node) {
    n.Node? && n.kind == Dir && n.nlink > 0
  }

  // ------------------------------------------------------------- counting

  function One(e: Entry, i: nat): nat {
    if e.inum == i && e.name != "." then 1 else 0
  }

  function Count(es: seq<Entry>, i: nat): nat {
    if es == [] then 0 else Count(es[..|es| - 1], i) + One(es[|es| - 1], i)
  }

  // The links to i that directory n holds.
  function Held(n: Node, i: nat): nat {
    if Live(n) then Count(n.ents, i) else 0
  }

  function Total(nodes: seq<Node>, i: nat): nat {
    if nodes == [] then 0 else Total(nodes[..|nodes| - 1], i) + Held(nodes[|nodes| - 1], i)
  }

  lemma {:induction false} CountUpdate(es: seq<Entry>, k: nat, e: Entry, i: nat)
    requires k < |es|
    ensures Count(es[k := e], i) == Count(es, i) - One(es[k], i) + One(e, i)
  {
    var m := |es| - 1;
    if k < m {
      CountUpdate(es[..m], k, e, i);
      assert es[k := e][..m] == es[..m][k := e];
    } else {
      assert es[k := e][..m] == es[..m];
    }
  }

  lemma CountAppend(es: seq<Entry>, e: Entry, i: nat)
    ensures Count(es + [e], i) == Count(es, i) + One(e, i)
  {
    assert (es + [e])[..|es|] == es;
  }

  lemma {:induction false} CountZero(es: seq<Entry>, i: nat)
    requires forall k :: 0 <= k < |es| ==> One(es[k], i) == 0
    ensures Count(es, i) == 0
  {
    if es != [] {
      CountZero(es[..|es| - 1], i);
    }
  }

  // Exactly one entry counts.
  lemma CountSingle(es: seq<Entry>, k: nat, i: nat)
    requires k < |es| && One(es[k], i) == 1
    requires forall j :: 0 <= j < |es| && j != k ==> One(es[j], i) == 0
    ensures Count(es, i) == 1
  {
    var e := Entry(i, ".");
    CountUpdate(es, k, e, i);
    CountZero(es[k := e], i);
  }

  lemma CountSome(es: seq<Entry>, k: nat, i: nat)
    requires k < |es| && One(es[k], i) == 1
    ensures Count(es, i) > 0
  {
    CountUpdate(es, k, Entry(i, "."), i);
  }

  lemma {:induction false} TotalUpdate(nodes: seq<Node>, d: nat, n: Node, i: nat)
    requires d < |nodes|
    ensures Total(nodes[d := n], i) == Total(nodes, i) - Held(nodes[d], i) + Held(n, i)
  {
    var m := |nodes| - 1;
    if d < m {
      TotalUpdate(nodes[..m], d, n, i);
      assert nodes[d := n][..m] == nodes[..m][d := n];
    } else {
      assert nodes[d := n][..m] == nodes[..m];
    }
  }

  lemma {:induction false} TotalZero(nodes: seq<Node>, i: nat)
    requires forall d :: 0 <= d < |nodes| ==> Held(nodes[d], i) == 0
    ensures Total(nodes, i) == 0
  {
    if nodes != [] {
      TotalZero(nodes[..|nodes| - 1], i);
    }
  }

  // Only directory d holds links to i.
  lemma TotalSingle(nodes: seq<Node>, d: nat, i: nat)
    requires d < |nodes|
    requires forall d' :: 0 <= d' < |nodes| && d' != d ==> Held(nodes[d'], i) == 0
    ensures Total(nodes, i) == Held(nodes[d], i)
  {
    TotalUpdate(nodes, d, Free, i);
    TotalZero(nodes[d := Free], i);
  }

  lemma TotalPair(nodes: seq<Node>, d: nat, d': nat, i: nat)
    requires d < |nodes| && d' < |nodes| && d != d'
    ensures Total(nodes, i) >= Held(nodes[d], i) + Held(nodes[d'], i)
  {
    TotalUpdate(nodes, d, Free, i);
    TotalUpdate(nodes[d := Free], d', Free, i);
  }

  lemma TotalHeld(nodes: seq<Node>, d: nat, i: nat)
    requires d < |nodes|
    ensures Total(nodes, i) >= Held(nodes[d], i)
  {
    TotalUpdate(nodes, d, Free, i);
  }

  // ------------------------------------------------------------ invariants

  function NLink(n: Node): int {
    if n.Free? then 0 else n.nlink
  }

  // The link count of every inode; pending are the links that sys_link has
  // counted and not yet entered or taken back.
  predicate Counted(nodes: seq<Node>, pending: multiset<nat>) {
    forall i :: 0 < i < |nodes| ==> NLink(nodes[i]) == Total(nodes, i) + pending[i] && NLink(nodes[i]) < 0x8000
  }

  predicate IsDir(nodes: seq<Node>, d: nat) {
    d < |nodes| && nodes[d].Node? && nodes[d].kind == Dir
  }

  predicate IsLive(nodes: seq<Node>, d: nat) {
    d < |nodes| && Live(nodes[d])
  }

  predicate Special(name: string) {
    name == "." || name == ".."
  }

  // "." and ".." come first, and no other entry has such a name or names the
  // directory itself.
  predicate DirShape(nodes: seq<Node>, d: nat)
    requires IsLive(nodes, d)
  {
    var es := nodes[d].ents;
    && |es| >= 2 && es[0] == Entry(d, ".") && es[1].name == ".." && IsLive(nodes, es[1].inum)
    && (forall k :: 2 <= k < |es| && es[k].inum != 0 ==>
        !Special(es[k].name) && es[k].inum < |nodes| && es[k].inum != d)
  }

  predicate Sub(nodes: seq<Node>, es: seq<Entry>, k: nat) {
    2 <= k < |es| && es[k].inum != 0 && IsDir(nodes, es[k].inum)
  }

  // Subdirectory entries: each names a directory whose ".." leads back, once.
  ghost predicate ChildrenOk(nodes: seq<Node>, d: nat)
    requires IsLive(nodes, d)
  {
    var es := nodes[d].ents;
    && (forall k: nat :: Sub(nodes, es, k) ==> ChildOk(nodes, d, es[k].inum))
    && (forall j: nat, k: nat :: Sub(nodes, es, j) && Sub(nodes, es, k) && es[j].inum == es[k].inum ==> j == k)
  }

  predicate ChildOk(nodes: seq<Node>, d: nat, c: nat)
    requires IsDir(nodes, c)
  {
    c != ROOT && |nodes[c].ents| >= 2 && nodes[c].ents[1].inum == d
  }

  predicate Lists(es: seq<Entry>, c: nat) {
    exists k :: 2 <= k < |es| && es[k].inum == c
  }

  // The parent of a directory other than the root lists it, one level up.
  predicate ParentOk(nodes: seq<Node>, depth: seq<nat>, c: nat)
    requires IsLive(nodes, c) && DirShape(nodes, c) && |depth| == |nodes|
  {
    var p := nodes[c].ents[1].inum;
    if c == ROOT then p == ROOT else Lists(nodes[p].ents, c) && depth[p] < depth[c]
  }

  predicate IsDead(nodes: seq<Node>, d: nat) {
    IsDir(nodes, d) && nodes[d].nlink <= 0
  }

  // A directory no longer linked has nothing in it.
  predicate DeadEmpty(nodes: seq<Node>, d: nat)
    requires IsDead(nodes, d)
  {
    var es := nodes[d].ents;
    && |es| >= 2 && es[0] == Entry(d, ".") && es[1].name == ".." && 0 < es[1].inum < |nodes| && es[1].inum != d
    && forall k :: 2 <= k < |es| ==> es[k].inum == 0
  }

  ghost predicate Tree(nodes: seq<Node>, depth: seq<nat>) {
    && |depth| == |nodes| && IsLive(nodes, ROOT) && nodes[0] == Free
    && (forall d: nat :: IsLive(nodes, d) ==> DirShape(nodes, d) && ChildrenOk(nodes, d) && ParentOk(nodes, depth, d))
    && (forall d: nat :: IsDead(nodes, d) ==> DeadEmpty(nodes, d))
  }

  // Only files and devices have links pending.
  predicate PendingOk(nodes: seq<Node>, pending: multiset<nat>) {
    forall i :: i in pending ==> 0 < i < |nodes| && nodes[i].Node? && nodes[i].kind != Dir
  }

  ghost predicate Inv(nodes: seq<Node>, pending: multiset<nat>, depth: seq<nat>) {
    Counted(nodes, pending) && Tree(nodes, depth) && PendingOk(nodes, pending)
  }

  // ------------------------------------------------------- directory entries

  // dirlookup: the first entry of that name.
  function Lookup(es: seq<Entry>, name: string, k: nat): (r: Option<nat>)
    requires k <= |es|
    ensures r.Some? ==> k <= r.value < |es| && es[r.value].inum != 0 && es[r.value].name == name
    ensures r.Some? ==> forall j :: k <= j < r.value ==> es[j].inum == 0 || es[j].name != name
    ensures r.None? ==> forall j :: k <= j < |es| ==> es[j].inum == 0 || es[j].name != name
    decreases |es| - k
  {
    if k == |es| then None
    else if es[k].inum != 0 && es[k].name == name then Some(k)
    else Lookup(es, name, k + 1)
  }

  function FirstEmpty(es: seq<Entry>, k: nat): (r: nat)
    requires k <= |es|
    ensures k <= r <= |es| && (r < |es| ==> es[r].inum == 0)
    ensures forall j :: k <= j < r ==> es[j].inum != 0
    decreases |es| - k
  {
    if k == |es| || es[k].inum == 0 then k else FirstEmpty(es, k + 1)
  }

  function Place(es: seq<Entry>, k: nat, e: Entry): (r: seq<Entry>)
    requires k <= |es|
    ensures |r| == if k < |es| then |es| else |es| + 1
    ensures forall j :: 0 <= j < |r| ==> r[j] == if j == k then e else es[j]
  {
    if k < |es| then es[k := e] else es + [e]
  }

  // dirlink: the entry goes to the first empty slot, or at the end if the
  // directory can grow.
  function Linked(es: seq<Entry>, e: Entry, grow: bool): Option<seq<Entry>> {
    var k := FirstEmpty(es, 0);
    if Lookup(es, e.name, 0).Some? || (k == |es| && !grow) then None else Some(Place(es, k, e))
  }

  // Entry k is the first of that name.
  predicate FirstNamed(es: seq<Entry>, name: string, k: nat) {
    && k < |es| && es[k].inum != 0 && es[k].name == name
    && forall j :: 0 <= j < k ==> es[j].inum == 0 || es[j].name != name
  }

  predicate NotNamed(es: seq<Entry>, name: string) {
    forall j :: 0 <= j < |es| ==> es[j].inum == 0 || es[j].name != name
  }

  // Slot k is the first empty one, or the end when there is none.
  predicate Gap(es: seq<Entry>, k: nat) {
    k <= |es| && (k < |es| ==> es[k].inum == 0) && forall j :: 0 <= j < k ==> es[j].inum != 0
  }

  // es with entry e in its first gap.
  ghost predicate Entered(es: seq<Entry>, e: Entry, r: seq<Entry>) {
    exists k: nat :: Gap(es, k) && r == if k < |es| then es[k := e] else es + [e]
  }

  lemma LookupIs(es: seq<Entry>, name: string)
    ensures Lookup(es, name, 0).None? <==> NotNamed(es, name)
    ensures forall k: nat :: Lookup(es, name, 0) == Some(k) <==> FirstNamed(es, name, k)
  {
  }

  // dirlink refuses a name that is there already, and a full directory that
  // cannot grow.
  lemma LinkedIs(es: seq<Entry>, e: Entry, grow: bool)
    ensures Linked(es, e, grow).Some? <==>
              NotNamed(es, e.name) && (grow || exists j :: 0 <= j < |es| && es[j].inum == 0)
    ensures Linked(es, e, grow).Some? ==> Entered(es, e, Linked(es, e, grow).value)
    ensures Linked(es, e, grow).Some? && e.inum != 0 ==>
      exists k: nat :: FirstNamed(Linked(es, e, grow).value, e.name, k) && Linked(es, e, grow).value[k] == e
  {
    LookupIs(es, e.name);
    var k := FirstEmpty(es, 0);
    assert Gap(es, k);
    if Linked(es, e, grow).Some? && e.inum != 0 {
      assert FirstNamed(Linked(es, e, grow).value, e.name, k);
    }
  }

  lemma PlaceCount(es: seq<Entry>, k: nat, e: Entry, i: nat)
    requires k <= |es| && i > 0 && (k < |es| ==> es[k].inum == 0)
    ensures Count(Place(es, k, e), i) == Count(es, i) + One(e, i)
  {
    if k < |es| {
      CountUpdate(es, k, e, i);
    } else {
      CountAppend(es, e, i);
    }
  }

  predicate DirEmpty(es: seq<Entry>) {
    forall k :: 2 <= k < |es| ==> es[k].inum == 0
  }

  // -------------------------------------------------------------- sys_link

  function LinkBegin(nodes: seq<Node>, i: nat): seq<Node>
    requires i < |nodes| && nodes[i].Node?
  {
    nodes[i := nodes[i].(nlink := Short(nodes[i].nlink + 1))]
  }

  // The second half: dirlink in dp, or the undoing of the increment.
  function LinkEnd(nodes: seq<Node>, i: nat, dp: nat, name: string, grow: bool): seq<Node>
    requires i < |nodes| && nodes[i].Node? && IsDir(nodes, dp)
  {
    var es := Linked(nodes[dp].ents, Entry(i, name), grow);
    if es.Some? then nodes[dp := nodes[dp].(ents := es.value)]
    else LinkUndo(nodes, i)
  }

  function LinkUndo(nodes: seq<Node>, i: nat): seq<Node>
    requires i < |nodes| && nodes[i].Node?
  {
    nodes[i := nodes[i].(nlink := Short(nodes[i].nlink - 1))]
  }

  // Changing an inode that is not a directory leaves the tree alone.
  lemma TreeNonDir(nodes: seq<Node>, depth: seq<nat>, i: nat, n: Node)
    requires Tree(nodes, depth) && 0 < i < |nodes|
    requires !IsDir(nodes, i) && !(n.Node? && n.kind == Dir)
    ensures Tree(nodes[i := n], depth)
  {
    var r := nodes[i := n];
    assert forall d: nat :: IsLive(r, d) <==> IsLive(nodes, d);
    assert forall d: nat :: IsDir(r, d) <==> IsDir(nodes, d);
    assert forall d: nat :: IsDir(nodes, d) ==> r[d] == nodes[d];
    forall d: nat | IsLive(r, d)
      ensures DirShape(r, d) && ChildrenOk(r, d) && ParentOk(r, depth, d)
    {
      assert DirShape(nodes, d) && ChildrenOk(nodes, d) && ParentOk(nodes, depth, d);
    }
    forall d: nat | IsDead(r, d)
      ensures DeadEmpty(r, d)
    {
      assert IsDead(nodes, d);
    }
  }

  // The increment is kept in step by the pending link, unless the short wraps.
  lemma LinkBeginKeeps(nodes: seq<Node>, pending: multiset<nat>, depth: seq<nat>, i: nat)
    requires Inv(nodes, pending, depth) && 0 < i < |nodes| && nodes[i].Node? && nodes[i].kind != Dir
    ensures Inv(LinkBegin(nodes, i), pending + multiset{i}, depth) <==> nodes[i].nlink < 0x7fff
  {
    hide Tree, Total;
    var r := LinkBegin(nodes, i);
    TreeNonDir(nodes, depth, i, r[i]);
    forall j: nat
      ensures Total(r, j) == Total(nodes, j)
    {
      TotalUpdate(nodes, i, r[i], j);
    }
    assert NLink(nodes[i]) == Total(nodes, i) + pending[i];
    if nodes[i].nlink == 0x7fff {
      assert !Counted(r, pending + multiset{i}) by {
        assert NLink(r[i]) < 0;
      }
    }
  }

  lemma LinkUndoKeeps(nodes: seq<Node>, pending: multiset<nat>, depth: seq<nat>, i: nat)
    requires Inv(nodes, pending, depth) && i in pending
    ensures Inv(LinkUndo(nodes, i), pending - multiset{i}, depth)
  {
    hide Tree, Total;
    var r := LinkUndo(nodes, i);
    TreeNonDir(nodes, depth, i, r[i]);
    forall j: nat
      ensures Total(r, j) == Total(nodes, j)
    {
      TotalUpdate(nodes, i, r[i], j);
    }
  }

  // A new entry for something that is not a directory.
  lemma TreePlace(nodes: seq<Node>, depth: seq<nat>, dp: nat, k: nat, e: Entry)
    requires Tree(nodes, depth) && IsLive(nodes, dp) && k <= |nodes[dp].ents|
    requires k < |nodes[dp].ents| ==> nodes[dp].ents[k].inum == 0
    requires e.inum < |nodes| && !IsDir(nodes, e.inum) && !Special(e.name)
    ensures Tree(nodes[dp := nodes[dp].(ents := Place(nodes[dp].ents, k, e))], depth)
  {
    hide Place, DirShape, ChildrenOk, ParentOk, DeadEmpty;
    var r := nodes[dp := nodes[dp].(ents := Place(nodes[dp].ents, k, e))];
    forall d: nat | IsLive(r, d)
      ensures DirShape(r, d) && ChildrenOk(r, d) && ParentOk(r, depth, d)
    {
      PlaceDir(nodes, depth, dp, k, e, d);
    }
    forall d: nat | IsDead(r, d)
      ensures DeadEmpty(r, d)
    {
      DeadSame(nodes, r, d);
    }
  }

  lemma DeadSame(nodes: seq<Node>, r: seq<Node>, d: nat)
    requires IsDead(nodes, d) && DeadEmpty(nodes, d) && d < |r| == |nodes| && r[d] == nodes[d]
    ensures DeadEmpty(r, d)
  {
  }

  lemma PlaceDir(nodes: seq<Node>, depth: seq<nat>, dp: nat, k: nat, e: Entry, d: nat)
    requires Tree(nodes, depth) && IsLive(nodes, dp) && k <= |nodes[dp].ents|
    requires k < |nodes[dp].ents| ==> nodes[dp].ents[k].inum == 0
    requires e.inum < |nodes| && !IsDir(nodes, e.inum) && !Special(e.name) && IsLive(nodes, d)
    ensures var r := nodes[dp := nodes[dp].(ents := Place(nodes[dp].ents, k, e))];
      IsLive(r, d) && DirShape(r, d) && ChildrenOk(r, d) && ParentOk(r, depth, d)
  {
    hide Place, DirShape, ChildrenOk, ParentOk, DeadEmpty;
    PlaceShape(nodes, depth, dp, k, e, d);
    PlaceChildren(nodes, depth, dp, k, e, d);
    PlaceParent(nodes, depth, dp, k, e, d);
  }

  lemma PlaceShape(nodes: seq<Node>, depth: seq<nat>, dp: nat, k: nat, e: Entry, d: nat)
    requires Tree(nodes, depth) && IsLive(nodes, dp) && k <= |nodes[dp].ents|
    requires k < |nodes[dp].ents| ==> nodes[dp].ents[k].inum == 0
    requires e.inum < |nodes| && !IsDir(nodes, e.inum) && !Special(e.name) && IsLive(nodes, d)
    ensures var r := nodes[dp := nodes[dp].(ents := Place(nodes[dp].ents, k, e))];
      IsLive(r, d) && DirShape(r, d)
  {
    hide Place, ChildrenOk, ParentOk, DeadEmpty, DirShape;
    KeepsFirst(nodes, depth, dp, k);
    assert DirShape(nodes, d);
    ShapeFacts(nodes, d);
    var r := nodes[dp := nodes[dp].(ents := Place(nodes[dp].ents, k, e))];
    assert e.inum != dp;
    if d == dp {
      ShapePlaced(nodes, r, d, k);
    } else {
      ShapeSame(nodes, r, d);
    }
  }

  lemma PlaceChildren(nodes: seq<Node>, depth: seq<nat>, dp: nat, k: nat, e: Entry, d: nat)
    requires Tree(nodes, depth) && IsLive(nodes, dp) && k <= |nodes[dp].ents|
    requires k < |nodes[dp].ents| ==> nodes[dp].ents[k].inum == 0
    requires e.inum < |nodes| && !IsDir(nodes, e.inum) && !Special(e.name) && IsLive(nodes, d)
    ensures var r := nodes[dp := nodes[dp].(ents := Place(nodes[dp].ents, k, e))];
      IsLive(r, d) && ChildrenOk(r, d)
  {
    hide Place, DirShape, ParentOk, DeadEmpty;
    var r := nodes[dp := nodes[dp].(ents := Place(nodes[dp].ents, k, e))];
    assert k >= 2 by {
      KeepsFirst(nodes, depth, dp, k);
    }
    assert ChildrenOk(nodes, d);
    forall j: nat | Sub(r, r[d].ents, j)
      ensures Sub(nodes, nodes[d].ents, j) && r[d].ents[j] == nodes[d].ents[j]
    {
    }
    forall c: nat | IsDir(nodes, c) && ChildOk(nodes, d, c)
      ensures ChildOk(r, d, c)
    {
      if c == dp {
        KeepsFirst(nodes, depth, dp, k);
      }
    }
  }

  lemma KeepsFirst(nodes: seq<Node>, depth: seq<nat>, dp: nat, k: nat)
    requires Tree(nodes, depth) && IsLive(nodes, dp) && k <= |nodes[dp].ents|
    requires k < |nodes[dp].ents| ==> nodes[dp].ents[k].inum == 0
    ensures k >= 2
  {
    hide ChildrenOk, ParentOk, DeadEmpty;
    assert DirShape(nodes, dp);
  }

  lemma PlaceParent(nodes: seq<Node>, depth: seq<nat>, dp: nat, k: nat, e: Entry, d: nat)
    requires Tree(nodes, depth) && IsLive(nodes, dp) && k <= |nodes[dp].ents|
    requires k < |nodes[dp].ents| ==> nodes[dp].ents[k].inum == 0
    requires e.inum < |nodes| && !IsDir(nodes, e.inum) && !Special(e.name) && IsLive(nodes, d)
    ensures var r := nodes[dp := nodes[dp].(ents := Place(nodes[dp].ents, k, e))];
      IsLive(r, d) && DirShape(r, d) && ParentOk(r, depth, d)
  {
    hide Place, ChildrenOk, DeadEmpty;
    var r := nodes[dp := nodes[dp].(ents := Place(nodes[dp].ents, k, e))];
    PlaceShape(nodes, depth, dp, k, e, d);
    KeepsFirst(nodes, depth, dp, k);
    assert ParentOk(nodes, depth, d) && DirShape(nodes, d);
    var p := nodes[d].ents[1].inum;
    if d != ROOT {
      var j :| 2 <= j < |nodes[p].ents| && nodes[p].ents[j].inum == d;
      assert r[p].ents[j].inum == d;
    }
  }

  // Entering the link takes it out of the pending ones, unless the directory it
  // goes to has been unlinked itself.
  lemma LinkEndKeeps(nodes: seq<Node>, pending: multiset<nat>, depth: seq<nat>,
                     i: nat, dp: nat, name: string, grow: bool)
    requires Inv(nodes, pending, depth) && i in pending && IsDir(nodes, dp)
    ensures Inv(LinkEnd(nodes, i, dp, name, grow), pending - multiset{i}, depth)
       <==> Live(nodes[dp]) || Linked(nodes[dp].ents, Entry(i, name), grow).None?
    ensures !(Live(nodes[dp]) || Linked(nodes[dp].ents, Entry(i, name), grow).None?) ==>
      !Counted(LinkEnd(nodes, i, dp, name, grow), pending - multiset{i})
  {
    hide Total, Count, Tree, Counted;
    var es := nodes[dp].ents;
    if Linked(es, Entry(i, name), grow).None? {
      LinkUndoKeeps(nodes, pending, depth, i);
    } else {
      LinkEnters(nodes, pending, depth, i, dp, FirstEmpty(es, 0), name);
      if Live(nodes[dp]) {
        NotSpecial(nodes, depth, dp, name);
        TreePlace(nodes, depth, dp, FirstEmpty(es, 0), Entry(i, name));
      }
    }
  }

  lemma LinkEnters(nodes: seq<Node>, pending: multiset<nat>, depth: seq<nat>, i: nat, dp: nat, k: nat, name: string)
    requires Inv(nodes, pending, depth) && i in pending && IsDir(nodes, dp) && k <= |nodes[dp].ents|
    requires k < |nodes[dp].ents| ==> nodes[dp].ents[k].inum == 0
    requires Lookup(nodes[dp].ents, name, 0).None?
    ensures Counted(nodes[dp := nodes[dp].(ents := Place(nodes[dp].ents, k, Entry(i, name)))], pending - multiset{i})
       <==> Live(nodes[dp])
  {
    hide Total, Count, Tree, Place;
    var e := Entry(i, name);
    var r := nodes[dp := nodes[dp].(ents := Place(nodes[dp].ents, k, e))];
    forall j: nat | j > 0
      ensures Total(r, j) == Total(nodes, j) + if Live(nodes[dp]) then One(e, j) else 0
    {
      TotalUpdate(nodes, dp, r[dp], j);
      PlaceCount(nodes[dp].ents, k, e, j);
    }
    assert NLink(r[i]) == NLink(nodes[i]) && (pending - multiset{i})[i] == pending[i] - 1;
    if Live(nodes[dp]) {
      NotSpecial(nodes, depth, dp, name);
    }
  }

  // In a linked directory "." and ".." are always found.
  lemma NotSpecial(nodes: seq<Node>, depth: seq<nat>, dp: nat, name: string)
    requires Tree(nodes, depth) && IsLive(nodes, dp) && Lookup(nodes[dp].ents, name, 0).None?
    ensures !Special(name)
  {
    assert DirShape(nodes, dp);
  }

  // ---------------------------------------------------------------- create

  // ialloc: the first free inode from 1 on.
  function FirstFree(nodes: seq<Node>, k: nat): (r: Option<nat>)
    requires k <= |nodes|
    ensures r.Some? ==> k <= r.value < |nodes| && nodes[r.value] == Free
    decreases |nodes| - k
  {
    if k == |nodes| then None else if nodes[k] == Free then Some(k) else FirstFree(nodes, k + 1)
  }

  // The entries of a new directory, each dirlink with its own chance to fail.
  function NewEnts(n: nat, dp: nat, g1: bool, g2: bool): Option<seq<Entry>> {
    match Linked([], Entry(n, "."), g1)
    case None => None
    case Some(es) => Linked(es, Entry(dp, ".."), g2)
  }

  lemma NewEntsValue(n: nat, dp: nat, g1: bool, g2: bool)
    requires n > 0
    ensures NewEnts(n, dp, g1, g2) == if g1 && g2 then Some([Entry(n, "."), Entry(dp, "..")]) else None
  {
    var dot, dotdot := Entry(n, "."), Entry(dp, "..");
    assert Place([], 0, dot) == [dot];
    assert FirstEmpty([dot], 0) == 1 && Lookup([dot], "..", 0).None?;
    assert Place([dot], 1, dotdot) == [dot, dotdot];
  }

  // create in directory dp; g1, g2 and g3 say whether the directory written can
  // grow for ".", ".." and the new name.
  function Create(nodes: seq<Node>, dp: nat, name: string, kind: Kind, g1: bool, g2: bool, g3: bool)
    : (seq<Node>, Outcome)
    requires IsDir(nodes, dp) && |nodes| > 0
  {
    var es := nodes[dp].ents;
    match Lookup(es, name, 0)
    case Some(k) =>
      var ip := es[k].inum;
      if ip >= |nodes| || nodes[ip] == Free then (nodes, Panic)
      else (nodes, if kind == File && nodes[ip].kind != Dir then Got(ip) else Fail)
    case None =>
      var n := FirstFree(nodes, 1);
      if n.None? then (nodes, Fail) else
      var ents := if kind == Dir then NewEnts(n.value, dp, g1, g2) else Some([]);
      var linked := Linked(es, Entry(n.value, name), g3);
      if ents.None? || linked.None? then (nodes, Fail)
      else (Created(nodes, dp, n.value, kind, ents.value, linked.value), Got(n.value))
  }

  function Created(nodes: seq<Node>, dp: nat, n: nat, kind: Kind, ents: seq<Entry>, linked: seq<Entry>): seq<Node>
    requires IsDir(nodes, dp) && n < |nodes|
  {
    var nlink := if kind == Dir then Short(nodes[dp].nlink + 1) else nodes[dp].nlink;
    nodes[n := Node(kind, 1, ents)][dp := Node(Dir, nlink, linked)]
  }

  // n is a new inode of that kind under that name in dp, the first that was
  // free; nothing else has changed but the link count of the parent of a
  // directory.
  ghost predicate Makes(nodes: seq<Node>, r: seq<Node>, dp: nat, name: string, kind: Kind, n: nat)
    requires IsDir(nodes, dp)
  {
    && 0 < n < |nodes| == |r| && nodes[n] == Free && (forall j :: 0 < j < n ==> nodes[j] != Free)
    && r[n] == Node(kind, 1, if kind == Dir then [Entry(n, "."), Entry(dp, "..")] else [])
    && IsDir(r, dp) && r[dp].nlink == (if kind == Dir then Short(nodes[dp].nlink + 1) else nodes[dp].nlink)
    && Entered(nodes[dp].ents, Entry(n, name), r[dp].ents)
    && forall j :: 0 <= j < |nodes| && j != n && j != dp ==> r[j] == nodes[j]
  }

  // What stands in the way of making one.
  predicate Refused(nodes: seq<Node>, dp: nat, kind: Kind, g1: bool, g2: bool, g3: bool)
    requires IsDir(nodes, dp)
  {
    || (forall j :: 0 < j < |nodes| ==> nodes[j] != Free) || (kind == Dir && !(g1 && g2))
    || (!g3 && forall j :: 0 <= j < |nodes[dp].ents| ==> nodes[dp].ents[j].inum != 0)
  }

  lemma {:induction false} FirstFreeIs(nodes: seq<Node>, k: nat)
    requires k <= |nodes|
    ensures var r := FirstFree(nodes, k);
      if r.Some? then nodes[r.value] == Free && forall j :: k <= j < r.value ==> nodes[j] != Free
      else forall j :: k <= j < |nodes| ==> nodes[j] != Free
    decreases |nodes| - k
  {
    if k < |nodes| && nodes[k] != Free {
      FirstFreeIs(nodes, k + 1);
    }
  }

  // What create gives: an inode that is there under the name already only when
  // a file was asked for and it is none of the directories; else a new one.
  lemma CreateIs(nodes: seq<Node>, dp: nat, name: string, kind: Kind, g1: bool, g2: bool, g3: bool)
    requires IsDir(nodes, dp) && |nodes| > 0
    ensures var (r, out) := Create(nodes, dp, name, kind, g1, g2, g3); var es := nodes[dp].ents;
      && (forall k: nat :: FirstNamed(es, name, k) ==> r == nodes && var i := es[k].inum;
            out == if i >= |nodes| || nodes[i] == Free then Panic
                   else if kind == File && nodes[i].kind != Dir then Got(i) else Fail)
      && (NotNamed(es, name) ==>
            if out.Got? then Makes(nodes, r, dp, name, kind, out.inum) && !Refused(nodes, dp, kind, g1, g2, g3)
            else out == Fail && r == nodes && Refused(nodes, dp, kind, g1, g2, g3))
      && (out.Got? ==> IsDir(r, dp) && exists k: nat ::
          FirstNamed(r[dp].ents, name, k) && r[dp].ents[k].inum == out.inum)
  {
    hide Linked, FirstNamed, NotNamed, Entered, NewEnts, FirstFree;
    var es := nodes[dp].ents;
    var out := Create(nodes, dp, name, kind, g1, g2, g3).1;
    LookupIs(es, name);
    FirstFreeIs(nodes, 1);
    if Lookup(es, name, 0).None? && FirstFree(nodes, 1).Some? {
      var n := FirstFree(nodes, 1).value;
      NewEntsValue(n, dp, g1, g2);
      LinkedIs(es, Entry(n, name), g3);
    }
  }

  // Nothing in a linked directory names an inode without links.
  lemma Unnamed(nodes: seq<Node>, pending: multiset<nat>, depth: seq<nat>, n: nat, d: nat, k: nat)
    requires Inv(nodes, pending, depth) && 0 < n < |nodes| && NLink(nodes[n]) == 0
    requires IsLive(nodes, d) && k < |nodes[d].ents|
    ensures nodes[d].ents[k].inum != n
  {
    hide Total, ChildrenOk, ParentOk;
    assert DirShape(nodes, d);
    TotalHeld(nodes, d, n);
    if nodes[d].ents[k].inum == n {
      assert nodes[d].ents[k].name != ".";
      CountSome(nodes[d].ents, k, n);
    }
  }

  // What a linked directory names is an inode in use, with a positive count.
  lemma Named(nodes: seq<Node>, pending: multiset<nat>, depth: seq<nat>, d: nat, k: nat)
    requires Inv(nodes, pending, depth) && IsLive(nodes, d) && k < |nodes[d].ents| && nodes[d].ents[k].inum != 0
    ensures nodes[d].ents[k].inum < |nodes| && nodes[nodes[d].ents[k].inum].Node?
    ensures nodes[nodes[d].ents[k].inum].nlink > 0
  {
    hide Total, ChildrenOk, ParentOk;
    assert DirShape(nodes, d);
    var i := nodes[d].ents[k].inum;
    if NLink(nodes[i]) == 0 {
      Unnamed(nodes, pending, depth, i, d, k);
      assert false;
    }
    assert NLink(nodes[i]) == Total(nodes, i) + pending[i];
  }

  // A new directory n under dp.
  lemma TreeMkdir(nodes: seq<Node>, pending: multiset<nat>, depth: seq<nat>, dp: nat, n: nat, k: nat, name: string)
    requires Inv(nodes, pending, depth) && IsLive(nodes, dp) && nodes[dp].nlink < 0x7fff && k <= |nodes[dp].ents|
    requires k < |nodes[dp].ents| ==> nodes[dp].ents[k].inum == 0
    requires 0 < n < |nodes| && nodes[n] == Free && !Special(name)
    ensures Tree(Created(nodes, dp, n, Dir, [Entry(n, "."), Entry(dp, "..")], Place(nodes[dp].ents, k, Entry(n, name))),
                 depth[n := depth[dp] + 1])
  {
    hide Place, DirShape, ChildrenOk, ParentOk, DeadEmpty, Counted;
    var r := Created(nodes, dp, n, Dir, [Entry(n, "."), Entry(dp, "..")], Place(nodes[dp].ents, k, Entry(n, name)));
    KeepsFirst(nodes, depth, dp, k);
    forall d: nat | IsLive(r, d)
      ensures DirShape(r, d) && ChildrenOk(r, d) && ParentOk(r, depth[n := depth[dp] + 1], d)
    {
      MkdirShape(nodes, pending, depth, dp, n, k, name, r, d);
      MkdirChildren(nodes, pending, depth, dp, n, k, name, r, d);
      MkdirParent(nodes, pending, depth, dp, n, k, name, r, d);
    }
    forall d: nat | IsDead(r, d)
      ensures DeadEmpty(r, d)
    {
      DeadSame(nodes, r, d);
    }
  }

  ghost predicate Mkdir(nodes: seq<Node>, pending: multiset<nat>, depth: seq<nat>, dp: nat, n: nat, k: nat,
                        name: string, r: seq<Node>) {
    && Inv(nodes, pending, depth) && IsLive(nodes, dp) && nodes[dp].nlink < 0x7fff && 2 <= k <= |nodes[dp].ents|
    && (k < |nodes[dp].ents| ==> nodes[dp].ents[k].inum == 0)
    && 0 < n < |nodes| && nodes[n] == Free && !Special(name)
    && r == Created(nodes, dp, n, Dir, [Entry(n, "."), Entry(dp, "..")], Place(nodes[dp].ents, k, Entry(n, name)))
  }

  lemma MkdirShape(nodes: seq<Node>, pending: multiset<nat>, depth: seq<nat>, dp: nat, n: nat, k: nat, name: string,
                   r: seq<Node>, d: nat)
    requires Mkdir(nodes, pending, depth, dp, n, k, name, r) && IsLive(r, d)
    ensures DirShape(r, d)
  {
    hide Place, ChildrenOk, ParentOk, DeadEmpty, Counted, DirShape;
    if d != n {
      assert DirShape(nodes, d);
      ShapeFacts(nodes, d);
      if d == dp {
        assert r[d].ents[k] == Entry(n, name) && forall j :: 0 <= j < |nodes[d].ents| && j != k ==>
                 r[d].ents[j] == nodes[d].ents[j];
        ShapePlaced(nodes, r, d, k);
      } else {
        ShapeSame(nodes, r, d);
      }
    } else {
      NewShape(r, n, dp);
    }
  }

  lemma ShapeFacts(nodes: seq<Node>, d: nat)
    requires IsLive(nodes, d) && DirShape(nodes, d)
    ensures |nodes[d].ents| >= 2 && IsLive(nodes, nodes[d].ents[1].inum)
  {
  }

  lemma NewShape(r: seq<Node>, n: nat, dp: nat)
    requires IsLive(r, n) && IsLive(r, dp) && r[n].ents == [Entry(n, "."), Entry(dp, "..")]
    ensures DirShape(r, n)
  {
  }

  lemma ShapePlaced(nodes: seq<Node>, r: seq<Node>, d: nat, k: nat)
    requires IsLive(nodes, d) && IsLive(r, d) && DirShape(nodes, d) && |r| == |nodes|
    requires 2 <= k < |r[d].ents| && k <= |nodes[d].ents|
    requires |nodes[d].ents| <= |r[d].ents| <= Max(|nodes[d].ents|, k + 1)
    requires IsLive(r, nodes[d].ents[1].inum)
    requires !Special(r[d].ents[k].name) && r[d].ents[k].inum < |r| && r[d].ents[k].inum != d
    requires forall j :: 0 <= j < |nodes[d].ents| && j != k ==> r[d].ents[j] == nodes[d].ents[j]
    ensures DirShape(r, d)
  {
    assert r[d].ents[0] == nodes[d].ents[0] && r[d].ents[1] == nodes[d].ents[1];
  }

  lemma MkdirChildren(nodes: seq<Node>, pending: multiset<nat>, depth: seq<nat>, dp: nat, n: nat, k: nat,
                      name: string, r: seq<Node>, d: nat)
    requires Mkdir(nodes, pending, depth, dp, n, k, name, r) && IsLive(r, d)
    ensures ChildrenOk(r, d)
  {
    hide Place, DirShape, ParentOk, DeadEmpty, Counted;
    if d != n {
      assert ChildrenOk(nodes, d);
      var es := r[d].ents;
      forall j: nat | Sub(r, es, j)
        ensures if d == dp && j == k then es[j].inum == n
                else Sub(nodes, nodes[d].ents, j) && nodes[d].ents[j] == es[j] && es[j].inum != n
      {
        if !(d == dp && j == k) {
          Unnamed(nodes, pending, depth, n, d, j);
        }
      }
      forall c: nat | IsDir(nodes, c) && ChildOk(nodes, d, c)
        ensures ChildOk(r, d, c)
      {
      }
    }
  }

  lemma MkdirParent(nodes: seq<Node>, pending: multiset<nat>, depth: seq<nat>, dp: nat, n: nat, k: nat, name: string,
                    r: seq<Node>, d: nat)
    requires Mkdir(nodes, pending, depth, dp, n, k, name, r) && IsLive(r, d) && DirShape(r, d)
    ensures ParentOk(r, depth[n := depth[dp] + 1], d)
  {
    hide Place, ChildrenOk, DeadEmpty, Counted;
    if d == n {
      assert r[dp].ents[k].inum == n;
    } else {
      assert DirShape(nodes, d) && ParentOk(nodes, depth, d);
      var p := nodes[d].ents[1].inum;
      if d != ROOT {
        var j :| 2 <= j < |nodes[p].ents| && nodes[p].ents[j].inum == d;
        assert r[p].ents[j].inum == d;
      }
    }
  }

  // The links of a new inode n and the entry for it, in a linked directory.
  lemma CreatedCounts(nodes: seq<Node>, pending: multiset<nat>, depth: seq<nat>, dp: nat, n: nat, k: nat,
                      name: string, kind: Kind, j: nat)
    requires Inv(nodes, pending, depth) && IsLive(nodes, dp) && k <= |nodes[dp].ents|
    requires k < |nodes[dp].ents| ==> nodes[dp].ents[k].inum == 0
    requires 0 < n < |nodes| && nodes[n] == Free && !Special(name) && 0 < j < |nodes|
    requires kind == Dir ==> nodes[dp].nlink < 0x7fff
    ensures var ents := if kind == Dir then [Entry(n, "."), Entry(dp, "..")] else [];
      Total(Created(nodes, dp, n, kind, ents, Place(nodes[dp].ents, k, Entry(n, name))), j)
        == Total(nodes, j) + (if j == n then 1 else 0) + (if j == dp && kind == Dir then 1 else 0)
  {
    hide Place, Tree, Total, Counted;
    var ents := if kind == Dir then [Entry(n, "."), Entry(dp, "..")] else [];
    var made := Node(kind, 1, ents);
    var r := Created(nodes, dp, n, kind, ents, Place(nodes[dp].ents, k, Entry(n, name)));
    assert n != dp;
    TotalUpdate(nodes, n, made, j);
    TotalUpdate(nodes[n := made], dp, r[dp], j);
    PlaceCount(nodes[dp].ents, k, Entry(n, name), j);
    if kind == Dir {
      NewCount(n, dp, j);
    }
  }

  lemma NewCount(n: nat, dp: nat, j: nat)
    ensures Count([Entry(n, "."), Entry(dp, "..")], j) == if j == dp then 1 else 0
  {
    CountAppend([], Entry(n, "."), j);
    CountAppend([Entry(n, ".")], Entry(dp, ".."), j);
    assert [] + [Entry(n, ".")] == [Entry(n, ".")];
    assert [Entry(n, "."), Entry(dp, "..")] == [Entry(n, ".")] + [Entry(dp, "..")];
  }

  function NewDepth(depth: seq<nat>, dp: nat, n: nat, kind: Kind): seq<nat>
    requires dp < |depth| && n < |depth|
  {
    if kind == Dir then depth[n := depth[dp] + 1] else depth
  }

  // The inode create allocated, if it allocated one.
  predicate Allocates(nodes: seq<Node>, dp: nat, name: string, kind: Kind, g1: bool, g2: bool, g3: bool, n: nat)
    requires IsDir(nodes, dp) && |nodes| > 0
  {
    Lookup(nodes[dp].ents, name, 0).None? && Create(nodes, dp, name, kind, g1, g2, g3).1 == Got(n)
  }

  // create leaves the file system as it was, or adds one inode, and then the
  // counts are kept exactly when the directory is itself linked and its own
  // count does not wrap.
  lemma CreateKeeps(nodes: seq<Node>, pending: multiset<nat>, depth: seq<nat>,
                    dp: nat, name: string, kind: Kind, g1: bool, g2: bool, g3: bool)
    requires Inv(nodes, pending, depth) && IsDir(nodes, dp)
    ensures var (r, out) := Create(nodes, dp, name, kind, g1, g2, g3);
      && (out.Got? && Allocates(nodes, dp, name, kind, g1, g2, g3, out.inum) ==>
          && 0 < out.inum < |nodes| && nodes[out.inum] == Free
          && (Inv(r, pending, NewDepth(depth, dp, out.inum, kind)) <==>
              Live(nodes[dp]) && (kind == Dir ==> nodes[dp].nlink < 0x7fff))
          && (!(Live(nodes[dp]) && (kind == Dir ==> nodes[dp].nlink < 0x7fff)) ==> !Counted(r, pending)))
      && (!(out.Got? && Allocates(nodes, dp, name, kind, g1, g2, g3, out.inum)) ==> r == nodes)
      && (out == Panic ==> !Live(nodes[dp]))
  {
    hide Place, Tree, Total, Counted, Count;
    var (r, out) := Create(nodes, dp, name, kind, g1, g2, g3);
    var es := nodes[dp].ents;
    if Lookup(es, name, 0).Some? {
      if Live(nodes[dp]) {
        Named(nodes, pending, depth, dp, Lookup(es, name, 0).value);
      }
    } else if out.Got? {
      CreatedKeeps(nodes, pending, depth, dp, name, kind, g1, g2, g3, out.inum);
    }
  }

  lemma CreatedKeeps(nodes: seq<Node>, pending: multiset<nat>, depth: seq<nat>,
                     dp: nat, name: string, kind: Kind, g1: bool, g2: bool, g3: bool, n: nat)
    requires Inv(nodes, pending, depth) && IsDir(nodes, dp) && Allocates(nodes, dp, name, kind, g1, g2, g3, n)
    ensures 0 < n < |nodes| && nodes[n] == Free
    ensures var r := Create(nodes, dp, name, kind, g1, g2, g3).0;
      && (Live(nodes[dp]) && (kind == Dir ==> nodes[dp].nlink < 0x7fff) ==>
          Inv(r, pending, NewDepth(depth, dp, n, kind)))
      && (!(Live(nodes[dp]) && (kind == Dir ==> nodes[dp].nlink < 0x7fff)) ==> !Counted(r, pending))
  {
    hide Place, Tree, Total, Counted, Count, DirShape, Linked;
    var es := nodes[dp].ents;
    var k := FirstEmpty(es, 0);
    CreateValue(nodes, dp, name, kind, g1, g2, g3, n);
    if Live(nodes[dp]) {
      NotSpecial(nodes, depth, dp, name);
      if kind == Dir ==> nodes[dp].nlink < 0x7fff {
        CreatedLive(nodes, pending, depth, dp, n, k, name, kind);
      } else {
        CreatedWraps(nodes, pending, depth, dp, n, Place(es, k, Entry(n, name)));
      }
    } else {
      CreatedDead(nodes, pending, depth, dp, n, k, name, kind);
    }
  }

  function NewDir(n: nat, dp: nat, kind: Kind): seq<Entry> {
    if kind == Dir then [Entry(n, "."), Entry(dp, "..")] else []
  }

  lemma CreateValue(nodes: seq<Node>, dp: nat, name: string, kind: Kind, g1: bool, g2: bool, g3: bool, n: nat)
    requires IsDir(nodes, dp) && |nodes| > 0 && Allocates(nodes, dp, name, kind, g1, g2, g3, n)
    ensures 0 < n < |nodes| && nodes[n] == Free && n != dp
    ensures Create(nodes, dp, name, kind, g1, g2, g3).0
         == Created(nodes, dp, n, kind, NewDir(n, dp, kind),
                    Place(nodes[dp].ents, FirstEmpty(nodes[dp].ents, 0), Entry(n, name)))
  {
    NewEntsValue(n, dp, g1, g2);
  }

  lemma CreatedLive(nodes: seq<Node>, pending: multiset<nat>, depth: seq<nat>, dp: nat, n: nat, k: nat, name: string,
                    kind: Kind)
    requires Inv(nodes, pending, depth) && IsLive(nodes, dp) && (kind == Dir ==> nodes[dp].nlink < 0x7fff)
    requires k <= |nodes[dp].ents| && (k < |nodes[dp].ents| ==> nodes[dp].ents[k].inum == 0)
    requires 0 < n < |nodes| && nodes[n] == Free && !Special(name)
    ensures Inv(Created(nodes, dp, n, kind, NewDir(n, dp, kind), Place(nodes[dp].ents, k, Entry(n, name))),
                pending, NewDepth(depth, dp, n, kind))
  {
    hide Place, Tree, Total, Count;
    var r := Created(nodes, dp, n, kind, NewDir(n, dp, kind), Place(nodes[dp].ents, k, Entry(n, name)));
    forall j: nat | 0 < j < |nodes|
      ensures NLink(r[j]) == Total(r, j) + pending[j] && NLink(r[j]) < 0x8000
    {
      CreatedCounts(nodes, pending, depth, dp, n, k, name, kind, j);
      assert NLink(nodes[j]) == Total(nodes, j) + pending[j];
    }
    if kind == Dir {
      TreeMkdir(nodes, pending, depth, dp, n, k, name);
    } else {
      TreeNonDir(nodes, depth, n, Node(kind, 1, []));
      TreePlace(nodes[n := Node(kind, 1, [])], depth, dp, k, Entry(n, name));
    }
  }

  lemma CreatedWraps(nodes: seq<Node>, pending: multiset<nat>, depth: seq<nat>, dp: nat, n: nat, es: seq<Entry>)
    requires Inv(nodes, pending, depth) && IsLive(nodes, dp) && nodes[dp].nlink >= 0x7fff && 0 < n < |nodes| && n != dp
    ensures !Counted(Created(nodes, dp, n, Dir, NewDir(n, dp, Dir), es), pending)
  {
    hide Total, DirShape, ChildrenOk, ParentOk, DeadEmpty;
    var r := Created(nodes, dp, n, Dir, NewDir(n, dp, Dir), es);
    assert NLink(nodes[dp]) < 0x8000;
    assert NLink(r[dp]) < 0;
  }

  // In an unlinked directory a new file is named by nothing, and a new directory
  // brings the ".." of its parent back without counting it.
  lemma CreatedDead(nodes: seq<Node>, pending: multiset<nat>, depth: seq<nat>, dp: nat, n: nat, k: nat, name: string,
                    kind: Kind)
    requires Inv(nodes, pending, depth) && IsDir(nodes, dp) && !Live(nodes[dp])
    requires k <= |nodes[dp].ents| && (k < |nodes[dp].ents| ==> nodes[dp].ents[k].inum == 0)
    requires 0 < n < |nodes| && nodes[n] == Free && Lookup(nodes[dp].ents, name, 0).None?
    ensures !Counted(Created(nodes, dp, n, kind, NewDir(n, dp, kind), Place(nodes[dp].ents, k, Entry(n, name))),
                     pending)
  {
    hide Place, Total, Count, DirShape, ChildrenOk, ParentOk;
    var es := nodes[dp].ents;
    assert IsDead(nodes, dp) && DeadEmpty(nodes, dp);
    var made := Node(kind, 1, NewDir(n, dp, kind));
    var r := Created(nodes, dp, n, kind, NewDir(n, dp, kind), Place(es, k, Entry(n, name)));
    var p := if kind == Dir then es[1].inum else n;
    TotalUpdate(nodes, n, made, p);
    TotalUpdate(nodes[n := made], dp, r[dp], p);
    assert NLink(nodes[p]) == Total(nodes, p) + pending[p];
    assert NLink(nodes[dp]) == Total(nodes, dp) + pending[dp];
    if kind == Dir {
      NewCount(n, dp, p);
      PlaceCount(es, k, Entry(n, name), p);
      CountSome(es, 1, p);
    }
    assert NLink(r[p]) != Total(r, p) + pending[p];
  }

  // ------------------------------------------------------------ sys_unlink

  const Empty: Entry := Entry(0, "")

  function Unlink(nodes: seq<Node>, dp: nat, name: string): (seq<Node>, Outcome)
    requires IsDir(nodes, dp)
  {
    var es := nodes[dp].ents;
    if Special(name) || Lookup(es, name, 0).None? then (nodes, Fail) else
    var k := Lookup(es, name, 0).value;
    var ip := es[k].inum;
    if ip >= |nodes| || nodes[ip] == Free || nodes[ip].nlink < 1 then (nodes, Panic)
    else if nodes[ip].kind == Dir && !DirEmpty(nodes[ip].ents) then (nodes, Fail)
    else (Unlinked(nodes, dp, k), Got(ip))
  }

  function Unlinked(nodes: seq<Node>, dp: nat, k: nat): seq<Node>
    requires IsDir(nodes, dp) && k < |nodes[dp].ents| && nodes[dp].ents[k].inum < |nodes|
    requires nodes[nodes[dp].ents[k].inum].Node?
  {
    var ip := nodes[dp].ents[k].inum;
    var nlink := if nodes[ip].kind == Dir then Short(nodes[dp].nlink - 1) else nodes[dp].nlink;
    var mid := nodes[dp := Node(Dir, nlink, nodes[dp].ents[k := Empty])];
    mid[ip := mid[ip].(nlink := Short(mid[ip].nlink - 1))]
  }

  // What sys_unlink refuses: ".", "..", a name that is not there, and a
  // directory that is not empty.
  predicate Keeps(nodes: seq<Node>, dp: nat, name: string)
    requires IsDir(nodes, dp)
  {
    var es := nodes[dp].ents;
    || name == "." || name == ".." || NotNamed(es, name)
    || exists k: nat :: k < |es| && FirstNamed(es, name, k) && IsDir(nodes, es[k].inum) &&
         exists j :: 2 <= j < |nodes[es[k].inum].ents| && nodes[es[k].inum].ents[j].inum != 0
  }

  // Entry k of dp is erased and its inode has one link less, as has dp if that
  // was a directory; each of the two is freed if its last link and its last
  // reference are gone.
  predicate Erased(nodes: seq<Node>, r: seq<Node>, dp: nat, k: nat, lastDp: bool, lastIp: bool)
    requires IsDir(nodes, dp) && k < |nodes[dp].ents|
  {
    var i := nodes[dp].ents[k].inum;
    && i < |nodes| && nodes[i].Node? && i != dp
    && var nlink := if nodes[i].kind == Dir then Short(nodes[dp].nlink - 1) else nodes[dp].nlink;
       var d := Node(Dir, nlink, nodes[dp].ents[k := Entry(0, "")]);
       var n := nodes[i].(nlink := Short(nodes[i].nlink - 1));
       r == nodes[dp := if lastDp && nlink == 0 then Free else d][i := if lastIp && n.nlink == 0 then Free else n]
  }

  lemma UnlinkIs(nodes: seq<Node>, pending: multiset<nat>, depth: seq<nat>, dp: nat, name: string, lastDp: bool,
                 lastIp: bool)
    requires Inv(nodes, pending, depth) && IsDir(nodes, dp) && Unlink(nodes, dp, name).1 != Panic
    ensures var (r, out) := Unlink(nodes, dp, name);
      && (out == Fail <==> Keeps(nodes, dp, name))
      && (out.Got? ==> dp < |r| && out.inum < |Put(r, dp, lastDp)| && exists k: nat ::
            FirstNamed(nodes[dp].ents, name, k) && nodes[dp].ents[k].inum == out.inum
            && Erased(nodes, Put(Put(r, dp, lastDp), out.inum, lastIp), dp, k, lastDp, lastIp))
  {
    hide Inv, Lookup, FirstNamed, NotNamed;
    var es := nodes[dp].ents;
    LookupIs(es, name);
    if !Special(name) && Lookup(es, name, 0).Some? {
      var k := Lookup(es, name, 0).value;
      Elsewhere(nodes, pending, depth, dp, name, k);
      assert FirstNamed(es, name, k);
    }
  }

  // A directory has no entry for itself but ".".
  lemma Elsewhere(nodes: seq<Node>, pending: multiset<nat>, depth: seq<nat>, dp: nat, name: string, k: nat)
    requires Inv(nodes, pending, depth) && IsDir(nodes, dp) && FirstNamed(nodes[dp].ents, name, k) && !Special(name)
    ensures nodes[dp].ents[k].inum != dp
  {
    hide Total, ChildrenOk, ParentOk;
    if IsLive(nodes, dp) {
      assert DirShape(nodes, dp);
    } else {
      assert IsDead(nodes, dp);
    }
  }

  // An empty directory other than the root is named once, by its parent.
  lemma OnlyParent(nodes: seq<Node>, pending: multiset<nat>, depth: seq<nat>, dp: nat, k: nat)
    requires Inv(nodes, pending, depth) && IsLive(nodes, dp) && Sub(nodes, nodes[dp].ents, k)
    requires IsLive(nodes, nodes[dp].ents[k].inum) && DirEmpty(nodes[nodes[dp].ents[k].inum].ents)
    ensures nodes[nodes[dp].ents[k].inum].nlink == 1
  {
    hide Total, Count, DirShape, ParentOk, DeadEmpty;
    var c := nodes[dp].ents[k].inum;
    assert ChildOk(nodes, dp, c);
    forall d: nat, j: nat | IsLive(nodes, d) && j < |nodes[d].ents| && !(d == dp && j == k)
      ensures One(nodes[d].ents[j], c) == 0
    {
      NotNamedBy(nodes, depth, dp, k, d, j);
    }
    forall d: nat | d < |nodes| && d != dp
      ensures Held(nodes[d], c) == 0
    {
      if IsLive(nodes, d) {
        CountZero(nodes[d].ents, c);
      }
    }
    TotalSingle(nodes, dp, c);
    DotDotNames(nodes, depth, dp, k);
    CountSingle(nodes[dp].ents, k, c);
    assert NLink(nodes[c]) == Total(nodes, c) + pending[c];
  }

  lemma DotDotNames(nodes: seq<Node>, depth: seq<nat>, d: nat, k: nat)
    requires Tree(nodes, depth) && IsLive(nodes, d) && 2 <= k < |nodes[d].ents| && nodes[d].ents[k].inum != 0
    ensures nodes[d].ents[k].name != "." && nodes[d].ents[k].inum != d
  {
    hide ChildrenOk, ParentOk, DeadEmpty;
    assert DirShape(nodes, d);
  }

  lemma NotNamedBy(nodes: seq<Node>, depth: seq<nat>, dp: nat, k: nat, d: nat, j: nat)
    requires Tree(nodes, depth) && IsLive(nodes, dp) && Sub(nodes, nodes[dp].ents, k)
    requires DirEmpty(nodes[nodes[dp].ents[k].inum].ents)
    requires IsLive(nodes, d) && j < |nodes[d].ents| && !(d == dp && j == k)
    ensures One(nodes[d].ents[j], nodes[dp].ents[k].inum) == 0
  {
    hide DeadEmpty, Place;
    var c := nodes[dp].ents[k].inum;
    assert ChildrenOk(nodes, dp) && ChildOk(nodes, dp, c);
    assert DirShape(nodes, d) && ChildrenOk(nodes, d) && ParentOk(nodes, depth, d);
    var sub := Sub(nodes, nodes[d].ents, j);
  }

  // Removing an entry that names no directory.
  lemma TreeClear(nodes: seq<Node>, depth: seq<nat>, dp: nat, k: nat)
    requires Tree(nodes, depth) && IsLive(nodes, dp) && 2 <= k < |nodes[dp].ents|
    requires nodes[dp].ents[k].inum < |nodes| && !IsDir(nodes, nodes[dp].ents[k].inum)
    ensures Tree(nodes[dp := nodes[dp].(ents := nodes[dp].ents[k := Empty])], depth)
  {
    hide DirShape, ChildrenOk, ParentOk, DeadEmpty;
    var r := nodes[dp := nodes[dp].(ents := nodes[dp].ents[k := Empty])];
    forall d: nat | IsLive(r, d)
      ensures DirShape(r, d) && ChildrenOk(r, d) && ParentOk(r, depth, d)
    {
      ClearDir(nodes, depth, dp, k, nodes[dp].nlink, r, d);
    }
    forall d: nat | IsDead(r, d)
      ensures DeadEmpty(r, d)
    {
      DeadSame(nodes, r, d);
    }
  }

  // r is nodes with entry k of dp cleared, its count set, and possibly the
  // directory that the entry named no longer linked.
  ghost predicate Cleared(nodes: seq<Node>, depth: seq<nat>, dp: nat, k: nat, nlink: int, r: seq<Node>) {
    && Tree(nodes, depth) && IsLive(nodes, dp) && 2 <= k < |nodes[dp].ents| && nlink > 0
    && |r| == |nodes| && r[dp] == Node(Dir, nlink, nodes[dp].ents[k := Empty])
    && (forall d: nat :: d < |r| && d != dp && d != nodes[dp].ents[k].inum ==> r[d] == nodes[d])
    && var c := nodes[dp].ents[k].inum;
       && c < |nodes|
       && if IsDir(nodes, c) then IsDir(r, c) && !IsLive(r, c) && DirEmpty(nodes[c].ents)
                               && r[c].ents == nodes[c].ents && c != dp
          else !IsDir(r, c)
  }

  lemma ClearDir(nodes: seq<Node>, depth: seq<nat>, dp: nat, k: nat, nlink: int, r: seq<Node>, d: nat)
    requires Cleared(nodes, depth, dp, k, nlink, r) && IsLive(r, d)
    ensures DirShape(r, d) && ChildrenOk(r, d) && ParentOk(r, depth, d)
  {
    hide DirShape, ChildrenOk, ParentOk, DeadEmpty;
    ClearParentLive(nodes, depth, dp, k, nlink, r, d);
    ClearShape(nodes, depth, dp, k, nlink, r, d);
    ClearChildren(nodes, depth, dp, k, nlink, r, d);
    ClearParent(nodes, depth, dp, k, nlink, r, d);
  }

  // The parent of d is not the directory being removed, which is empty.
  lemma ClearParentLive(nodes: seq<Node>, depth: seq<nat>, dp: nat, k: nat, nlink: int, r: seq<Node>, d: nat)
    requires Cleared(nodes, depth, dp, k, nlink, r) && IsLive(r, d)
    ensures IsLive(nodes, d) && |nodes[d].ents| >= 2 && IsLive(r, nodes[d].ents[1].inum)
    ensures IsDir(nodes, nodes[dp].ents[k].inum) ==> nodes[d].ents[1].inum != nodes[dp].ents[k].inum
  {
    hide ChildrenOk, DeadEmpty;
    assert DirShape(nodes, d) && ParentOk(nodes, depth, d);
  }

  lemma ClearShape(nodes: seq<Node>, depth: seq<nat>, dp: nat, k: nat, nlink: int, r: seq<Node>, d: nat)
    requires Cleared(nodes, depth, dp, k, nlink, r) && IsLive(r, d)
    requires IsLive(nodes, d) && |nodes[d].ents| >= 2 && IsLive(r, nodes[d].ents[1].inum)
    ensures DirShape(r, d)
  {
    hide ChildrenOk, ParentOk, DeadEmpty, DirEmpty;
    assert DirShape(nodes, d);
    ShapeSame(nodes, r, d);
  }

  lemma ShapeSame(nodes: seq<Node>, r: seq<Node>, d: nat)
    requires IsLive(nodes, d) && IsLive(r, d) && DirShape(nodes, d) && |r| == |nodes| && |r[d].ents| == |nodes[d].ents|
    requires IsLive(r, nodes[d].ents[1].inum)
    requires forall j :: 0 <= j < |r[d].ents| && (j < 2 || r[d].ents[j].inum != 0) ==> r[d].ents[j] == nodes[d].ents[j]
    ensures DirShape(r, d)
  {
    assert r[d].ents[0] == nodes[d].ents[0] && r[d].ents[1] == nodes[d].ents[1];
  }

  lemma ClearChildren(nodes: seq<Node>, depth: seq<nat>, dp: nat, k: nat, nlink: int, r: seq<Node>, d: nat)
    requires Cleared(nodes, depth, dp, k, nlink, r) && IsLive(r, d) && IsLive(nodes, d)
    ensures ChildrenOk(r, d)
  {
    hide DirShape, ParentOk, DeadEmpty;
    assert ChildrenOk(nodes, d);
    forall j: nat | Sub(r, r[d].ents, j)
      ensures Sub(nodes, nodes[d].ents, j) && r[d].ents[j] == nodes[d].ents[j]
    {
    }
    forall c: nat | IsDir(nodes, c) && IsDir(r, c) && ChildOk(nodes, d, c)
      ensures ChildOk(r, d, c)
    {
    }
  }

  lemma ClearParent(nodes: seq<Node>, depth: seq<nat>, dp: nat, k: nat, nlink: int, r: seq<Node>, d: nat)
    requires Cleared(nodes, depth, dp, k, nlink, r) && IsLive(r, d) && IsLive(nodes, d) && DirShape(r, d)
    ensures ParentOk(r, depth, d)
  {
    hide ChildrenOk, DeadEmpty;
    assert DirShape(nodes, d) && ParentOk(nodes, depth, d);
    var p := nodes[d].ents[1].inum;
    if d != ROOT {
      var j :| 2 <= j < |nodes[p].ents| && nodes[p].ents[j].inum == d;
      assert r[p].ents[j].inum == d;
    }
  }

  lemma TreeRmdir(nodes: seq<Node>, pending: multiset<nat>, depth: seq<nat>, dp: nat, k: nat)
    requires Inv(nodes, pending, depth) && IsLive(nodes, dp) && Sub(nodes, nodes[dp].ents, k)
    requires nodes[nodes[dp].ents[k].inum].nlink == 1 && DirEmpty(nodes[nodes[dp].ents[k].inum].ents)
    requires 1 < nodes[dp].nlink < 0x8000 && nodes[dp].ents[k].inum != dp
    ensures Tree(Unlinked(nodes, dp, k), depth)
  {
    hide DirShape, ChildrenOk, ParentOk, DeadEmpty;
    var r := Unlinked(nodes, dp, k);
    var c := nodes[dp].ents[k].inum;
    assert ChildrenOk(nodes, dp) && ChildOk(nodes, dp, c) by {
      ChildOfSub(nodes, depth, dp, k);
    }
    assert Cleared(nodes, depth, dp, k, nodes[dp].nlink - 1, r);
    forall d: nat | IsLive(r, d)
      ensures DirShape(r, d) && ChildrenOk(r, d) && ParentOk(r, depth, d)
    {
      ClearDir(nodes, depth, dp, k, nodes[dp].nlink - 1, r, d);
    }
    forall d: nat | IsDead(r, d)
      ensures DeadEmpty(r, d)
    {
      if d == c {
        DirEmptyDead(nodes, depth, c, r);
      } else {
        DeadSame(nodes, r, d);
      }
    }
  }

  lemma ChildOfSub(nodes: seq<Node>, depth: seq<nat>, dp: nat, k: nat)
    requires Tree(nodes, depth) && IsLive(nodes, dp) && Sub(nodes, nodes[dp].ents, k)
    ensures ChildrenOk(nodes, dp) && ChildOk(nodes, dp, nodes[dp].ents[k].inum)
  {
    hide DirShape, ParentOk, DeadEmpty;
  }

  lemma DirEmptyDead(nodes: seq<Node>, depth: seq<nat>, c: nat, r: seq<Node>)
    requires Tree(nodes, depth) && IsLive(nodes, c) && c != ROOT && DirEmpty(nodes[c].ents)
    requires IsDead(r, c) && r[c].ents == nodes[c].ents && |r| == |nodes|
    ensures DeadEmpty(r, c)
  {
    hide ChildrenOk;
    assert DirShape(nodes, c) && ParentOk(nodes, depth, c);
  }

  // A directory with a subdirectory has two links: its own and the child's "..".
  lemma ParentCount(nodes: seq<Node>, pending: multiset<nat>, depth: seq<nat>, dp: nat, k: nat)
    requires Inv(nodes, pending, depth) && IsLive(nodes, dp) && Sub(nodes, nodes[dp].ents, k)
    requires IsLive(nodes, nodes[dp].ents[k].inum) && DirEmpty(nodes[nodes[dp].ents[k].inum].ents)
    ensures nodes[dp].nlink >= 2 && nodes[dp].nlink < 0x8000
  {
    hide Total, Count, DeadEmpty;
    var c := nodes[dp].ents[k].inum;
    ChildOfSub(nodes, depth, dp, k);
    assert DirShape(nodes, dp) && DirShape(nodes, c) && ParentOk(nodes, depth, dp) && ParentOk(nodes, depth, c);
    var p := nodes[dp].ents[1].inum;
    CountSome(nodes[c].ents, 1, dp);
    if dp == ROOT {
      CountSome(nodes[dp].ents, 1, dp);
    } else {
      var j :| 2 <= j < |nodes[p].ents| && nodes[p].ents[j].inum == dp;
      DotDotNames(nodes, depth, p, j);
      CountSome(nodes[p].ents, j, dp);
    }
    TotalPair(nodes, c, p, dp);
    assert NLink(nodes[dp]) == Total(nodes, dp) + pending[dp];
  }

  // The counts after sys_unlink.
  lemma UnlinkedCounts(nodes: seq<Node>, pending: multiset<nat>, depth: seq<nat>, dp: nat, k: nat, j: nat)
    requires Inv(nodes, pending, depth) && IsLive(nodes, dp) && 2 <= k < |nodes[dp].ents| && 0 < j < |nodes|
    requires 0 < nodes[dp].ents[k].inum < |nodes| && nodes[dp].ents[k].inum != dp && nodes[nodes[dp].ents[k].inum].Node?
    requires 0 < nodes[nodes[dp].ents[k].inum].nlink < 0x8000 && nodes[dp].nlink < 0x8000
    requires nodes[nodes[dp].ents[k].inum].kind == Dir ==>
      nodes[nodes[dp].ents[k].inum].nlink == 1 && nodes[dp].nlink > 1 && DirEmpty(nodes[nodes[dp].ents[k].inum].ents)
    ensures var c := nodes[dp].ents[k].inum;
      Total(Unlinked(nodes, dp, k), j)
        == Total(nodes, j) - (if j == c then 1 else 0) - (if j == dp && nodes[c].kind == Dir then 1 else 0)
  {
    hide Total, Tree, Counted;
    var c := nodes[dp].ents[k].inum;
    var r := Unlinked(nodes, dp, k);
    var mid := nodes[dp := r[dp]];
    TotalUpdate(nodes, dp, r[dp], j);
    TotalUpdate(mid, c, r[c], j);
    CountUpdate(nodes[dp].ents, k, Empty, j);
    DotDotNames(nodes, depth, dp, k);
    if nodes[c].kind == Dir {
      ChildOfSub(nodes, depth, dp, k);
      HeldByEmpty(nodes, depth, c, j);
    }
  }

  // An empty directory holds only the link to its parent.
  lemma HeldByEmpty(nodes: seq<Node>, depth: seq<nat>, c: nat, j: nat)
    requires Tree(nodes, depth) && IsLive(nodes, c) && DirEmpty(nodes[c].ents) && j > 0
    ensures |nodes[c].ents| >= 2 && Held(nodes[c], j) == if j == nodes[c].ents[1].inum then 1 else 0
  {
    hide ChildrenOk, ParentOk, DeadEmpty, Count;
    assert DirShape(nodes, c);
    OnlyDots(nodes[c].ents, c, j);
  }

  lemma OnlyDots(es: seq<Entry>, c: nat, j: nat)
    requires |es| >= 2 && es[0] == Entry(c, ".") && es[1].name == ".." && DirEmpty(es) && j > 0
    ensures Count(es, j) == if j == es[1].inum then 1 else 0
  {
    hide Count;
    if j == es[1].inum {
      CountSingle(es, 1, j);
    } else {
      CountZero(es, j);
    }
  }

  // sys_unlink keeps the counts and the tree, and reaches neither panic.
  lemma UnlinkKeeps(nodes: seq<Node>, pending: multiset<nat>, depth: seq<nat>, dp: nat, name: string)
    requires Inv(nodes, pending, depth) && IsDir(nodes, dp)
    ensures Inv(Unlink(nodes, dp, name).0, pending, depth) && Unlink(nodes, dp, name).1 != Panic
  {
    hide Total, Count, DirShape, ChildrenOk, ParentOk, Unlinked;
    var es := nodes[dp].ents;
    if !Special(name) && Lookup(es, name, 0).Some? {
      var k := Lookup(es, name, 0).value;
      if IsDead(nodes, dp) {
        DeadLookup(nodes, depth, dp, name);
        assert false;
      } else {
        PastDots(nodes, depth, dp, k);
        Named(nodes, pending, depth, dp, k);
        DotDotNames(nodes, depth, dp, k);
        if Unlink(nodes, dp, name).1.Got? {
          UnlinkedKeeps(nodes, pending, depth, dp, k);
        }
      }
    }
  }

  lemma DeadLookup(nodes: seq<Node>, depth: seq<nat>, d: nat, name: string)
    requires Tree(nodes, depth) && IsDead(nodes, d) && !Special(name)
    ensures Lookup(nodes[d].ents, name, 0).None?
  {
    hide ChildrenOk, ParentOk, DirShape;
    assert DeadEmpty(nodes, d);
  }

  lemma PastDots(nodes: seq<Node>, depth: seq<nat>, d: nat, k: nat)
    requires Tree(nodes, depth) && IsLive(nodes, d) && k < |nodes[d].ents| && !Special(nodes[d].ents[k].name)
    ensures k >= 2
  {
    hide ChildrenOk, ParentOk;
    assert DirShape(nodes, d);
  }

  lemma UnlinkedKeeps(nodes: seq<Node>, pending: multiset<nat>, depth: seq<nat>, dp: nat, k: nat)
    requires Inv(nodes, pending, depth) && 0 < dp && IsLive(nodes, dp) && 2 <= k < |nodes[dp].ents|
    requires 0 < nodes[dp].ents[k].inum < |nodes| && nodes[dp].ents[k].inum != dp && nodes[nodes[dp].ents[k].inum].Node?
    requires nodes[nodes[dp].ents[k].inum].nlink > 0
    requires nodes[nodes[dp].ents[k].inum].kind == Dir ==> DirEmpty(nodes[nodes[dp].ents[k].inum].ents)
    ensures Inv(Unlinked(nodes, dp, k), pending, depth)
  {
    hide Total, Count, DirShape, ChildrenOk, ParentOk, DeadEmpty, Tree;
    var c := nodes[dp].ents[k].inum;
    var r := Unlinked(nodes, dp, k);
    assert NLink(nodes[c]) < 0x8000 && NLink(nodes[dp]) < 0x8000;
    if nodes[c].kind == Dir {
      OnlyParent(nodes, pending, depth, dp, k);
      ParentCount(nodes, pending, depth, dp, k);
      TreeRmdir(nodes, pending, depth, dp, k);
    } else {
      TreeClear(nodes, depth, dp, k);
      TreeNonDir(nodes[dp := r[dp]], depth, c, r[c]);
    }
    forall j: nat | 0 < j < |nodes|
      ensures NLink(r[j]) == Total(r, j) + pending[j] && NLink(r[j]) < 0x8000
    {
      UnlinkedCounts(nodes, pending, depth, dp, k, j);
      assert NLink(nodes[j]) == Total(nodes, j) + pending[j];
    }
  }

  // ------------------------------------------------------------------- iput

  // iput, dropping the last reference when last holds.
  function Put(nodes: seq<Node>, i: nat, last: bool): seq<Node>
    requires i < |nodes|
  {
    if last && nodes[i].Node? && nodes[i].nlink == 0 then nodes[i := Free] else nodes
  }

  // An inode is freed only when no linked directory names it.
  lemma PutKeeps(nodes: seq<Node>, pending: multiset<nat>, depth: seq<nat>, i: nat, last: bool)
    requires Inv(nodes, pending, depth) && 0 < i < |nodes|
    ensures Inv(Put(nodes, i, last), pending, depth)
    ensures Put(nodes, i, last) != nodes ==>
      i !in pending && forall d: nat, k: nat :: IsLive(nodes, d) && k < |nodes[d].ents| ==> nodes[d].ents[k].inum != i
  {
    hide Total, DirShape, ChildrenOk, ParentOk, DeadEmpty, Count, Tree;
    var r := Put(nodes, i, last);
    if r != nodes {
      assert NLink(nodes[i]) == Total(nodes, i) + pending[i];
      forall d: nat, k: nat | IsLive(nodes, d) && k < |nodes[d].ents|
        ensures nodes[d].ents[k].inum != i
      {
        Unnamed(nodes, pending, depth, i, d, k);
      }
      forall j: nat | 0 < j < |nodes|
        ensures NLink(r[j]) == Total(r, j) + pending[j] && NLink(r[j]) < 0x8000
      {
        TotalUpdate(nodes, i, Free, j);
        assert NLink(nodes[j]) == Total(nodes, j) + pending[j];
      }
      if IsDir(nodes, i) {
        TreePutDir(nodes, depth, i);
      } else {
        TreeNonDir(nodes, depth, i, Free);
      }
    }
  }

  lemma TreePutDir(nodes: seq<Node>, depth: seq<nat>, i: nat)
    requires Tree(nodes, depth) && IsDead(nodes, i)
    requires forall d: nat, k: nat :: IsLive(nodes, d) && k < |nodes[d].ents| ==> nodes[d].ents[k].inum != i
    ensures Tree(nodes[i := Free], depth)
  {
    hide DirShape, ChildrenOk, ParentOk, DeadEmpty;
    var r := nodes[i := Free];
    forall d: nat | IsLive(r, d)
      ensures DirShape(r, d) && ChildrenOk(r, d) && ParentOk(r, depth, d)
    {
      PutDir(nodes, depth, i, d);
    }
    forall d: nat | IsDead(r, d)
      ensures DeadEmpty(r, d)
    {
      DeadSame(nodes, r, d);
    }
  }

  lemma PutDir(nodes: seq<Node>, depth: seq<nat>, i: nat, d: nat)
    requires Tree(nodes, depth) && IsDead(nodes, i) && IsLive(nodes, d)
    requires forall k: nat :: k < |nodes[d].ents| ==> nodes[d].ents[k].inum != i
    ensures DirShape(nodes[i := Free], d) && ChildrenOk(nodes[i := Free], d) && ParentOk(nodes[i := Free], depth, d)
  {
    var r := nodes[i := Free];
    assert DirShape(nodes, d) && ChildrenOk(nodes, d) && ParentOk(nodes, depth, d);
    assert DirShape(r, d);
    assert forall j: nat :: Sub(r, r[d].ents, j) ==> Sub(nodes, nodes[d].ents, j);
    assert forall c: nat :: IsDir(r, c) && ChildOk(nodes, d, c) ==> ChildOk(r, d, c);
  }

  // ------------------------------------------------------------------ the tree

  function Ancestor(nodes: seq<Node>, d: nat, k: nat): nat
    decreases k
  {
    if k == 0 then d
    else if IsLive(nodes, d) && |nodes[d].ents| >= 2 then Ancestor(nodes, nodes[d].ents[1].inum, k - 1)
    else d
  }

  // Following ".." from any linked directory ends at the root.
  lemma {:induction false} ReachesRoot(nodes: seq<Node>, pending: multiset<nat>, depth: seq<nat>, d: nat)
    requires Inv(nodes, pending, depth) && IsLive(nodes, d)
    ensures exists k: nat :: Ancestor(nodes, d, k) == ROOT
    decreases depth[d]
  {
    hide ChildrenOk, Counted;
    assert DirShape(nodes, d) && ParentOk(nodes, depth, d);
    if d == ROOT {
      assert Ancestor(nodes, d, 0) == ROOT;
    } else {
      var p := nodes[d].ents[1].inum;
      ReachesRoot(nodes, pending, depth, p);
      var k: nat :| Ancestor(nodes, p, k) == ROOT;
      assert Ancestor(nodes, d, k + 1) == ROOT;
    }
  }

  // ------------------------------------------------------- the operations

  lemma InvBasics(nodes: seq<Node>, pending: multiset<nat>, depth: seq<nat>)
    requires Inv(nodes, pending, depth)
    ensures |depth| == |nodes| > 0 && nodes[0] == Free
  {
  }

  lemma PendingInRange(nodes: seq<Node>, pending: multiset<nat>, depth: seq<nat>, i: nat)
    requires Inv(nodes, pending, depth) && i in pending
    ensures 0 < i < |nodes| && nodes[i].Node? && nodes[i].kind != Dir
  {
  }

  class Directories {
    var nodes: seq<Node>
    ghost var pending: multiset<nat>
    ghost var depth: seq<nat>

    constructor (nodes: seq<Node>, ghost depth: seq<nat>)
      ensures this.nodes == nodes && pending == multiset{} && this.depth == depth
    {
      this.nodes, this.depth := nodes, depth;
      pending := multiset{};
    }

    ghost predicate Valid()
      reads this
    {
      Inv(nodes, pending, depth)
    }

    method DirLookup(es: seq<Entry>, name: string) returns (r: Option<nat>)
      ensures r == Lookup(es, name, 0)
      ensures if r.Some? then FirstNamed(es, name, r.value) else NotNamed(es, name)
    {
      LookupIs(es, name);
      var off := 0;
      while off < |es|
        invariant 0 <= off <= |es| && Lookup(es, name, 0) == Lookup(es, name, off)
      {
        if es[off].inum != 0 && name == es[off].name {
          return Some(off);
        }
        off := off + 1;
      }
      return None;
    }

    // ok == false is the result -1.
    method DirLink(d: nat, e: Entry, grow: bool) returns (ok: bool)
      requires IsDir(nodes, d)
      modifies this`nodes
      ensures ok == Linked(old(nodes)[d].ents, e, grow).Some?
      ensures nodes == if ok then old(nodes)[d := old(nodes)[d].(ents := Linked(old(nodes)[d].ents, e, grow).value)]
                       else old(nodes)
      ensures ok <==> NotNamed(old(nodes)[d].ents, e.name) && (grow || exists j :: 0 <= j < |old(nodes)[d].ents| &&
                                                                                     old(nodes)[d].ents[j].inum == 0)
      ensures ok ==> IsDir(nodes, d) && Entered(old(nodes)[d].ents, e, nodes[d].ents)
    {
      var es := nodes[d].ents;
      LinkedIs(es, e, grow);
      var found := DirLookup(es, e.name);
      if found.Some? {
        return false;
      }
      var off := 0;
      while off < |es|
        invariant 0 <= off <= |es| && FirstEmpty(es, 0) == FirstEmpty(es, off)
      {
        if es[off].inum == 0 {
          break;
        }
        off := off + 1;
      }
      if off == |es| && !grow {
        return false;
      }
      nodes := nodes[d := nodes[d].(ents := Place(es, off, e))];
      return true;
    }

    method IsDirEmpty(es: seq<Entry>) returns (r: bool)
      ensures r == DirEmpty(es)
    {
      var off := 2;
      while off < |es|
        invariant 2 <= off && forall k :: 2 <= k < off && k < |es| ==> es[k].inum == 0
      {
        if es[off].inum != 0 {
          return false;
        }
        off := off + 1;
      }
      return true;
    }

    method IAlloc(kind: Kind) returns (r: Option<nat>)
      requires |nodes| > 0
      modifies this`nodes
      ensures r == FirstFree(old(nodes), 1)
      ensures nodes == if r.Some? then old(nodes)[r.value := Node(kind, 0, [])] else old(nodes)
      ensures if r.Some? then 0 < r.value < |nodes| && old(nodes)[r.value] == Free &&
                              forall j :: 0 < j < r.value ==> old(nodes)[j] != Free
              else forall j :: 0 < j < |nodes| ==> old(nodes)[j] != Free
    {
      FirstFreeIs(nodes, 1);
      var inum := 1;
      while inum < |nodes|
        invariant 1 <= inum <= |nodes| && nodes == old(nodes)
        invariant FirstFree(nodes, 1) == FirstFree(nodes, inum)
      {
        if nodes[inum] == Free {
          nodes := nodes[inum := Node(kind, 0, [])];
          return Some(inum);
        }
        inum := inum + 1;
      }
      return None;
    }

    method IPut(i: nat, last: bool)
      requires i < |nodes|
      modifies this`nodes
      ensures nodes == Put(old(nodes), i, last)
      ensures nodes == if last && old(nodes)[i].Node? && old(nodes)[i].nlink == 0 then old(nodes)[i := Free]
                       else old(nodes)
      ensures old(Valid()) && i > 0 ==> Valid()
    {
      if old(Valid()) && i > 0 {
        PutKeeps(nodes, pending, depth, i, last);
      }
      if last && nodes[i].Node? && nodes[i].nlink == 0 {
        nodes := nodes[i := Free];
      }
    }

    method SetNLink(i: nat, nlink: int)
      requires i < |nodes| && nodes[i].Node?
      modifies this`nodes
      ensures nodes == old(nodes)[i := old(nodes)[i].(nlink := Short(nlink))]
    {
      nodes := nodes[i := nodes[i].(nlink := Short(nlink))];
    }

    // The dirlink calls of create.
    method Enter(n: nat, dp: nat, name: string, kind: Kind, g1: bool, g2: bool, g3: bool) returns (ok: bool)
      requires n < |nodes| && n != dp && nodes[n] == Node(kind, 1, []) && IsDir(nodes, dp)
      modifies this`nodes
      ensures ok <==> (kind == Dir ==> NewEnts(n, dp, g1, g2).Some?)
                      && Linked(old(nodes)[dp].ents, Entry(n, name), g3).Some?
      ensures !ok ==> |nodes| == |old(nodes)| && nodes[n].Node? && nodes == old(nodes)[n := nodes[n]]
      ensures ok ==>
        nodes == old(nodes)[n := Node(kind, 1, if kind == Dir then NewEnts(n, dp, g1, g2).value else [])]
                           [dp := old(nodes)[dp].(ents := Linked(old(nodes)[dp].ents, Entry(n, name), g3).value)]
    {
      hide Linked;
      ok := true;
      if kind == Dir {
        ok := DirLink(n, Entry(n, "."), g1);
        if ok {
          ok := DirLink(n, Entry(dp, ".."), g2);
        }
      }
      if ok {
        ok := DirLink(dp, Entry(n, name), g3);
      }
    }

    method CreateIn(dp: nat, name: string, kind: Kind, g1: bool, g2: bool, g3: bool) returns (out: Outcome)
      requires Valid() && IsDir(nodes, dp)
      modifies this
      ensures (nodes, out) == Create(old(nodes), dp, name, kind, g1, g2, g3) && pending == old(pending)
      ensures out.Got? ==> IsDir(nodes, dp)
      ensures out.Got? ==> exists k: nat :: FirstNamed(nodes[dp].ents, name, k) && nodes[dp].ents[k].inum == out.inum
      ensures forall k: nat :: FirstNamed(old(nodes)[dp].ents, name, k) ==>
        && nodes == old(nodes) && var i := old(nodes)[dp].ents[k].inum;
           out == if i >= |nodes| || nodes[i] == Free then Panic
                  else if kind == File && nodes[i].kind != Dir then Got(i) else Fail
      ensures NotNamed(old(nodes)[dp].ents, name) ==>
        if Refused(old(nodes), dp, kind, g1, g2, g3) then out == Fail && nodes == old(nodes)
        else out.Got? && Makes(old(nodes), nodes, dp, name, kind, out.inum)
      ensures out == Panic ==> !Live(old(nodes)[dp])
      ensures Valid() <==> (nodes == old(nodes) ||
                            (Live(old(nodes)[dp]) && (kind == Dir ==> old(nodes)[dp].nlink < 0x7fff)))
      ensures !Valid() ==> !Counted(nodes, pending)
    {
      hide Inv, Counted, Linked, NewEnts, Lookup, FirstFree, Place, FirstNamed, NotNamed, Makes, Refused;
      InvBasics(nodes, pending, depth);
      CreateKeeps(nodes, pending, depth, dp, name, kind, g1, g2, g3);
      CreateIs(nodes, dp, name, kind, g1, g2, g3);
      var found := DirLookup(nodes[dp].ents, name);
      if found.Some? {
        var ip := nodes[dp].ents[found.value].inum;
        if ip >= |nodes| || nodes[ip] == Free {
          return Panic;
        }
        return if kind == File && nodes[ip].kind != Dir then Got(ip) else Fail;
      }
      out := CreateNew(dp, name, kind, g1, g2, g3);
    }

    // The part of create that makes an inode, when the name is not there yet.
    method CreateNew(dp: nat, name: string, kind: Kind, g1: bool, g2: bool, g3: bool) returns (out: Outcome)
      requires |depth| == |nodes| > 0 && IsDir(nodes, dp) && Lookup(nodes[dp].ents, name, 0).None?
      modifies this`nodes, this`depth
      ensures (nodes, out) == Create(old(nodes), dp, name, kind, g1, g2, g3)
      ensures if out.Got? then out.inum < |old(depth)| && depth == NewDepth(old(depth), dp, out.inum, kind)
              else depth == old(depth)
    {
      hide Linked, NewEnts, Lookup, FirstFree, Place;
      var got := IAlloc(kind);
      if got.None? {
        return Fail;
      }
      var n := got.value;
      SetNLink(n, 1);
      var ok := Enter(n, dp, name, kind, g1, g2, g3);
      if !ok {
        SetNLink(n, 0);
        IPut(n, true);
        assert nodes == old(nodes);
        return Fail;
      }
      if kind == Dir {
        SetNLink(dp, nodes[dp].nlink + 1);
      }
      assert nodes == Created(old(nodes), dp, n, kind, nodes[n].ents, nodes[dp].ents);
      depth := NewDepth(depth, dp, n, kind);
      return Got(n);
    }

    // sys_link up to the first iupdate; ok == false when old is a directory.
    method LinkOld(i: nat) returns (ok: bool)
      requires Valid() && 0 < i < |nodes| && nodes[i].Node?
      modifies this`nodes, this`pending
      ensures ok <==> old(nodes)[i].kind != Dir
      ensures !ok ==> nodes == old(nodes) && pending == old(pending)
      ensures ok ==> nodes == LinkBegin(old(nodes), i) && pending == old(pending) + multiset{i}
      ensures ok ==> nodes == old(nodes)[i := old(nodes)[i].(nlink := Short(old(nodes)[i].nlink + 1))]
      ensures Valid() <==> ok ==> old(nodes)[i].nlink < 0x7fff
    {
      hide Tree, Counted, PendingOk;
      if nodes[i].kind == Dir {
        return false;
      }
      LinkBeginKeeps(nodes, pending, depth, i);
      SetNLink(i, nodes[i].nlink + 1);
      pending := pending + multiset{i};
      return true;
    }

    // The rest of sys_link once nameiparent has found dp; sameDev is the test
    // dp->dev == ip->dev.
    method LinkNew(i: nat, dp: nat, name: string, sameDev: bool, grow: bool) returns (ok: bool)
      requires Valid() && i in pending && IsDir(nodes, dp)
      modifies this`nodes, this`pending
      ensures ok <==> sameDev && Linked(old(nodes)[dp].ents, Entry(i, name), grow).Some?
      ensures nodes == (if sameDev then LinkEnd(old(nodes), i, dp, name, grow) else LinkUndo(old(nodes), i))
      ensures var es := old(nodes)[dp].ents;
              ok <==> sameDev && NotNamed(es, name) && (grow || exists j :: 0 <= j < |es| && es[j].inum == 0)
      ensures ok ==> IsDir(nodes, dp) && Entered(old(nodes)[dp].ents, Entry(i, name), nodes[dp].ents)
                     && nodes == old(nodes)[dp := old(nodes)[dp].(ents := nodes[dp].ents)]
      ensures !ok ==> i < |nodes| && old(nodes)[i].Node?
                      && nodes == old(nodes)[i := old(nodes)[i].(nlink := Short(old(nodes)[i].nlink - 1))]
      ensures pending == old(pending) - multiset{i}
      ensures Valid() <==> ok ==> Live(old(nodes)[dp])
      ensures !Valid() ==> !Counted(nodes, pending)
    {
      hide Inv, Counted, Linked;
      PendingInRange(nodes, pending, depth, i);
      LinkEndKeeps(nodes, pending, depth, i, dp, name, grow);
      LinkUndoKeeps(nodes, pending, depth, i);
      LinkedIs(nodes[dp].ents, Entry(i, name), grow);
      ok := false;
      if sameDev {
        ok := DirLink(dp, Entry(i, name), grow);
      }
      pending := pending - multiset{i};
      if !ok {
        SetNLink(i, nodes[i].nlink - 1);
      }
    }

    // sys_unlink of name in dp; lastDp and lastIp say whether the two iput calls
    // drop the last references.
    method SysUnlink(dp: nat, name: string, lastDp: bool, lastIp: bool) returns (out: Outcome)
      requires Valid() && IsDir(nodes, dp)
      modifies this`nodes
      ensures Valid() && out != Panic && out == Unlink(old(nodes), dp, name).1
      ensures out == Fail <==> Keeps(old(nodes), dp, name)
      ensures out.Got? ==>
                exists k: nat :: FirstNamed(old(nodes)[dp].ents, name, k) && old(nodes)[dp].ents[k].inum == out.inum &&
                                 Erased(old(nodes), nodes, dp, k, lastDp, lastIp)
      ensures out == Fail ==> nodes == Put(old(nodes), dp, lastDp)
      ensures out.Got? ==> nodes == Put(Put(Unlink(old(nodes), dp, name).0, dp, lastDp), out.inum, lastIp)
    {
      hide Inv, Lookup, DirEmpty, FirstNamed, NotNamed, Erased, Keeps;
      InvBasics(nodes, pending, depth);
      UnlinkKeeps(nodes, pending, depth, dp, name);
      UnlinkIs(nodes, pending, depth, dp, name, lastDp, lastIp);
      if name == "." || name == ".." {
        IPut(dp, lastDp);
        return Fail;
      }
      var found := DirLookup(nodes[dp].ents, name);
      if found.None? {
        IPut(dp, lastDp);
        return Fail;
      }
      var off := found.value;
      var ip := nodes[dp].ents[off].inum;
      if ip >= |nodes| || nodes[ip] == Free || nodes[ip].nlink < 1 {
        return Panic;
      }
      var empty := IsDirEmpty(nodes[ip].ents);
      if nodes[ip].kind == Dir && !empty {
        IPut(dp, lastDp);
        return Fail;
      }
      nodes := nodes[dp := nodes[dp].(ents := nodes[dp].ents[off := Empty])];
      if nodes[ip].kind == Dir {
        SetNLink(dp, nodes[dp].nlink - 1);
      }
      SetNLink(ip, nodes[ip].nlink - 1);
      assert nodes == Unlink(old(nodes), dp, name).0;
      IPut(dp, lastDp);
      IPut(ip, lastIp);
      return Got(ip);
    }
  }
}

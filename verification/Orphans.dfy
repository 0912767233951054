// The inputs on which create and sys_link break the link counts: a directory
// that has been unlinked while a process is still in it, and a count that
// wraps.
module Orphans {
  import opened Basics
  import opened Links

  // A freshly made file system: the root, and free inodes.
  function Fresh(): seq<Node> {
    [Free, Node(Dir, 1, Dots(1, 1)), Free, Free]
  }

  function Dots(d: nat, p: nat): seq<Entry> { [Entry(d, "."), Entry(p, "..")] }

  lemma FreshInv()
    ensures Inv(Fresh(), multiset{}, [0, 0, 0, 0])
  {
    forall i: nat | 0 < i < 4 ensures Total(Fresh(), i) == if i == 1 then 1 else 0 {
      forall d: nat | d < 4 && d != 1 ensures Held(Fresh()[d], i) == 0 {
      }
      TotalSingle(Fresh(), 1, i);
      NewCount(1, 1, i);
    }
    assert forall d: nat :: IsLive(Fresh(), d) ==> d == 1;
    assert DirShape(Fresh(), 1) && ChildrenOk(Fresh(), 1) && ParentOk(Fresh(), [0, 0, 0, 0], 1);
  }

  // mkdir d; cd d; rmdir ../d: the root as it was, and an unlinked directory
  // that its process keeps.
  function Left(): seq<Node> {
    [Free, Node(Dir, 1, Dots(1, 1) + [Empty]), Node(Dir, 0, Dots(2, 1)), Free]
  }

  method Orphan() returns (fs: Directories)
    ensures fresh(fs) && fs.Valid() && fs.pending == multiset{} && fs.nodes == Left()
    ensures IsDead(fs.nodes, 2)
  {
    hide Inv;
    FreshInv();
    fs := new Directories(Fresh(), [0, 0, 0, 0]);
    Made();
    var out := fs.CreateIn(1, "d", Dir, true, true, true);
    Removed();
    out := fs.SysUnlink(1, "d", false, false);
  }

  // The root with the directory d.
  function Two(): seq<Node> {
    [Free, Node(Dir, 2, Dots(1, 1) + [Entry(2, "d")]), Node(Dir, 1, Dots(2, 1)), Free]
  }

  lemma Made()
    ensures Create(Fresh(), 1, "d", Dir, true, true, true) == (Two(), Got(2))
  {
    NewEntsValue(2, 1, true, true);
    Lookups("d");
    assert Place(Dots(1, 1), 2, Entry(2, "d")) == Dots(1, 1) + [Entry(2, "d")];
    assert Created(Fresh(), 1, 2, Dir, Dots(2, 1), Dots(1, 1) + [Entry(2, "d")]) == Two();
  }

  lemma Lookups(name: string)
    requires !Special(name)
    ensures forall d: nat, p: nat ::
              Lookup(Dots(d, p), name, 0).None? && (d > 0 && p > 0 ==> FirstEmpty(Dots(d, p), 0) == 2)
  {
  }

  lemma Removed()
    ensures Unlink(Two(), 1, "d") == (Left(), Got(2))
  {
    var es := Dots(1, 1) + [Entry(2, "d")];
    assert es[0] == Entry(1, ".") && es[1] == Entry(1, "..") && es[2] == Entry(2, "d");
    assert Lookup(es, "d", 2) == Some(2) && Lookup(es, "d", 1) == Some(2) && Lookup(es, "d", 0) == Some(2);
    assert es[2 := Empty] == Dots(1, 1) + [Empty];
    assert Two()[1].ents == es && !Special("d");
    assert Unlinked(Two(), 1, 2) == Left();
  }

  // Creating a file there succeeds, and breaks the counts.
  method CreateBreaks() returns (fs: Directories, out: Outcome)
    ensures out == Got(3) && !Counted(fs.nodes, fs.pending)
  {
    hide Inv, Create, Counted;
    fs := Orphan();
    Another(3, File);
    out := fs.CreateIn(2, "f", File, true, true, true);
  }

  lemma Another(n: nat, kind: Kind)
    requires n == 3 && kind == File
    ensures Create(Left(), 2, "f", kind, true, true, true).1 == Got(n)
    ensures Create(Left(), 2, "f", kind, true, true, true).0 != Left()
  {
    Lookups("f");
    assert FirstFree(Left(), 1) == Some(3);
  }

  // So does linking an old file into it.
  method LinkBreaks() returns (fs: Directories, ok: bool)
    ensures ok && !Counted(fs.nodes, fs.pending)
  {
    hide Inv, Create, Linked, Counted;
    fs := Orphan();
    Outside();
    var out := fs.CreateIn(1, "f", File, true, true, true);
    var begun := fs.LinkOld(3);
    Lookups("g");
    LinkFits();
    ok := fs.LinkNew(3, 2, "g", true, true);
  }

  // The root with a file.
  function WithFile(): seq<Node> {
    [Free, Node(Dir, 1, Dots(1, 1) + [Entry(3, "f")]), Node(Dir, 0, Dots(2, 1)), Node(File, 1, [])]
  }

  lemma Outside()
    ensures Create(Left(), 1, "f", File, true, true, true) == (WithFile(), Got(3))
  {
    var es := Dots(1, 1) + [Empty];
    assert es[2] == Empty && FirstEmpty(es, 2) == 2 && FirstEmpty(es, 1) == 2 && FirstEmpty(es, 0) == 2;
    assert Lookup(es, "f", 2).None? && Lookup(es, "f", 1).None? && Lookup(es, "f", 0).None?;
    assert FirstFree(Left(), 1) == Some(3);
    assert Place(es, 2, Entry(3, "f")) == Dots(1, 1) + [Entry(3, "f")];
    assert Left()[1].ents == es;
    assert Linked(es, Entry(3, "f"), true) == Some(Dots(1, 1) + [Entry(3, "f")]);
    assert Created(Left(), 1, 3, File, [], Dots(1, 1) + [Entry(3, "f")]) == WithFile();
  }

  lemma LinkFits()
    ensures Linked(Dots(2, 1), Entry(3, "g"), true).Some?
  {
    Lookups("g");
  }

  // --------------------------------------------------------- a count that wraps

  // The entries of n names for inode 2.
  function Names(n: nat): seq<Entry> {
    Dots(1, 1) + seq(n, k requires 0 <= k < n => Entry(2, seq(k + 3, _ => 'a')))
  }

  function Crowd(n: nat): seq<Node> {
    [Free, Node(Dir, 1, Names(n)), Node(File, n, [])]
  }

  lemma {:induction false} NamesCount(n: nat, i: nat)
    requires i > 0
    ensures Count(Names(n), i) == if i == 2 then n else if i == 1 then 1 else 0
  {
    if n == 0 {
      assert Names(0) == Dots(1, 1);
      NewCount(1, 1, i);
    } else {
      NamesCount(n - 1, i);
      NamesMore(n - 1);
      CountAppend(Names(n - 1), Entry(2, seq(n + 2, _ => 'a')), i);
    }
  }

  lemma NamesMore(n: nat)
    ensures Names(n + 1) == Names(n) + [Entry(2, seq(n + 3, _ => 'a'))]
  {
  }

  // A file with 32767 names is counted exactly; one more link is refused by
  // nothing, and makes the count negative.
  lemma LinkWraps()
    ensures Inv(Crowd(0x7fff), multiset{}, [0, 0, 0])
    ensures LinkBegin(Crowd(0x7fff), 2)[2].nlink == -0x8000
    ensures !Counted(LinkBegin(Crowd(0x7fff), 2), multiset{2})
  {
    CrowdInv(0x7fff);
    LinkBeginKeeps(Crowd(0x7fff), multiset{}, [0, 0, 0], 2);
    assert NLink(LinkBegin(Crowd(0x7fff), 2)[2]) == -0x8000;
    TotalHeld(LinkBegin(Crowd(0x7fff), 2), 1, 2);
  }

  lemma CrowdInv(n: nat)
    requires 0 < n < 0x8000
    ensures Inv(Crowd(n), multiset{}, [0, 0, 0])
  {
    hide Count, Names;
    var nodes := Crowd(n);
    forall i: nat | 0 < i < 3 ensures Total(nodes, i) == NLink(nodes[i]) {
      forall d: nat | d < 3 && d != 1 ensures Held(nodes[d], i) == 0 {
      }
      TotalSingle(nodes, 1, i);
      NamesCount(n, i);
    }
    assert forall d: nat :: IsLive(nodes, d) ==> d == 1;
    CrowdTree(n);
  }

  lemma CrowdTree(n: nat)
    requires n > 0
    ensures IsLive(Crowd(n), 1) && DirShape(Crowd(n), 1) && ChildrenOk(Crowd(n), 1) && ParentOk(Crowd(n), [0, 0, 0], 1)
  {
    var es := Names(n);
    forall k | 2 <= k < |es| ensures es[k].inum == 2 && !Special(es[k].name) {
      assert es[k] == Entry(2, seq(k - 2 + 3, _ => 'a'));
      assert |es[k].name| > 2;
    }
  }
}

// Path names (fs.c): taking a path apart, element by element, and walking it
// through the directories.
module Names {
  import opened Basics
  import opened Links

  const DIRSIZ: nat := 14

  // ------------------------------------------------------------ path elements

  function SkipSlashes(p: string): (r: string)
    ensures |r| <= |p| && (r != "" ==> r[0] != '/')
  {
    if p != "" && p[0] == '/' then SkipSlashes(p[1..]) else p
  }

  function ElemLen(p: string): (n: nat)
    ensures n <= |p| && (n < |p| ==> p[n] == '/') && forall i :: 0 <= i < n ==> p[i] != '/'
  {
    if p == "" || p[0] == '/' then 0 else 1 + ElemLen(p[1..])
  }

  // The significant part of a name.
  function Cut(name: string): string {
    if |name| >= DIRSIZ then name[..DIRSIZ] else name
  }

  // The names between the slashes of a path, without the empty ones.
  function Elements(p: string): seq<string>
    decreases |p|
  {
    var q := SkipSlashes(p);
    if q == "" then [] else [Cut(q[..ElemLen(q)])] + Elements(q[ElemLen(q)..])
  }

  lemma {:induction false} ElementsSkip(p: string)
    ensures Elements(SkipSlashes(p)) == Elements(p)
    decreases |p|
  {
  }

  lemma NoElements(p: string)
    ensures SkipSlashes(p) == "" <==> Elements(p) == []
  {
  }

  method PassSlashes(p: string) returns (r: string)
    ensures r == SkipSlashes(p) && ('\0' !in p ==> '\0' !in r)
    ensures |r| <= |p| && r == p[|p| - |r|..] && (forall i :: 0 <= i < |p| - |r| ==> p[i] == '/')
  {
    var i := 0;
    assert p[0..] == p;
    while i < |p| && p[i] == '/'
      invariant 0 <= i <= |p| && SkipSlashes(p[i..]) == SkipSlashes(p)
      invariant forall j :: 0 <= j < i ==> p[j] == '/'
    {
      assert p[i..][1..] == p[i + 1..];
      i := i + 1;
    }
    return p[i..];
  }

  method FindElemEnd(p: string) returns (n: nat)
    ensures n == ElemLen(p)
  {
    n := 0;
    assert p[0..] == p;
    while n < |p| && p[n] != '/'
      invariant 0 <= n <= |p| && n + ElemLen(p[n..]) == ElemLen(p)
    {
      assert p[n..][1..] == p[n + 1..];
      n := n + 1;
    }
  }

  // path[a..b] is the first run of characters other than slashes; name is its
  // first 14 characters, and rest follows it after more slashes.
  predicate FirstName(path: string, a: nat, b: nat, name: string, rest: string) {
    && a < b <= |path| - |rest| && (forall i :: 0 <= i < a ==> path[i] == '/')
    && (forall i :: a <= i < b ==> path[i] != '/') && (b < |path| ==> path[b] == '/')
    && name == (if b - a >= 14 then path[a..a + 14] else path[a..b])
    && rest == path[|path| - |rest|..] && (rest != "" ==> rest[0] != '/')
    && (forall i :: b <= i < |path| - |rest| ==> path[i] == '/')
  }

  lemma FirstNameIs(path: string, p: string, n: nat, q: string)
    requires p != "" && p[0] != '/' && |q| <= |p| - n && |p| <= |path|
    requires p == path[|path| - |p|..] && forall i :: 0 <= i < |path| - |p| ==> path[i] == '/'
    requires 0 < n <= |p| && (n < |p| ==> p[n] == '/') && forall i :: 0 <= i < n ==> p[i] != '/'
    requires q == p[n..][|p| - n - |q|..] && forall i :: 0 <= i < |p| - n - |q| ==> p[n..][i] == '/'
    requires q != "" ==> q[0] != '/'
    ensures FirstName(path, |path| - |p|, |path| - |p| + n, Cut(p[..n]), q)
  {
    var a := |path| - |p|;
    forall i | a <= i < |path| ensures path[i] == p[i - a] {}
    forall i | a + n <= i < |path| - |q| ensures path[i] == '/' {
      assert p[n..][i - a - n] == '/';
    }
    assert path[a..a + n] == p[..n] && (n >= 14 ==> p[..n][..14] == path[a..a + 14]);
    assert q == path[|path| - |q|..];
  }

  // skipelem: the first element, and the path after it without leading slashes.
  // None is the null result.
  method SkipElem(path: string) returns (name: string, rest: Option<string>)
    requires '\0' !in path
    ensures rest.None? <==> Elements(path) == []
    ensures rest.Some? ==> Elements(path) == [name] + Elements(rest.value) && |rest.value| < |path|
    ensures rest.Some? ==> (rest.value == "" <==> |Elements(path)| == 1) && '\0' !in rest.value
    ensures rest.None? <==> forall i :: 0 <= i < |path| ==> path[i] == '/'
    ensures rest.Some? ==> exists a: nat, b: nat :: FirstName(path, a, b, name, rest.value)
  {
    hide FirstName, Cut, Elements, SkipSlashes, ElemLen;
    var p := PassSlashes(path);
    NoElements(path);
    if p == "" {
      return "", None;
    }
    var n := FindElemEnd(p);
    name := Cut(p[..n]);
    var q := PassSlashes(p[n..]);
    FirstElement(path, p, n, q);
    rest := Some(q);
    FirstNameIs(path, p, n, q);
  }

  lemma FirstElement(path: string, p: string, n: nat, q: string)
    requires p == SkipSlashes(path) != "" && n == ElemLen(p) && q == SkipSlashes(p[n..])
    ensures Elements(path) == [Cut(p[..n])] + Elements(q) && n > 0 && (q == "" <==> |Elements(path)| == 1)
  {
    ElementsSkip(p[n..]);
    NoElements(q);
  }

  // -------------------------------------------------------------------- namex

  // One step: the entry of that name in a directory.
  function Child(nodes: seq<Node>, d: nat, name: string): Option<nat> {
    if IsDir(nodes, d) && Lookup(nodes[d].ents, name, 0).Some?
    then Some(nodes[d].ents[Lookup(nodes[d].ents, name, 0).value].inum) else None
  }

  function Walk(nodes: seq<Node>, d: nat, names: seq<string>): Option<nat>
    decreases |names|
  {
    if names == [] then Some(d)
    else
      match Child(nodes, d, names[0])
      case None => None
      case Some(c) => Walk(nodes, c, names[1..])
  }

  // Walking a longer path is walking its front and then its last name.
  lemma {:induction false} WalkLast(nodes: seq<Node>, d: nat, names: seq<string>, name: string)
    ensures Walk(nodes, d, names + [name]) ==
      match Walk(nodes, d, names) case None => None case Some(c) => Child(nodes, c, name)
    decreases |names|
  {
    if names == [] {
      assert (names + [name])[1..] == [];
    } else {
      assert (names + [name])[1..] == names[1..] + [name];
      if Child(nodes, d, names[0]).Some? {
        WalkLast(nodes, Child(nodes, d, names[0]).value, names[1..], name);
      }
    }
  }

  // The inodes passed on the way: each is a directory in which the first entry
  // of the next name is for the next inode.
  predicate Trail(nodes: seq<Node>, names: seq<string>, trail: seq<nat>) {
    && |trail| == |names| + 1
    && forall k :: 0 <= k < |names| ==>
         IsDir(nodes, trail[k]) && Leads(nodes[trail[k]].ents, names[k], trail[k + 1])
  }

  ghost predicate Reaches(nodes: seq<Node>, d: nat, names: seq<string>, r: nat) {
    exists trail: seq<nat> :: Trail(nodes, names, trail) && trail[0] == d && trail[|names|] == r
  }

  predicate Leads(es: seq<Entry>, name: string, i: nat) {
    exists k: nat :: k < |es| && FirstNamed(es, name, k) && es[k].inum == i
  }

  lemma ChildIs(nodes: seq<Node>, d: nat, name: string, i: nat)
    ensures Child(nodes, d, name) == Some(i) <==> IsDir(nodes, d) && Leads(nodes[d].ents, name, i)
  {
    if IsDir(nodes, d) {
      LookupIs(nodes[d].ents, name);
    }
  }

  // A walk ends at an inode exactly when there is such a way to it.
  lemma {:induction false} WalkIs(nodes: seq<Node>, d: nat, names: seq<string>, r: nat)
    ensures Walk(nodes, d, names) == Some(r) <==> Reaches(nodes, d, names, r)
    decreases |names|
  {
    hide Child, Leads, IsDir;
    if names == [] {
      assert Trail(nodes, names, [d]);
    } else {
      if Walk(nodes, d, names) == Some(r) {
        var c := Child(nodes, d, names[0]).value;
        ChildIs(nodes, d, names[0], c);
        WalkIs(nodes, c, names[1..], r);
        var rest :| Trail(nodes, names[1..], rest) && rest[0] == c && rest[|names[1..]|] == r;
        TrailMore(nodes, d, names, rest);
      }
      forall trail: seq<nat> | Trail(nodes, names, trail) && trail[0] == d && trail[|names|] == r
        ensures Walk(nodes, d, names) == Some(r)
      {
        ChildIs(nodes, d, names[0], trail[1]);
        TrailLess(nodes, names, trail);
        WalkIs(nodes, trail[1], names[1..], r);
      }
    }
  }

  lemma TrailMore(nodes: seq<Node>, d: nat, names: seq<string>, rest: seq<nat>)
    requires names != [] && Trail(nodes, names[1..], rest) && IsDir(nodes, d) && Leads(nodes[d].ents, names[0], rest[0])
    ensures Trail(nodes, names, [d] + rest)
  {
    hide IsDir, Leads;
    forall k | 0 <= k < |names|
      ensures IsDir(nodes, ([d] + rest)[k]) && ([d] + rest)[k] < |nodes| && nodes[([d] + rest)[k]].Node?
      ensures Leads(nodes[([d] + rest)[k]].ents, names[k], ([d] + rest)[k + 1])
    {
      if k > 0 {
        assert names[1..][k - 1] == names[k] && ([d] + rest)[k] == rest[k - 1];
        DirNode(nodes, rest[k - 1]);
      } else {
        DirNode(nodes, d);
      }
    }
  }

  lemma DirNode(nodes: seq<Node>, d: nat)
    requires IsDir(nodes, d)
    ensures d < |nodes| && nodes[d].Node?
  {
  }

  lemma TrailLess(nodes: seq<Node>, names: seq<string>, trail: seq<nat>)
    requires names != [] && Trail(nodes, names, trail)
    ensures Trail(nodes, names[1..], trail[1..])
  {
    hide Leads;
    forall k | 0 <= k < |names[1..]|
      ensures IsDir(nodes, trail[1..][k]) && Leads(nodes[trail[1..][k]].ents, names[1..][k], trail[1..][k + 1])
    {
      assert IsDir(nodes, trail[k + 1]) && trail[1..][k] == trail[k + 1];
    }
  }

  // A leading slash adds no element, so namei("/" + p) is the same everywhere.
  lemma AbsolutePath(p: string)
    ensures Elements("/" + p) == Elements(p)
  {
    assert ("/" + p)[1..] == p;
    ElementsSkip(p);
    ElementsSkip("/" + p);
  }

  // The directory that nameiparent stops at.
  function Parent(nodes: seq<Node>, d: nat, names: seq<string>): Option<nat> {
    if names == [] then None
    else
      match Walk(nodes, d, names[..|names| - 1])
      case None => None
      case Some(p) => if IsDir(nodes, p) then Some(p) else None
  }

  // namei finds what dirlookup finds under the last name in nameiparent's result.
  lemma NameiIsLookupInParent(nodes: seq<Node>, d: nat, names: seq<string>)
    requires names != []
    ensures Walk(nodes, d, names) ==
      match Parent(nodes, d, names) case None => None case Some(p) => Child(nodes, p, names[|names| - 1])
  {
    WalkLast(nodes, d, names[..|names| - 1], names[|names| - 1]);
    assert names == names[..|names| - 1] + [names[|names| - 1]];
  }

  // One more reference on i.
  function Hold(refs: multiset<nat>, i: nat): multiset<nat> {
    refs + multiset{i}
  }

  class Resolver {
    const nodes: seq<Node>
    // The references held on inodes.
    var refs: multiset<nat>

    constructor (nodes: seq<Node>)
      ensures this.nodes == nodes && refs == multiset{}
    {
      this.nodes, refs := nodes, multiset{};
    }

    method Get(i: nat)
      modifies this
      ensures refs == Hold(old(refs), i)
    {
      refs := refs + multiset{i};
    }

    method Put(i: nat, ghost base: multiset<nat>)
      requires refs == Hold(base, i)
      modifies this
      ensures refs == base
    {
      refs := refs - multiset{i};
    }

    method DirLookup(d: nat, name: string) returns (r: Option<nat>)
      requires IsDir(nodes, d)
      ensures r == Child(nodes, d, name)
    {
      var k := Lookup(nodes[d].ents, name, 0);
      return if k.Some? then Some(nodes[d].ents[k.value].inum) else None;
    }

    // The reference on a directory is exchanged for one on the entry found in it.
    method Descend(d: nat, name: string, ghost base: multiset<nat>) returns (r: Option<nat>)
      requires IsDir(nodes, d) && refs == Hold(base, d)
      modifies this
      ensures r == Child(nodes, d, name)
      ensures refs == if r.Some? then Hold(base, r.value) else base
    {
      r := DirLookup(d, name);
      Put(d, base);
      if r.Some? {
        Get(r.value);
      }
    }

    // namex from the root or the current directory; every inode passed on the
    // way is put back, and the result alone is held.
    method NameX(path0: string, cwd: nat, parent: bool) returns (r: Option<nat>, name: string)
      requires '\0' !in path0
      modifies this
      ensures r == Resolved(nodes, Start(path0, cwd), Elements(path0), parent)
      ensures path0 != "" && path0[0] == '/' ==> r == Resolved(nodes, ROOT, Elements(path0), parent)
      ensures path0 == "" || path0[0] != '/' ==> r == Resolved(nodes, cwd, Elements(path0), parent)
      ensures var d := if path0 != "" && path0[0] == '/' then 1 else cwd;
              forall i: nat :: r == Some(i) <==> Found(nodes, d, Elements(path0), parent, i)
      ensures parent && r.Some? ==> Elements(path0) != [] && name == Elements(path0)[|Elements(path0)| - 1]
      ensures refs == (if r.Some? then Hold(old(refs), r.value) else old(refs))
    {
      hide Elements, Parent, Walk, Child, IsDir, Along, Hold, Reaches;
      name := "";
      var path := path0;
      var ip := Start(path, cwd);
      Get(ip);
      ghost var start, names, k := ip, Elements(path0), 0;
      AlongStart(nodes, ip, path0);
      forall i: nat ensures Resolved(nodes, start, names, parent) == Some(i) <==>
        Found(nodes, start, names, parent, i) {
        ResolvedIs(nodes, start, names, i);
      }
      while true
        modifies this
        invariant '\0' !in path && refs == Hold(old(refs), ip)
        invariant Along(nodes, start, names, k, ip, path)
        invariant parent && k == |names| ==> k == 0
        decreases |path|
      {
        var elem, rest := SkipElem(path);
        if rest.None? {
          AlongEnd(nodes, start, names, k, ip, path);
          break;
        }
        AlongElem(nodes, start, names, k, ip, path, elem, rest.value);
        name := elem;
        path := rest.value;
        if !IsDir(nodes, ip) {
          Put(ip, old(refs));
          return None, name;
        }
        if parent && path == "" {
          return Some(ip), name;
        }
        var next := Descend(ip, name, old(refs));
        if next.None? {
          return None, name;
        }
        ip := next.value;
        k := k + 1;
      }
      if parent {
        Put(ip, old(refs));
        return None, name;
      }
      return Some(ip), name;
    }
  }

  function Start(path: string, cwd: nat): nat {
    if path != "" && path[0] == '/' then ROOT else cwd
  }

  ghost predicate Found(nodes: seq<Node>, d: nat, names: seq<string>, parent: bool, i: nat) {
    if parent then names != [] && IsDir(nodes, i) && Reaches(nodes, d, names[..|names| - 1], i)
    else Reaches(nodes, d, names, i)
  }

  // namei and nameiparent
  function Resolved(nodes: seq<Node>, d: nat, names: seq<string>, parent: bool): Option<nat> {
    if parent then Parent(nodes, d, names) else Walk(nodes, d, names)
  }

  // namei ends where the way through all the names ends, nameiparent at the
  // directory before the last of them.
  lemma ResolvedIs(nodes: seq<Node>, d: nat, names: seq<string>, i: nat)
    ensures Resolved(nodes, d, names, false) == Some(i) <==> Reaches(nodes, d, names, i)
    ensures Resolved(nodes, d, names, true) == Some(i) <==>
      names != [] && IsDir(nodes, i) && Reaches(nodes, d, names[..|names| - 1], i)
  {
    hide Walk, Reaches, IsDir;
    WalkIs(nodes, d, names, i);
    if names != [] {
      WalkIs(nodes, d, names[..|names| - 1], i);
    }
  }

  // The walk has taken k of the names and stands at ip, with path still to go.
  predicate Along(nodes: seq<Node>, start: nat, names: seq<string>, k: int, ip: nat, path: string) {
    0 <= k <= |names| && Elements(path) == names[k..] && Walk(nodes, start, names[..k]) == Some(ip)
  }

  lemma AlongStart(nodes: seq<Node>, start: nat, path: string)
    ensures Along(nodes, start, Elements(path), 0, start, path)
  {
  }

  lemma AlongEnd(nodes: seq<Node>, start: nat, names: seq<string>, k: int, ip: nat, path: string)
    requires Along(nodes, start, names, k, ip, path) && Elements(path) == []
    ensures k == |names| && Walk(nodes, start, names) == Some(ip)
    ensures k == 0 ==> Parent(nodes, start, names) == None
  {
    assert names[..k] == names;
  }

  // The next element: what is the result if the walk stops here, and where it
  // goes on otherwise.
  lemma AlongElem(nodes: seq<Node>, start: nat, names: seq<string>, k: int, ip: nat, path: string, elem: string,
                  rest: string)
    requires Along(nodes, start, names, k, ip, path) && Elements(path) == [elem] + Elements(rest)
    requires rest == "" <==> |Elements(path)| == 1
    ensures 0 <= k < |names| && (rest == "" <==> k + 1 == |names|) && (rest == "" ==> names[|names| - 1] == elem)
    ensures !IsDir(nodes, ip) ==> Walk(nodes, start, names).None? && Parent(nodes, start, names).None?
    ensures IsDir(nodes, ip) && rest == "" ==> Parent(nodes, start, names) == Some(ip)
    ensures Child(nodes, ip, elem).None? ==> Walk(nodes, start, names).None?
    ensures Child(nodes, ip, elem).None? && rest != "" ==> Parent(nodes, start, names).None?
    ensures Child(nodes, ip, elem).Some? ==> Along(nodes, start, names, k + 1, Child(nodes, ip, elem).value, rest)
  {
    hide Elements;
    assert names[k..][0] == names[k] && names[k..][1..] == names[k + 1..];
    WalkLast(nodes, start, names[..k], names[k]);
    assert names[..k + 1] == names[..k] + [names[k]];
    if Child(nodes, ip, elem).None? {
      LostEarly(nodes, start, names, k);
    }
    if k + 1 == |names| {
      assert names[..|names| - 1] == names[..k];
    }
  }

  // A walk that fails on the way fails, and has no parent unless only the last
  // name is missing.
  lemma {:induction false} LostEarly(nodes: seq<Node>, d: nat, names: seq<string>, k: nat)
    requires k < |names| && Walk(nodes, d, names[..k + 1]).None?
    ensures Walk(nodes, d, names).None?
    ensures k + 1 < |names| ==> Parent(nodes, d, names).None?
    decreases |names| - k
  {
    if k + 1 < |names| {
      WalkLast(nodes, d, names[..k + 1], names[k + 1]);
      assert names[..k + 2] == names[..k + 1] + [names[k + 1]];
      if k + 2 < |names| {
        LostEarly(nodes, d, names, k + 1);
      } else {
        assert names[..k + 2] == names;
        assert names[..|names| - 1] == names[..k + 1];
      }
    } else {
      assert names[..k + 1] == names;
    }
  }
}

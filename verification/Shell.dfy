// The command parser of the shell (user/sh.c): a scanner that moves a cursor
// over the line, recursive descent into a tree of slices of the line, and the
// in-place termination of those slices.
module Shell {

  const MAXARGS: nat := 10

  // ------------------------------------------------------------ characters

  predicate White(c: char) {
    c == ' ' || c == '\t' || c == '\r' || c == '\n' || c as int == 11
  }

  predicate Symbol(c: char) {
    c == '<' || c == '|' || c == '>' || c == '&' || c == ';' || c == '(' || c == ')'
  }

  predicate WordChar(c: char) {
    !White(c) && !Symbol(c)
  }

  // ---------------------------------------------------------------- tokens

  // kind is 'a' for a word, '+' for >>, otherwise the symbol itself.
  datatype Token = Token(kind: char, lo: nat, hi: nat)

  function SkipWhite(b: string, s: nat): (r: nat)
    requires s <= |b|
    ensures s <= r <= |b| && (r < |b| ==> !White(b[r])) && forall i :: s <= i < r ==> White(b[i])
    decreases |b| - s
  {
    if s < |b| && White(b[s]) then SkipWhite(b, s + 1) else s
  }

  function SkipWord(b: string, s: nat): (r: nat)
    requires s <= |b|
    ensures s <= r <= |b| && (r < |b| ==> !WordChar(b[r])) && forall i :: s <= i < r ==> WordChar(b[i])
    decreases |b| - s
  {
    if s < |b| && WordChar(b[s]) then SkipWord(b, s + 1) else s
  }

  // The token that starts at s.
  function Scan(b: string, s: nat): (t: Token)
    requires s < |b| && !White(b[s])
    ensures t.lo == s < t.hi <= |b|
  {
    if b[s] == '>' && s + 1 < |b| && b[s + 1] == '>' then Token('+', s, s + 2)
    else if Symbol(b[s]) then Token(b[s], s, s + 1)
    else Token('a', s, SkipWord(b, s + 1))
  }

  // The tokens from position s on.
  function Tokens(b: string, s: nat): seq<Token>
    requires s <= |b|
    decreases |b| - s
  {
    var i := SkipWhite(b, s);
    if i == |b| then [] else [Scan(b, i)] + Tokens(b, Scan(b, i).hi)
  }

  lemma TokensSkip(b: string, s: nat)
    requires s <= |b|
    ensures Tokens(b, SkipWhite(b, s)) == Tokens(b, s)
  {
  }

  lemma TokensNext(b: string, s: nat)
    requires s == |b| || (s < |b| && !White(b[s]))
    ensures Tokens(b, s) == if s == |b| then [] else [Scan(b, s)] + Tokens(b, Scan(b, s).hi)
  {
  }

  lemma {:induction false} SkipTwice(b: string, s: nat)
    requires s <= |b|
    ensures SkipWhite(b, SkipWhite(b, s)) == SkipWhite(b, s)
    decreases |b| - s
  {
  }

  // --------------------------------------------------------------- grammar

  // < is O_RDONLY on 0, > and >> are O_WRONLY|O_CREATE on 1, > with O_TRUNC.
  datatype Mode = In | Out | App

  datatype Cmd<W> =
    | Exec(args: seq<W>)
    | Redir(cmd: Cmd<W>, file: W, mode: Mode)
    | Pipe(left: Cmd<W>, right: Cmd<W>)
    | List(left: Cmd<W>, right: Cmd<W>)
    | Back(cmd: Cmd<W>)

  datatype Slice = Slice(lo: nat, hi: nat)

  type Tree = Cmd<Slice>

  // Panic is any syntax error; the parser exits there.
  datatype Parsed = Panic | Ok(cmd: Tree, rest: seq<Token>)

  datatype Redirs = RPanic | ROk(redirs: seq<(Slice, Mode)>, rest: seq<Token>)

  datatype Args = APanic | AOk(args: seq<Slice>, redirs: seq<(Slice, Mode)>, rest: seq<Token>)

  predicate Next(ts: seq<Token>, kinds: string) {
    ts != [] && ts[0].kind in kinds
  }

  function ModeOf(kind: char): Mode {
    if kind == '<' then In else if kind == '>' then Out else App
  }

  function Wrap(cmd: Tree, redirs: seq<(Slice, Mode)>): Tree
    decreases |redirs|
  {
    if redirs == [] then cmd
    else Wrap(Redir(cmd, redirs[0].0, redirs[0].1), redirs[1..])
  }

  // { ("<" | ">" | ">>") word }
  function GRedirs(ts: seq<Token>): (r: Redirs)
    ensures r.ROk? ==> |r.rest| <= |ts| && !Next(r.rest, "<>+")
  {
    if !Next(ts, "<>+") then ROk([], ts)
    else if |ts| < 2 || ts[1].kind != 'a' then RPanic
    else
      match GRedirs(ts[2..])
      case RPanic => RPanic
      case ROk(rs, rest) => ROk([(Slice(ts[1].lo, ts[1].hi), ModeOf(ts[0].kind))] + rs, rest)
  }

  // Words and redirections up to | ) & ; or the end; argc words have gone before.
  function GArgs(ts: seq<Token>, argc: nat): (r: Args)
    ensures r.AOk? ==> |r.rest| <= |ts| && (r.rest == [] || Next(r.rest, "|)&;"))
    decreases |ts|
  {
    if ts == [] || Next(ts, "|)&;") then AOk([], [], ts)
    else if ts[0].kind != 'a' || argc + 1 >= MAXARGS then APanic
    else
      match GRedirs(ts[1..])
      case RPanic => APanic
      case ROk(rs, rest) =>
        match GArgs(rest, argc + 1)
        case APanic => APanic
        case AOk(args, more, end) => AOk([Slice(ts[0].lo, ts[0].hi)] + args, rs + more, end)
  }

  function GExec(ts: seq<Token>): (r: Parsed)
    ensures r.Ok? ==> |r.rest| <= |ts|
    decreases |ts|, 0
  {
    if Next(ts, "(") then
      match GLine(ts[1..])
      case Panic => Panic
      case Ok(cmd, rest) =>
        if !Next(rest, ")") then Panic
        else
          (match GRedirs(rest[1..])
           case RPanic => Panic
           case ROk(rs, end) => Ok(Wrap(cmd, rs), end))
    else
      match GRedirs(ts)
      case RPanic => Panic
      case ROk(rs, rest) =>
        match GArgs(rest, 0)
        case APanic => Panic
        case AOk(args, more, end) => Ok(Wrap(Exec(args), rs + more), end)
  }

  // exec [ "|" pipe ]
  function GPipe(ts: seq<Token>): (r: Parsed)
    ensures r.Ok? ==> |r.rest| <= |ts|
    decreases |ts|, 1
  {
    match GExec(ts)
    case Panic => Panic
    case Ok(left, rest) =>
      if !Next(rest, "|") then Ok(left, rest)
      else
        match GPipe(rest[1..])
        case Panic => Panic
        case Ok(right, end) => Ok(Pipe(left, right), end)
  }

  // { "&" }
  function GBack(cmd: Tree, ts: seq<Token>): (r: (Tree, seq<Token>))
    ensures |r.1| <= |ts| && !Next(r.1, "&")
    decreases |ts|
  {
    if Next(ts, "&") then GBack(Back(cmd), ts[1..]) else (cmd, ts)
  }

  // pipe { "&" } [ ";" line ]
  function GLine(ts: seq<Token>): (r: Parsed)
    ensures r.Ok? ==> |r.rest| <= |ts|
    decreases |ts|, 2
  {
    match GPipe(ts)
    case Panic => Panic
    case Ok(first, rest) =>
      var (cmd, more) := GBack(first, rest);
      if !Next(more, ";") then Ok(cmd, more)
      else
        match GLine(more[1..])
        case Panic => Panic
        case Ok(right, end) => Ok(List(cmd, right), end)
  }

  // A whole line: nothing may be left over.
  function Parse(b: string): Parsed {
    match GLine(Tokens(b, 0))
    case Panic => Panic
    case Ok(cmd, rest) => if rest == [] then Ok(cmd, []) else Panic
  }

  // ------------------------------------------------------------ the parser

  // None is the panic that ends the parse.
  datatype Result = Err | Some(cmd: Tree)

  class Parser {
    const b: string
    var s: nat

    constructor (b: string)
      requires '\0' !in b
      ensures this.b == b && s == 0
    {
      this.b, s := b, 0;
    }

    // *s, which is NUL at the end of the line.
    function At(i: nat): char {
      if i < |b| then b[i] else '\0'
    }

    function Left(): seq<Token>
      reads this
      requires s <= |b|
    {
      Tokens(b, s)
    }

    method SkipSpaces()
      requires s <= |b|
      modifies this
      ensures s == SkipWhite(b, old(s)) && Left() == old(Left())
    {
      TokensSkip(b, s);
      while s < |b| && White(b[s])
        invariant s <= |b| && SkipWhite(b, s) == SkipWhite(b, old(s))
      {
        s := s + 1;
      }
    }

    // kind 0 at the end of the line; q and eq bound the token.
    method GetToken() returns (kind: char, q: nat, eq: nat)
      requires s <= |b| && '\0' !in b
      modifies this
      ensures s <= |b|
      ensures kind == '\0' <==> old(Left()) == []
      ensures old(Left()) == [] ==> Left() == []
      ensures old(Left()) != [] ==> old(Left())[0] == Token(kind, q, eq) && Left() == old(Left())[1..]
    {
      hide Tokens;
      SkipSpaces();
      TokensNext(b, s);
      q := s;
      kind := At(s);
      if kind == '\0' {
        eq := s;
        return;
      }
      if Symbol(kind) {
        s := s + 1;
        if kind == '>' && At(s) == '>' {
          kind := '+';
          s := s + 1;
        }
      } else {
        kind := 'a';
        s := s + 1;
        while s < |b| && WordChar(b[s])
          invariant q < s <= |b| && SkipWord(b, s) == SkipWord(b, q + 1)
        {
          s := s + 1;
        }
      }
      eq := s;
      assert q < |b| && Scan(b, q) == Token(kind, q, eq);
      SkipSpaces();
    }

    // The first character of the next token decides its kind, up to > and >>.
    method Peek(chars: string) returns (r: bool)
      requires s <= |b| && '\0' !in b && forall c <- chars :: Symbol(c)
      modifies this
      ensures s <= |b| && Left() == old(Left())
      ensures r <==> Next(Left(), Kinds(chars))
    {
      SkipSpaces();
      SkipTwice(b, old(s));
      r := s < |b| && b[s] in chars;
    }

    // GetToken where the token itself does not matter.
    method Skip()
      requires s <= |b| && '\0' !in b && Left() != []
      modifies this
      ensures s <= |b| && Left() == old(Left())[1..]
    {
      var k, q, eq := GetToken();
    }

    method ParseRedirs(cmd0: Tree) returns (r: Result)
      requires s <= |b| && '\0' !in b
      modifies this
      ensures s <= |b|
      ensures match GRedirs(old(Left()))
              case RPanic => r == Err
              case ROk(rs, rest) => r == Some(Wrap(cmd0, rs)) && Left() == rest
    {
      var cmd := cmd0;
      assert Kinds("<>") == "<>+";
      ghost var g := GRedirs(Left());
      var more := Peek("<>");
      while more
        invariant s <= |b| && more == Next(Left(), "<>+")
        invariant g.RPanic? <==> GRedirs(Left()).RPanic?
        invariant g.ROk? ==> g.rest == GRedirs(Left()).rest && Wrap(cmd0, g.redirs) == Wrap(cmd, GRedirs(Left()).redirs)
        decreases |Left()|
      {
        var tok, q0, eq0 := GetToken();
        var kind, q, eq := GetToken();
        if kind != 'a' {
          return Err;
        }
        cmd := Redir(cmd, Slice(q, eq), ModeOf(tok));
        more := Peek("<>");
      }
      return Some(cmd);
    }

    method ParseBlock() returns (r: Result)
      requires s <= |b| && '\0' !in b && Next(Left(), "(")
      modifies this
      ensures s <= |b| && Agrees(r, GExec(old(Left())))
      decreases |Left()|, 0, 0
    {
      Skip();
      r := ParseLine();
      if r == Err {
        return;
      }
      var close := Peek(")");
      if !close {
        return Err;
      }
      Skip();
      r := ParseRedirs(r.cmd);
    }

    method ParseExec() returns (r: Result)
      requires s <= |b| && '\0' !in b
      modifies this
      ensures s <= |b| && Agrees(r, GExec(old(Left())))
      decreases |Left()|, 0, 1
    {
      var block := Peek("(");
      if block {
        r := ParseBlock();
        return;
      }
      r := ParseRedirs(Exec([]));
      if r == Err {
        return;
      }
      r := ParseArgs(r.cmd, GRedirs(old(Left())).redirs);
    }

    // The loop of parseexec; ret is the execcmd with the redirections so far.
    method ParseArgs(ret0: Tree, ghost rs0: seq<(Slice, Mode)>) returns (r: Result)
      requires s <= |b| && '\0' !in b && ret0 == Wrap(Exec([]), rs0)
      modifies this
      ensures s <= |b|
      ensures match GArgs(old(Left()), 0)
              case APanic => r == Err
              case AOk(args, more, end) => r == Some(Wrap(Exec(args), rs0 + more)) && Left() == end
    {
      hide Tokens, GRedirs, Wrap, Fill;
      var ret := ret0;
      var argv: seq<Slice> := [];
      ghost var rs := rs0;
      ghost var g := GArgs(Left(), 0);
      var stop := Peek("|)&;");
      while !stop
        invariant s <= |b| && ret == Wrap(Exec([]), rs) && |argv| < MAXARGS
        invariant stop == Next(Left(), "|)&;")
        invariant ArgsLeft(g, argv, rs0, rs, GArgs(Left(), |argv|))
        decreases |Left()|
      {
        ghost var ts := Left();
        var tok, q, eq := GetToken();
        if tok == '\0' {
          break;
        }
        if tok != 'a' {
          return Err;
        }
        argv := argv + [Slice(q, eq)];
        if |argv| >= MAXARGS {
          return Err;
        }
        ghost var gr := GRedirs(Left());
        var more := ParseRedirs(ret);
        if more == Err {
          return Err;
        }
        WrapAppend(Exec([]), rs, gr.redirs);
        ArgsStep(g, argv[..|argv| - 1], Slice(q, eq), rs0, rs, gr.redirs, GArgs(Left(), |argv|));
        ret, rs := more.cmd, rs + gr.redirs;
        stop := Peek("|)&;");
      }
      assert GArgs(Left(), |argv|) == AOk([], [], Left());
      assert argv + [] == argv && rs + [] == rs;
      assert ArgsLeft(g, argv, rs0, rs, AOk([], [], Left()));
      FillWrap(argv, rs);
      return Some(Fill(ret, argv));
    }

    method ParsePipe() returns (r: Result)
      requires s <= |b| && '\0' !in b
      modifies this
      ensures s <= |b| && Agrees(r, GPipe(old(Left())))
      decreases |Left()|, 1, 0
    {
      r := ParseExec();
      if r == Err {
        return;
      }
      var bar := Peek("|");
      if bar {
        Skip();
        var right := ParsePipe();
        if right == Err {
          return Err;
        }
        r := Some(Pipe(r.cmd, right.cmd));
      }
    }

    method ParseLine() returns (r: Result)
      requires s <= |b| && '\0' !in b
      modifies this
      ensures s <= |b| && Agrees(r, GLine(old(Left())))
      decreases |Left()|, 2, 0
    {
      r := ParsePipe();
      if r == Err {
        return;
      }
      var cmd := r.cmd;
      ghost var g := GBack(cmd, Left());
      var amp := Peek("&");
      while amp
        invariant s <= |b| && amp == Next(Left(), "&") && g == GBack(cmd, Left())
        invariant |Left()| <= |old(Left())|
        decreases |Left()|
      {
        Skip();
        cmd := Back(cmd);
        amp := Peek("&");
      }
      var semi := Peek(";");
      if semi {
        Skip();
        var right := ParseLine();
        if right == Err {
          return Err;
        }
        cmd := List(cmd, right.cmd);
      }
      return Some(cmd);
    }

    predicate Agrees(r: Result, g: Parsed)
      reads this
      requires s <= |b|
    {
      match g
      case Panic => r == Err
      case Ok(cmd, rest) => r == Some(cmd) && Left() == rest
    }

    // parsecmd up to nulterminate.
    method ParseCmd() returns (r: Result)
      requires s == 0 && '\0' !in b
      modifies this
      ensures r == match Parse(b) case Panic => Err case Ok(cmd, _) => Some(cmd)
    {
      r := ParseLine();
      if r == Err {
        return;
      }
      SkipSpaces();
      SkipTwice(b, 0);
      if s != |b| {
        return Err;
      }
    }
  }

  // g is the result of a loop that has read argv and the redirections after rs0
  // in rs, and will still read h.
  predicate ArgsLeft(g: Args, argv: seq<Slice>, rs0: seq<(Slice, Mode)>, rs: seq<(Slice, Mode)>, h: Args) {
    match h
    case APanic => g.APanic?
    case AOk(args, redirs, rest) => g.AOk? && g.rest == rest && g.args == argv + args && rs0 + g.redirs == rs + redirs
  }

  lemma ArgsStep(g: Args, argv: seq<Slice>, w: Slice, rs0: seq<(Slice, Mode)>, rs: seq<(Slice, Mode)>,
                 more: seq<(Slice, Mode)>, h: Args)
    requires h.AOk? ==> ArgsLeft(g, argv, rs0, rs, AOk([w] + h.args, more + h.redirs, h.rest))
    requires h.APanic? ==> g.APanic?
    ensures ArgsLeft(g, argv + [w], rs0, rs + more, h)
  {
  }

  function Kinds(chars: string): string {
    if '>' in chars then chars + "+" else chars
  }

  // The execcmd under the redirections receives its arguments.
  function Fill(cmd: Tree, args: seq<Slice>): Tree {
    match cmd
    case Redir(c, f, m) => Redir(Fill(c, args), f, m)
    case Exec(_) => Exec(args)
    case _ => cmd
  }

  lemma {:induction false} WrapAppend(cmd: Tree, rs: seq<(Slice, Mode)>, more: seq<(Slice, Mode)>)
    ensures Wrap(cmd, rs + more) == Wrap(Wrap(cmd, rs), more)
    decreases |rs|
  {
    if rs == [] {
      assert rs + more == more;
    } else {
      assert (rs + more)[1..] == rs[1..] + more;
      WrapAppend(Redir(cmd, rs[0].0, rs[0].1), rs[1..], more);
    }
  }

  lemma {:induction false} FillWrap(args: seq<Slice>, rs: seq<(Slice, Mode)>)
    ensures Fill(Wrap(Exec([]), rs), args) == Wrap(Exec(args), rs)
    decreases |rs|
  {
    if rs != [] {
      var m := |rs| - 1;
      var last := rs[m];
      assert rs == rs[..m] + [last];
      WrapAppend(Exec([]), rs[..m], [last]);
      WrapAppend(Exec(args), rs[..m], [last]);
      FillWrap(args, rs[..m]);
    }
  }

  // ------------------------------------------------- slices stay apart

  function Leaves(c: Tree): set<Slice> {
    match c
    case Exec(args) => set w | w in args
    case Redir(d, file, _) => Leaves(d) + {file}
    case Pipe(l, r) => Leaves(l) + Leaves(r)
    case List(l, r) => Leaves(l) + Leaves(r)
    case Back(d) => Leaves(d)
  }

  // No command has more arguments than fit.
  predicate Small(c: Tree) {
    match c
    case Exec(args) => |args| < MAXARGS
    case Redir(d, _, _) => Small(d)
    case Pipe(l, r) => Small(l) && Small(r)
    case List(l, r) => Small(l) && Small(r)
    case Back(d) => Small(d)
  }

  function Words(ts: seq<Token>): set<Slice> {
    set t | t in ts && t.kind == 'a' :: Slice(t.lo, t.hi)
  }

  lemma WordsTail(ts: seq<Token>, k: nat)
    requires k <= |ts|
    ensures Words(ts[k..]) <= Words(ts)
  {
  }

  function Files(rs: seq<(Slice, Mode)>): set<Slice> {
    set r | r in rs :: r.0
  }

  lemma {:induction false} WrapLeaves(cmd: Tree, rs: seq<(Slice, Mode)>)
    ensures Leaves(Wrap(cmd, rs)) == Leaves(cmd) + Files(rs) && Small(Wrap(cmd, rs)) == Small(cmd)
    decreases |rs|
  {
    if rs != [] {
      WrapLeaves(Redir(cmd, rs[0].0, rs[0].1), rs[1..]);
      assert rs == [rs[0]] + rs[1..];
    }
  }

  lemma {:induction false} RedirsWords(ts: seq<Token>)
    ensures var g := GRedirs(ts); g.ROk? ==> Files(g.redirs) <= Words(ts) && Words(g.rest) <= Words(ts)
  {
    if Next(ts, "<>+") && |ts| >= 2 && ts[1].kind == 'a' {
      RedirsWords(ts[2..]);
      WordsTail(ts, 2);
      assert Slice(ts[1].lo, ts[1].hi) in Words(ts);
    }
  }

  lemma {:induction false} ArgsWords(ts: seq<Token>, argc: nat)
    requires argc < MAXARGS
    ensures GArgs(ts, argc).AOk? ==> argc + |GArgs(ts, argc).args| < MAXARGS
    ensures var g := GArgs(ts, argc);
      g.AOk? ==> (set w | w in g.args) <= Words(ts) && Files(g.redirs) <= Words(ts) && Words(g.rest) <= Words(ts)
    decreases |ts|
  {
    if !(ts == [] || Next(ts, "|)&;")) && ts[0].kind == 'a' && argc + 1 < MAXARGS {
      RedirsWords(ts[1..]);
      WordsTail(ts, 1);
      assert Slice(ts[0].lo, ts[0].hi) in Words(ts);
      if GRedirs(ts[1..]).ROk? {
        ArgsWords(GRedirs(ts[1..]).rest, argc + 1);
      }
    }
  }

  // Every string of a parsed tree is a word of the line.
  lemma {:induction false} ExecWords(ts: seq<Token>)
    ensures var g := GExec(ts); g.Ok? ==> Leaves(g.cmd) <= Words(ts) && Words(g.rest) <= Words(ts) && Small(g.cmd)
    decreases |ts|, 0
  {
    if Next(ts, "(") {
      LineWords(ts[1..]);
      WordsTail(ts, 1);
      var g := GLine(ts[1..]);
      if g.Ok? && Next(g.rest, ")") {
        WordsTail(g.rest, 1);
        RedirsWords(g.rest[1..]);
        if GRedirs(g.rest[1..]).ROk? {
          WrapLeaves(g.cmd, GRedirs(g.rest[1..]).redirs);
        }
      }
    } else {
      RedirsWords(ts);
      var g := GRedirs(ts);
      if g.ROk? {
        ArgsWords(g.rest, 0);
        var h := GArgs(g.rest, 0);
        if h.AOk? {
          WrapLeaves(Exec(h.args), g.redirs + h.redirs);
        }
      }
    }
  }

  lemma {:induction false} PipeWords(ts: seq<Token>)
    ensures var g := GPipe(ts); g.Ok? ==> Leaves(g.cmd) <= Words(ts) && Words(g.rest) <= Words(ts) && Small(g.cmd)
    decreases |ts|, 1
  {
    ExecWords(ts);
    var g := GExec(ts);
    if g.Ok? && Next(g.rest, "|") {
      WordsTail(g.rest, 1);
      PipeWords(g.rest[1..]);
    }
  }

  lemma {:induction false} BackWords(cmd: Tree, ts: seq<Token>)
    ensures Leaves(GBack(cmd, ts).0) == Leaves(cmd) && Words(GBack(cmd, ts).1) <= Words(ts)
    ensures Small(GBack(cmd, ts).0) == Small(cmd)
    decreases |ts|
  {
    if Next(ts, "&") {
      WordsTail(ts, 1);
      BackWords(Back(cmd), ts[1..]);
    }
  }

  lemma {:induction false} LineWords(ts: seq<Token>)
    ensures var g := GLine(ts); g.Ok? ==> Leaves(g.cmd) <= Words(ts) && Words(g.rest) <= Words(ts) && Small(g.cmd)
    decreases |ts|, 2
  {
    PipeWords(ts);
    var g := GPipe(ts);
    if g.Ok? {
      BackWords(g.cmd, g.rest);
      var more := GBack(g.cmd, g.rest).1;
      if Next(more, ";") {
        WordsTail(more, 1);
        LineWords(more[1..]);
      }
    }
  }

  // A word is a maximal run of word characters.
  predicate WordAt(b: string, w: Slice) {
    && w.lo < w.hi <= |b| && (forall i :: w.lo <= i < w.hi ==> WordChar(b[i]))
    && (w.lo > 0 ==> !WordChar(b[w.lo - 1])) && (w.hi < |b| ==> !WordChar(b[w.hi]))
  }

  lemma {:induction false} TokenWords(b: string, s: nat)
    requires s <= |b| && (0 < s < |b| ==> !WordChar(b[s - 1]) || !WordChar(b[s]))
    ensures forall w <- Words(Tokens(b, s)) :: WordAt(b, w)
    decreases |b| - s
  {
    var i := SkipWhite(b, s);
    if i < |b| {
      var t := Scan(b, i);
      TokenWords(b, t.hi);
      forall w <- Words(Tokens(b, s))
        ensures WordAt(b, w)
      {
        if w !in Words(Tokens(b, t.hi)) {
          assert w == Slice(t.lo, t.hi) && t.kind == 'a';
        }
      }
    }
  }

  // ----------------------------------------------------- NUL termination

  function Ends(c: Tree): set<nat> {
    set w | w in Leaves(c) :: w.hi
  }

  // The C string at i.
  function CString(a: seq<char>, i: nat): string
    requires i <= |a|
    decreases |a| - i
  {
    if i == |a| || a[i] == '\0' then "" else [a[i]] + CString(a, i + 1)
  }

  lemma {:induction false} CStringSlice(a: seq<char>, lo: nat, hi: nat)
    requires lo <= hi < |a| && a[hi] == '\0' && forall i :: lo <= i < hi ==> a[i] != '\0'
    ensures CString(a, lo) == a[lo..hi]
    decreases hi - lo
  {
    if lo < hi {
      CStringSlice(a, lo + 1, hi);
    }
  }

  // The line with its NUL, and a NUL after every string of the tree.
  predicate Terminated(b: string, c: Tree, a: seq<char>) {
    && |a| == |b| + 1 && a[|b|] == '\0'
    && forall i :: 0 <= i < |b| ==> a[i] == if i in Ends(c) then '\0' else b[i]
  }

  // Terminating the strings cuts none of them: each reads as its slice.
  lemma StringsIntact(b: string, c: Tree, a: seq<char>, w: Slice)
    requires '\0' !in b && Parse(b) == Ok(c, []) && Terminated(b, c, a) && w in Leaves(c)
    ensures w.lo < w.hi <= |b| && CString(a, w.lo) == b[w.lo..w.hi]
  {
    hide Parse, Leaves, CString, WordChar, Ends;
    EndsOutside(b, c, w);
    assert forall i :: w.lo <= i < w.hi ==> a[i] == b[i] && b[i] in b;
    CStringSlice(a, w.lo, w.hi);
    assert a[w.lo..w.hi] == b[w.lo..w.hi];
  }

  // No string of the tree ends inside another.
  lemma EndsOutside(b: string, c: Tree, w: Slice)
    requires Parse(b) == Ok(c, []) && w in Leaves(c)
    ensures w.lo < w.hi <= |b| && w.hi in Ends(c) && forall i :: w.lo <= i < w.hi ==> i !in Ends(c)
  {
    hide Leaves, WordChar;
    LineWords(Tokens(b, 0));
    TokenWords(b, 0);
    assert WordAt(b, w);
    forall v <- Leaves(c) ensures !(w.lo <= v.hi < w.hi) {
      assert WordAt(b, v);
    }
  }

  // Two strings of the tree are the same slice or lie apart.
  lemma SlicesApart(b: string, c: Tree, v: Slice, w: Slice)
    requires Parse(b) == Ok(c, []) && v in Leaves(c) && w in Leaves(c) && v != w
    ensures v.hi < w.lo || w.hi < v.lo
  {
    LineWords(Tokens(b, 0));
    TokenWords(b, 0);
    assert WordAt(b, v) && WordAt(b, w);
  }

  method NulTerminate(c: Tree, a: array<char>)
    requires forall w <- Leaves(c) :: w.hi < a.Length
    modifies a
    ensures forall i :: 0 <= i < a.Length ==> a[i] == if i in Ends(c) then '\0' else old(a[i])
  {
    match c
    case Exec(args) =>
      var i := 0;
      while i < |args|
        invariant 0 <= i <= |args|
        invariant forall j :: 0 <= j < a.Length ==>
          a[j] == if exists k :: 0 <= k < i && args[k].hi == j then '\0' else old(a[j])
      {
        assert args[i] in Leaves(c);
        a[args[i].hi] := '\0';
        i := i + 1;
      }
    case Redir(d, file, _) =>
      NulTerminate(d, a);
      a[file.hi] := '\0';
    case Pipe(l, r) =>
      NulTerminate(l, a);
      NulTerminate(r, a);
    case List(l, r) =>
      NulTerminate(l, a);
      NulTerminate(r, a);
    case Back(d) =>
      NulTerminate(d, a);
  }

  // parsecmd: on success every string of the tree reads as its slice of the line.
  method ParseCommand(a: array<char>, n: nat) returns (r: Result)
    requires a.Length == n + 1 && a[n] == '\0' && '\0' !in a[..n]
    modifies a
    ensures r == match Parse(old(a[..n])) case Panic => Err case Ok(cmd, _) => Some(cmd)
    ensures r == Err ==> a[..] == old(a[..])
    ensures r.Some? ==> forall w <- Leaves(r.cmd) ::
      w.lo < w.hi <= n && CString(a[..], w.lo) == old(a[w.lo..w.hi])
  {
    ghost var b := a[..n];
    var parser := new Parser(a[..n]);
    r := parser.ParseCmd();
    if r.Some? {
      Terminate(r.cmd, a, n);
    }
  }

  // nulterminate on the tree of the line.
  method Terminate(c: Tree, a: array<char>, n: nat)
    requires a.Length == n + 1 && a[n] == '\0' && '\0' !in a[..n] && Parse(a[..n]) == Ok(c, [])
    modifies a
    ensures forall w <- Leaves(c) :: w.lo < w.hi <= n && CString(a[..], w.lo) == old(a[w.lo..w.hi])
  {
    hide Tokens, Leaves, CString, Ends;
    ghost var b := a[..n];
    AllWords(b, c);
    NulTerminate(c, a);
    assert Terminated(b, c, a[..]);
    forall w <- Leaves(c)
      ensures w.lo < w.hi <= n && CString(a[..], w.lo) == b[w.lo..w.hi]
    {
      StringsIntact(b, c, a[..], w);
    }
  }

  lemma AllWords(b: string, c: Tree)
    requires Parse(b) == Ok(c, [])
    ensures forall w <- Leaves(c) :: WordAt(b, w) && w.hi <= |b|
  {
    LineWords(Tokens(b, 0));
    TokenWords(b, 0);
  }

  // ------------------------------------------------------------ round trip

  // What the line says, as tokens with their text.
  datatype Lex = Word(w: string) | Sym(kind: char)

  function KindOf(m: Mode): char {
    match m
    case In => '<'
    case Out => '>'
    case App => '+'
  }

  function Operator(m: char): seq<Lex> {
    [Sym(')'), Sym(m), Sym('(')]
  }

  // The canonical text of a tree: every subcommand in parentheses.
  function Lexes(c: Cmd<string>): seq<Lex> {
    match c
    case Exec(args) => seq(|args|, i requires 0 <= i < |args| => Word(args[i]))
    case Redir(d, file, m) => [Sym('(')] + Lexes(d) + ([Sym(')')] + [Sym(KindOf(m)), Word(file)])
    case Pipe(l, r) => [Sym('(')] + Lexes(l) + Operator('|') + Lexes(r) + [Sym(')')]
    case List(l, r) => [Sym('(')] + Lexes(l) + Operator(';') + Lexes(r) + [Sym(')')]
    case Back(d) => [Sym('(')] + Lexes(d) + ([Sym(')')] + [Sym('&')])
  }

  function Text(x: Lex): string {
    match x
    case Word(w) => w
    case Sym(k) => if k == '+' then ">>" else [k]
  }

  function Render(xs: seq<Lex>): string {
    if xs == [] then "" else Text(xs[0]) + " " + Render(xs[1..])
  }

  function Print(c: Cmd<string>): string {
    Render(Lexes(c))
  }

  // The trees the shell can be asked for.
  predicate WordOk(w: string) {
    w != "" && forall c <- w :: WordChar(c)
  }

  predicate Buildable(c: Cmd<string>) {
    match c
    case Exec(args) => |args| < MAXARGS && forall w <- args :: WordOk(w)
    case Redir(d, file, _) => Buildable(d) && WordOk(file)
    case Pipe(l, r) => Buildable(l) && Buildable(r)
    case List(l, r) => Buildable(l) && Buildable(r)
    case Back(d) => Buildable(d)
  }

  function Sub(b: string, w: Slice): string {
    if w.lo <= w.hi <= |b| then b[w.lo..w.hi] else ""
  }

  // The tree with the text of its slices.
  function Said(b: string, c: Tree): Cmd<string> {
    match c
    case Exec(args) => Exec(seq(|args|, i requires 0 <= i < |args| => Sub(b, args[i])))
    case Redir(d, file, m) => Redir(Said(b, d), Sub(b, file), m)
    case Pipe(l, r) => Pipe(Said(b, l), Said(b, r))
    case List(l, r) => List(Said(b, l), Said(b, r))
    case Back(d) => Back(Said(b, d))
  }

  predicate Spells1(b: string, t: Token, x: Lex) {
    match x
    case Word(w) => t.kind == 'a' && Sub(b, Slice(t.lo, t.hi)) == w
    case Sym(k) => t.kind == k
  }

  predicate Spells(b: string, ts: seq<Token>, xs: seq<Lex>) {
    |ts| == |xs| && forall i :: 0 <= i < |ts| ==> Spells1(b, ts[i], xs[i])
  }

  predicate LexOk(x: Lex) {
    match x
    case Word(w) => WordOk(w)
    case Sym(k) => Symbol(k) || k == '+'
  }

  // Scanning the rendered tokens gives them back.
  lemma {:induction false} ScanRender(pre: string, xs: seq<Lex>)
    requires forall x <- xs :: LexOk(x)
    ensures Spells(pre + Render(xs), Tokens(pre + Render(xs), |pre|), xs)
    decreases |xs|
  {
    hide Spells1, Scan, SkipWhite, White, LexOk, Text, Tokens;
    var b := pre + Render(xs);
    if xs == [] {
      assert b == pre;
      TokensNext(b, |b|);
    } else {
      var x := xs[0];
      var next := pre + Text(x) + " ";
      assert b == next + Render(xs[1..]);
      ScanOne(pre, x, Render(xs[1..]));
      var t := Scan(b, |pre|);
      assert b[t.hi] == ' ' && t.hi + 1 == |next|;
      OverSpace(b, t.hi);
      ScanRender(next, xs[1..]);
      TokensNext(b, |pre|);
      SpellsMore(b, t, Tokens(b, |next|), xs);
    }
  }

  lemma OverSpace(b: string, s: nat)
    requires s < |b| && b[s] == ' '
    ensures Tokens(b, s) == Tokens(b, s + 1)
  {
    TokensSkip(b, s);
    TokensSkip(b, s + 1);
    assert SkipWhite(b, s) == SkipWhite(b, s + 1);
  }

  lemma SpellsMore(b: string, t: Token, ts: seq<Token>, xs: seq<Lex>)
    requires xs != [] && Spells1(b, t, xs[0]) && Spells(b, ts, xs[1..])
    ensures Spells(b, [t] + ts, xs)
  {
    hide Spells1;
    forall i | 0 <= i < |xs| ensures Spells1(b, ([t] + ts)[i], xs[i]) {
      if i > 0 {
        assert xs[1..][i - 1] == xs[i];
      }
    }
  }

  lemma ScanOne(pre: string, x: Lex, post: string)
    requires LexOk(x)
    ensures var b := pre + Text(x) + " " + post;
      && |pre| < |b| && !White(b[|pre|]) && SkipWhite(b, |pre|) == |pre|
      && Scan(b, |pre|).hi == |pre| + |Text(x)| && Spells1(b, Scan(b, |pre|), x)
  {
    var b := pre + Text(x) + " " + post;
    var s, e := |pre|, |pre| + |Text(x)|;
    assert b[e] == ' ' && b[s..e] == Text(x);
    assert b[s] == Text(x)[0];
    if x.Word? {
      forall i | s <= i < e
        ensures WordChar(b[i])
      {
        assert b[i] == Text(x)[i - s];
      }
      WordEnds(b, s + 1, e);
    } else if x.kind == '+' {
      assert b[s + 1] == Text(x)[1];
    }
  }

  lemma {:induction false} WordEnds(b: string, s: nat, e: nat)
    requires s <= e < |b| && !WordChar(b[e]) && forall i :: s <= i < e ==> WordChar(b[i])
    ensures SkipWord(b, s) == e
    decreases e - s
  {
  }

  // What can come after a command that is complete in parentheses.
  predicate Closed(ts: seq<Token>) {
    ts == [] || ts[0].kind == ')'
  }

  predicate Reads(b: string, p: Parsed, c: Cmd<string>, rest: seq<Token>) {
    p.Ok? && p.rest == rest && Said(b, p.cmd) == c
  }

  // ( line ) followed by anything but a redirection.
  lemma BlockReads(b: string, ts: seq<Token>, c: Cmd<string>, open: Token, close: Token, rest: seq<Token>)
    requires open.kind == '(' && close.kind == ')' && !Next(rest, "<>+")
    requires Reads(b, GLine(ts + ([close] + rest)), c, [close] + rest)
    ensures Reads(b, GExec([open] + ts + [close] + rest), c, rest)
  {
    var all := [open] + ts + [close] + rest;
    assert all[1..] == ts + ([close] + rest);
    assert ([close] + rest)[1..] == rest;
    assert GRedirs(rest) == ROk([], rest);
  }

  // A command complete in itself is a whole line.
  lemma ExecIsLine(b: string, ts: seq<Token>, c: Cmd<string>, rest: seq<Token>)
    requires Reads(b, GExec(ts), c, rest) && Closed(rest)
    ensures Reads(b, GLine(ts), c, rest)
  {
  }

  lemma {:induction false} LineReads(b: string, c: Cmd<string>, ts: seq<Token>, rest: seq<Token>)
    requires Buildable(c) && Spells(b, ts, Lexes(c)) && Closed(rest)
    ensures Reads(b, GLine(ts + rest), c, rest)
    decreases c
  {
    hide Spells, Reads, GLine;
    match c
    case Exec(args) =>
      ExecReads(b, args, ts, rest);
    case Redir(d, file, m) =>
      var inner, e := OneSplit(b, d, ts, [Sym(KindOf(m)), Word(file)], rest);
      LineReads(b, d, inner, [ts[e]] + (ts[e + 1..] + rest));
      RedirReads(b, d, inner, file, m, ts[0], ts[e], ts[e + 1..], rest);
    case Pipe(l, r) =>
      var left, right, e := TwoSplit(b, l, r, '|', ts, rest);
      var second := [ts[e + 2]] + right + [ts[|ts| - 1]] + rest;
      LineReads(b, l, left, [ts[e]] + ([ts[e + 1]] + second));
      LineReads(b, r, right, [ts[|ts| - 1]] + rest);
      PipeReads(b, l, r, left, right, ts[0], ts[e], ts[e + 1], ts[e + 2], ts[|ts| - 1], rest);
    case List(l, r) =>
      var left, right, e := TwoSplit(b, l, r, ';', ts, rest);
      var second := [ts[e + 2]] + right + [ts[|ts| - 1]] + rest;
      LineReads(b, l, left, [ts[e]] + ([ts[e + 1]] + second));
      LineReads(b, r, right, [ts[|ts| - 1]] + rest);
      ListReads(b, l, r, left, right, ts[0], ts[e], ts[e + 1], ts[e + 2], ts[|ts| - 1], rest);
    case Back(d) =>
      var inner, e := OneSplit(b, d, ts, [Sym('&')], rest);
      LineReads(b, d, inner, [ts[e]] + (ts[e + 1..] + rest));
      BackReads(b, d, inner, ts[0], ts[e], ts[e + 1..], rest);
  }

  // The parts of ( d ) tail.
  lemma OneSplit(b: string, d: Cmd<string>, ts: seq<Token>, tail: seq<Lex>, rest: seq<Token>)
    returns (inner: seq<Token>, e: nat)
    requires Spells(b, ts, [Sym('(')] + Lexes(d) + ([Sym(')')] + tail))
    ensures 0 < e < |ts| && |ts| == e + 1 + |tail| && Spells(b, inner, Lexes(d)) && Spells(b, ts[e + 1..], tail)
    ensures ts[0].kind == '(' && ts[e].kind == ')'
    ensures ts + rest == [ts[0]] + inner + [ts[e]] + (ts[e + 1..] + rest)
  {
    hide Lexes, Spells1;
    var xs := [Sym('(')] + Lexes(d) + ([Sym(')')] + tail);
    e := |Lexes(d)| + 1;
    inner := ts[1..e];
    Around(Sym('('), Lexes(d), Sym(')'), tail);
    Pieces(ts, e, rest);
    SpellsPart(b, ts, xs, 1, e);
    SpellsPart(b, ts, xs, e + 1, |ts|);
    OpKind(b, ts[0], '(', ts, xs);
    SpellsPart(b, ts, xs, e, |ts|);
    OpKind(b, ts[e], ')', ts[e..], xs[e..]);
  }

  lemma Around<T>(x: T, inner: seq<T>, y: T, tail: seq<T>)
    ensures var xs, e := [x] + inner + ([y] + tail), |inner| + 1;
      |xs| == e + 1 + |tail| && xs[0] == x && xs[1..e] == inner && xs[e] == y && xs[e + 1..|xs|] == tail
  {
  }

  lemma Pieces<T>(ts: seq<T>, e: nat, rest: seq<T>)
    requires 0 < e < |ts|
    ensures ts + rest == [ts[0]] + ts[1..e] + [ts[e]] + (ts[e + 1..] + rest)
  {
    assert ts == [ts[0]] + ts[1..e] + [ts[e]] + ts[e + 1..];
  }

  lemma SpellsPart(b: string, ts: seq<Token>, xs: seq<Lex>, lo: nat, hi: nat)
    requires Spells(b, ts, xs) && lo <= hi <= |ts|
    ensures Spells(b, ts[lo..hi], xs[lo..hi])
    ensures hi == |ts| ==> ts[lo..hi] == ts[lo..] && xs[lo..hi] == xs[lo..]
  {
    hide Spells1;
    forall i | 0 <= i < hi - lo ensures Spells1(b, ts[lo..hi][i], xs[lo..hi][i]) {
      assert Spells1(b, ts[lo + i], xs[lo + i]);
    }
  }

  lemma OpKind(b: string, t: Token, op: char, ts: seq<Token>, xs: seq<Lex>)
    requires Spells(b, ts, xs) && xs != [] && xs[0] == Sym(op) && t == ts[0]
    ensures t.kind == op
  {
  }

  // The parts of ( l ) op ( r ).
  lemma TwoSplit(b: string, l: Cmd<string>, r: Cmd<string>, op: char, ts: seq<Token>, rest: seq<Token>)
    returns (left: seq<Token>, right: seq<Token>, e: nat)
    requires Spells(b, ts, [Sym('(')] + Lexes(l) + Operator(op) + Lexes(r) + [Sym(')')])
    ensures 0 < e && e + 3 < |ts| && Spells(b, left, Lexes(l)) && Spells(b, right, Lexes(r))
    ensures ts[0].kind == '(' && ts[e].kind == ')' && ts[e + 1].kind == op
    ensures ts[e + 2].kind == '(' && ts[|ts| - 1].kind == ')'
    ensures ts + rest == [ts[0]] + left + [ts[e]] + ([ts[e + 1]] + ([ts[e + 2]] + right + [ts[|ts| - 1]] + rest))
  {
    hide Lexes, Spells1, Spells;
    var tail := [Sym(op), Sym('(')] + Lexes(r) + [Sym(')')];
    TwoParts(Sym('('), Lexes(l), Sym(')'), Sym(op), Lexes(r));
    left, e := OneSplit(b, l, ts, tail, rest);
    SpellsPart(b, ts[e + 1..], tail, 1, |tail|);
    OpKind(b, ts[e + 1], op, ts[e + 1..], tail);
    var more := ts[e + 2..];
    var k;
    right, k := OneSplit(b, r, more, [], rest);
    JoinParts(ts, left, e, more, right, k, rest);
  }

  lemma TwoParts<T>(x: T, l: seq<T>, y: T, o: T, r: seq<T>)
    ensures [x] + l + [y, o, x] + r + [y] == [x] + l + ([y] + ([o, x] + r + [y]))
    ensures ([o, x] + r + [y])[1..] == [x] + r + ([y] + [])
  {
  }

  lemma JoinParts<T>(ts: seq<T>, left: seq<T>, e: nat, more: seq<T>, right: seq<T>, k: nat, rest: seq<T>)
    requires 0 < e && e + 2 < |ts| && more == ts[e + 2..] && 0 < k && |more| == k + 1
    requires ts + rest == [ts[0]] + left + [ts[e]] + (ts[e + 1..] + rest)
    requires more + rest == [more[0]] + right + [more[k]] + (more[k + 1..] + rest)
    ensures ts + rest == [ts[0]] + left + [ts[e]] + ([ts[e + 1]] + ([ts[e + 2]] + right + [ts[|ts| - 1]] + rest))
  {
    assert ts[e + 1..] + rest == [ts[e + 1]] + (more + rest);
    assert more[k + 1..] + rest == rest;
  }

  lemma NoRedirs(ts: seq<Token>)
    requires !Next(ts, "<>+")
    ensures GRedirs(ts) == ROk([], ts)
  {
  }

  // Words up to the end or a closing parenthesis.
  lemma {:induction false} ArgsRead(b: string, args: seq<string>, argc: nat, ts: seq<Token>, rest: seq<Token>)
    requires argc + |args| < MAXARGS && |ts| == |args| && Closed(rest)
    requires forall i :: 0 <= i < |args| ==> Spells1(b, ts[i], Word(args[i]))
    ensures var g := GArgs(ts + rest, argc);
      && g.AOk? && g.rest == rest && g.redirs == [] && |g.args| == |args|
      && forall i :: 0 <= i < |args| ==> Sub(b, g.args[i]) == args[i]
    decreases |args|
  {
    hide Sub, GRedirs;
    if args == [] {
      assert ts + rest == rest;
    } else {
      var tail := ts[1..] + rest;
      assert (ts + rest)[1..] == tail;
      assert !Next(tail, "<>+");
      ArgsRead(b, args[1..], argc + 1, ts[1..], rest);
      var g := GArgs(tail, argc + 1);
      NoRedirs(tail);
      assert Spells1(b, ts[0], Word(args[0]));
      assert GArgs(ts + rest, argc) == AOk([Slice(ts[0].lo, ts[0].hi)] + g.args, [] + g.redirs, rest);
    }
  }

  lemma ExecReads(b: string, args: seq<string>, ts: seq<Token>, rest: seq<Token>)
    requires Buildable(Exec(args)) && Spells(b, ts, Lexes(Exec(args))) && Closed(rest)
    ensures Reads(b, GLine(ts + rest), Exec(args), rest)
  {
    hide GLine, GArgs, Sub;
    var all := ts + rest;
    forall i | 0 <= i < |args|
      ensures Spells1(b, ts[i], Word(args[i]))
    {
      assert Lexes(Exec(args))[i] == Word(args[i]);
    }
    ArgsRead(b, args, 0, ts, rest);
    assert GRedirs(all) == ROk([], all);
    var g := GArgs(all, 0);
    assert [] + g.redirs == [];
    assert Said(b, Exec(g.args)) == Exec(args);
    ExecIsLine(b, all, Exec(args), rest);
  }

  lemma RedirReads(b: string, d: Cmd<string>, inner: seq<Token>, file: string, m: Mode,
                   open: Token, close: Token, tail: seq<Token>, rest: seq<Token>)
    requires open.kind == '(' && close.kind == ')' && Spells(b, tail, [Sym(KindOf(m)), Word(file)]) && Closed(rest)
    requires Reads(b, GLine(inner + ([close] + (tail + rest))), d, [close] + (tail + rest))
    ensures Reads(b, GLine([open] + inner + [close] + (tail + rest)), Redir(d, file, m), rest)
  {
    hide GLine;
    var all := [open] + inner + [close] + (tail + rest);
    assert all[1..] == inner + ([close] + (tail + rest));
    assert ([close] + (tail + rest))[1..] == tail + rest && (tail + rest)[2..] == rest;
    assert Spells1(b, tail[0], Sym(KindOf(m))) && Spells1(b, tail[1], Word(file));
    assert GRedirs(rest) == ROk([], rest);
    var rs := [(Slice(tail[1].lo, tail[1].hi), m)];
    assert (tail + rest)[0] == tail[0] && (tail + rest)[1] == tail[1];
    assert GRedirs(tail + rest) == ROk(rs + [], rest) && rs + [] == rs && rs[1..] == [];
    var cmd := GLine(inner + ([close] + (tail + rest))).cmd;
    assert Wrap(cmd, rs) == Redir(cmd, rs[0].0, m);
    assert GExec(all) == Ok(Wrap(cmd, rs), rest);
    ExecIsLine(b, all, Redir(d, file, m), rest);
  }

  lemma PipeReads(b: string, l: Cmd<string>, r: Cmd<string>, left: seq<Token>, right: seq<Token>,
                  o1: Token, c1: Token, op: Token, o2: Token, c2: Token, rest: seq<Token>)
    requires o1.kind == '(' && c1.kind == ')' && op.kind == '|' && o2.kind == '(' && c2.kind == ')' && Closed(rest)
    requires var tail := [op] + ([o2] + right + [c2] + rest); Reads(b, GLine(left + ([c1] + tail)), l, [c1] + tail)
    requires Reads(b, GLine(right + ([c2] + rest)), r, [c2] + rest)
    ensures Reads(b, GLine([o1] + left + [c1] + ([op] + ([o2] + right + [c2] + rest))), Pipe(l, r), rest)
  {
    var second := [o2] + right + [c2] + rest;
    var all := [o1] + left + [c1] + ([op] + second);
    BlockReads(b, left, l, o1, c1, [op] + second);
    BlockReads(b, right, r, o2, c2, rest);
    assert ([op] + second)[1..] == second;
    assert GPipe(second) == GExec(second);
    assert Reads(b, GPipe(all), Pipe(l, r), rest);
  }

  lemma ListReads(b: string, l: Cmd<string>, r: Cmd<string>, left: seq<Token>, right: seq<Token>,
                  o1: Token, c1: Token, op: Token, o2: Token, c2: Token, rest: seq<Token>)
    requires o1.kind == '(' && c1.kind == ')' && op.kind == ';' && o2.kind == '(' && c2.kind == ')' && Closed(rest)
    requires var tail := [op] + ([o2] + right + [c2] + rest); Reads(b, GLine(left + ([c1] + tail)), l, [c1] + tail)
    requires Reads(b, GLine(right + ([c2] + rest)), r, [c2] + rest)
    ensures Reads(b, GLine([o1] + left + [c1] + ([op] + ([o2] + right + [c2] + rest))), List(l, r), rest)
  {
    var second := [o2] + right + [c2] + rest;
    var all := [o1] + left + [c1] + ([op] + second);
    BlockReads(b, left, l, o1, c1, [op] + second);
    BlockReads(b, right, r, o2, c2, rest);
    ExecIsLine(b, second, r, rest);
    assert ([op] + second)[1..] == second;
    assert GPipe(all) == GExec(all);
  }

  lemma BackReads(b: string, d: Cmd<string>, inner: seq<Token>, open: Token, close: Token, tail: seq<Token>,
                  rest: seq<Token>)
    requires open.kind == '(' && close.kind == ')' && Spells(b, tail, [Sym('&')]) && Closed(rest)
    requires Reads(b, GLine(inner + ([close] + (tail + rest))), d, [close] + (tail + rest))
    ensures Reads(b, GLine([open] + inner + [close] + (tail + rest)), Back(d), rest)
  {
    var all := [open] + inner + [close] + (tail + rest);
    assert Spells1(b, tail[0], Sym('&')) && (tail + rest)[0] == tail[0] && (tail + rest)[1..] == rest;
    BlockReads(b, inner, d, open, close, tail + rest);
    assert GPipe(all) == GExec(all);
    var cmd := GExec(all).cmd;
    assert GBack(Back(cmd), rest) == (Back(cmd), rest);
    assert GBack(cmd, tail + rest) == (Back(cmd), rest);
  }

  // Parsing the canonical text of any tree of at most nine arguments a command
  // consumes all of it and returns that tree.
  lemma RoundTrip(c: Cmd<string>)
    requires Buildable(c)
    ensures Reads(Print(c), Parse(Print(c)), c, [])
  {
    LexesOk(c);
    var b := Print(c);
    assert "" + Render(Lexes(c)) == b;
    ScanRender("", Lexes(c));
    var ts := Tokens(b, 0);
    LineReads(b, c, ts, []);
    assert ts + [] == ts;
  }

  lemma {:induction false} LexesOk(c: Cmd<string>)
    requires Buildable(c)
    ensures forall x <- Lexes(c) :: LexOk(x)
  {
    match c
    case Exec(args) =>
    case Redir(d, file, m) => LexesOk(d);
    case Pipe(l, r) => LexesOk(l); LexesOk(r);
    case List(l, r) => LexesOk(l); LexesOk(r);
    case Back(d) => LexesOk(d);
  }

  lemma {:induction false} SaidBuildable(b: string, c: Tree)
    requires Small(c) && forall w <- Leaves(c) :: WordAt(b, w)
    ensures Buildable(Said(b, c))
  {
    match c
    case Exec(args) =>
      forall i | 0 <= i < |args|
        ensures WordOk(Sub(b, args[i]))
      {
        SubOk(b, args[i]);
      }
    case Redir(d, file, _) =>
      SaidBuildable(b, d);
      SubOk(b, file);
    case Pipe(l, r) =>
      SaidBuildable(b, l);
      SaidBuildable(b, r);
    case List(l, r) =>
      SaidBuildable(b, l);
      SaidBuildable(b, r);
    case Back(d) =>
      SaidBuildable(b, d);
  }

  lemma SubOk(b: string, w: Slice)
    requires WordAt(b, w)
    ensures WordOk(Sub(b, w))
  {
  }

  // Whatever line was parsed, the canonical text of its tree parses to the same
  // tree.
  lemma Reparse(b: string, c: Tree)
    requires Parse(b) == Ok(c, [])
    ensures Buildable(Said(b, c))
    ensures Reads(Print(Said(b, c)), Parse(Print(Said(b, c))), Said(b, c), [])
  {
    LineWords(Tokens(b, 0));
    TokenWords(b, 0);
    SaidBuildable(b, c);
    RoundTrip(Said(b, c));
  }
}

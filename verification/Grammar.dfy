// The grammar that the recursive descent of the shell (user/sh.c) is meant for,
// as a relation between token sequences and trees, and the proof that the
// parser accepts exactly the lines that it gives a tree.
module Grammar {
  import opened Shell

  //   line  ::= back | back ";" line
  //   back  ::= pipe | back "&"
  //   pipe  ::= exec | exec "|" pipe
  //   exec  ::= "(" line ")" redirs | words and redirs, at most nine words
  //   redir ::= ("<" | ">" | ">>") word

  predicate Op(ts: seq<Token>, k: int, kind: char) {
    0 <= k < |ts| && ts[k].kind == kind
  }

  ghost predicate Line(ts: seq<Token>, c: Tree)
    decreases |ts|, 3
  {
    || Backs(ts, c)
    || (c.List? && exists k: nat :: Op(ts, k, ';') && Backs(ts[..k], c.left) && Line(ts[k + 1..], c.right))
  }

  ghost predicate Backs(ts: seq<Token>, c: Tree)
    decreases |ts|, 2
  {
    || Pipes(ts, c)
    || (c.Back? && Op(ts, |ts| - 1, '&') && Backs(ts[..|ts| - 1], c.cmd))
  }

  ghost predicate Pipes(ts: seq<Token>, c: Tree)
    decreases |ts|, 1
  {
    || Execs(ts, c)
    || (c.Pipe? && exists k: nat :: Op(ts, k, '|') && Execs(ts[..k], c.left) && Pipes(ts[k + 1..], c.right))
  }

  ghost predicate Execs(ts: seq<Token>, c: Tree)
    decreases |ts|, 0
  {
    || (Op(ts, 0, '(') && exists k: nat, d: Tree ::
          0 < k && Op(ts, k, ')') && Line(ts[1..k], d) && After(d, ts[k + 1..], c))
    || exists args: seq<Slice>, rs: seq<(Slice, Mode)> ::
        |args| <= 9 && Words(ts, args, rs) && Wrapped(Exec(args), rs, c)
  }

  // Redirections after a block.
  ghost predicate After(d: Tree, ts: seq<Token>, c: Tree) {
    exists rs: seq<(Slice, Mode)> :: Words(ts, [], rs) && Wrapped(d, rs, c)
  }

  // Words and redirections, in the order in which they stand.
  predicate Words(ts: seq<Token>, args: seq<Slice>, rs: seq<(Slice, Mode)>)
    decreases |ts|
  {
    if ts == [] then args == [] && rs == []
    else if ts[0].kind == 'a' then args != [] && args[0] == Slice(ts[0].lo, ts[0].hi) && Words(ts[1..], args[1..], rs)
    else |ts| >= 2 && rs != [] && IsRedir(ts[0], ts[1], rs[0]) && Words(ts[2..], args, rs[1..])
  }

  // An operator and a file name.
  predicate IsRedir(t: Token, u: Token, x: (Slice, Mode)) {
    && u.kind == 'a' && x.0 == Slice(u.lo, u.hi)
    && ((t.kind == '<' && x.1 == In) || (t.kind == '>' && x.1 == Out) || (t.kind == '+' && x.1 == App))
  }

  // Each redirection applies to the command with those before it.
  predicate Wrapped(d: Tree, rs: seq<(Slice, Mode)>, c: Tree)
    decreases |rs|
  {
    if rs == [] then c == d
    else
      var last := rs[|rs| - 1];
      c.Redir? && c.file == last.0 && c.mode == last.1 && Wrapped(d, rs[..|rs| - 1], c.cmd)
  }

  // ------------------------------------------------------------ redirections

  lemma {:induction false} WrapLast(d: Tree, rs: seq<(Slice, Mode)>, x: (Slice, Mode))
    ensures Wrap(d, rs + [x]) == Redir(Wrap(d, rs), x.0, x.1)
    decreases |rs|
  {
    if rs == [] {
      assert [x][1..] == [];
    } else {
      assert (rs + [x])[1..] == rs[1..] + [x];
      WrapLast(Redir(d, rs[0].0, rs[0].1), rs[1..], x);
    }
  }

  lemma {:induction false} WrappedIs(d: Tree, rs: seq<(Slice, Mode)>, c: Tree)
    ensures Wrapped(d, rs, c) <==> c == Wrap(d, rs)
    decreases |rs|
  {
    if rs != [] {
      var front, x := rs[..|rs| - 1], rs[|rs| - 1];
      assert rs == front + [x];
      WrapLast(d, front, x);
      if c.Redir? {
        WrappedIs(d, front, c.cmd);
      }
    }
  }

  // The first word or redirection, and the rest.
  lemma WordsOpen(ts: seq<Token>, args: seq<Slice>, rs: seq<(Slice, Mode)>)
    requires ts != []
    ensures Words(ts, args, rs) <==>
            if ts[0].kind == 'a' then args != [] && args[0] ==
              Slice(ts[0].lo, ts[0].hi) && Words(ts[1..], args[1..], rs)
            else |ts| >= 2 && rs != [] && IsRedir(ts[0], ts[1], rs[0]) && Words(ts[2..], args, rs[1..])
  {
  }

  lemma {:induction false} WordsThen(ts: seq<Token>, args: seq<Slice>, rs: seq<(Slice, Mode)>, ts': seq<Token>,
                                     args': seq<Slice>, rs': seq<(Slice, Mode)>)
    requires Words(ts, args, rs) && Words(ts', args', rs')
    ensures Words(ts + ts', args + args', rs + rs')
    decreases |ts|
  {
    hide Words, IsRedir;
    var all := ts + ts';
    if ts == [] {
      NoWords(args, rs);
      assert all == ts' && args + args' == args' && rs + rs' == rs';
    } else {
      WordsOpen(ts, args, rs);
      WordsOpen(all, args + args', rs + rs');
      if ts[0].kind == 'a' {
        WordsThen(ts[1..], args[1..], rs, ts', args', rs');
        assert all[1..] == ts[1..] + ts' && (args + args')[1..] == args[1..] + args';
      } else {
        WordsThen(ts[2..], args, rs[1..], ts', args', rs');
        assert all[2..] == ts[2..] + ts' && (rs + rs')[1..] == rs[1..] + rs';
      }
    }
  }

  lemma NoWords(args: seq<Slice>, rs: seq<(Slice, Mode)>)
    ensures Words([], args, rs) <==> args == [] && rs == []
  {
  }

  // rest is what is left of ts after words and redirections.
  predicate Reading(ts: seq<Token>, rest: seq<Token>, args: seq<Slice>, rs: seq<(Slice, Mode)>) {
    && |rest| <= |ts| && ts[|ts| - |rest|..] == rest
    && Words(ts[..|ts| - |rest|], args, rs)
  }

  lemma ReadingThen(ts: seq<Token>, mid: seq<Token>, rest: seq<Token>, args: seq<Slice>, rs: seq<(Slice, Mode)>,
                    args': seq<Slice>, rs': seq<(Slice, Mode)>)
    requires Reading(ts, mid, args, rs) && Reading(mid, rest, args', rs')
    ensures Reading(ts, rest, args + args', rs + rs')
  {
    hide Words;
    var k, n := |ts| - |mid|, |ts| - |rest|;
    assert ts[k..][n - k..] == ts[n..];
    assert ts[..k] + mid[..n - k] == ts[..n];
    WordsThen(ts[..k], args, rs, mid[..n - k], args', rs');
  }

  lemma ReadingNone(ts: seq<Token>)
    ensures Reading(ts, ts, [], [])
  {
    assert ts[..0] == [];
  }

  lemma ReadingWord(ts: seq<Token>)
    requires ts != [] && ts[0].kind == 'a'
    ensures Reading(ts, ts[1..], [Slice(ts[0].lo, ts[0].hi)], [])
  {
    assert ts[..1][1..] == [];
  }

  lemma ReadingRedir(ts: seq<Token>)
    requires |ts| >= 2 && Next(ts, "<>+") && ts[1].kind == 'a'
    ensures Reading(ts, ts[2..], [], [(Slice(ts[1].lo, ts[1].hi), ModeOf(ts[0].kind))])
  {
    assert ts[..2][2..] == [];
  }

  // What the functions of the grammar read is what the relation says.
  lemma {:induction false} RedirsRead(ts: seq<Token>)
    requires GRedirs(ts).ROk?
    ensures Reading(ts, GRedirs(ts).rest, [], GRedirs(ts).redirs)
    decreases |ts|
  {
    hide Reading;
    if Next(ts, "<>+") {
      RedirsRead(ts[2..]);
      ReadingRedir(ts);
      var g := GRedirs(ts[2..]);
      ReadingThen(ts, ts[2..], g.rest, [], [(Slice(ts[1].lo, ts[1].hi), ModeOf(ts[0].kind))], [], g.redirs);
      var none: seq<Slice> := [];
      assert none + none == none;
    } else {
      ReadingNone(ts);
    }
  }

  lemma {:induction false} ArgsRead1(ts: seq<Token>, argc: nat)
    requires GArgs(ts, argc).AOk? && argc < MAXARGS
    ensures var g := GArgs(ts, argc); Reading(ts, g.rest, g.args, g.redirs) && argc + |g.args| < MAXARGS
    decreases |ts|
  {
    hide Reading;
    if ts == [] || Next(ts, "|)&;") {
      ReadingNone(ts);
    } else {
      var h := GRedirs(ts[1..]);
      ReadingWord(ts);
      RedirsRead(ts[1..]);
      ArgsRead1(h.rest, argc + 1);
      var g := GArgs(h.rest, argc + 1);
      var word := [Slice(ts[0].lo, ts[0].hi)];
      ReadingThen(ts, ts[1..], h.rest, word, [], [], h.redirs);
      assert word + [] == word && [] + h.redirs == h.redirs;
      ReadingThen(ts, h.rest, g.rest, word, h.redirs, g.args, g.redirs);
    }
  }

  // The front of ts, before rest, is a line (back, pipe, exec) with tree c.
  ghost predicate Front(level: nat, ts: seq<Token>, rest: seq<Token>, c: Tree) {
    && |rest| <= |ts| && ts[|ts| - |rest|..] == rest
    && var front := ts[..|ts| - |rest|];
       if level == 0 then Execs(front, c) else if level == 1 then Pipes(front, c)
       else if level == 2 then Backs(front, c) else Line(front, c)
  }

  lemma Rise(level: nat, ts: seq<Token>, rest: seq<Token>, c: Tree)
    requires Front(level, ts, rest, c)
    ensures Front(level + 1, ts, rest, c)
  {
  }

  lemma {:induction false} ExecRead(ts: seq<Token>)
    requires GExec(ts).Ok?
    ensures Front(0, ts, GExec(ts).rest, GExec(ts).cmd)
    decreases |ts|, 0
  {
    hide Front;
    if Next(ts, "(") {
      LineRead(ts[1..]);
      BlockIsExec(ts);
    } else {
      CommandIsExec(ts);
    }
  }

  lemma BlockIsExec(ts: seq<Token>)
    requires Next(ts, "(") && GExec(ts).Ok? && Front(3, ts[1..], GLine(ts[1..]).rest, GLine(ts[1..]).cmd)
    ensures Front(0, ts, GExec(ts).rest, GExec(ts).cmd)
  {
    hide Front, Wrapped, GRedirs, GArgs, GLine, Wrap, Reading;
    var g := GLine(ts[1..]);
    var h := GRedirs(g.rest[1..]);
    RedirsRead(g.rest[1..]);
    WrappedIs(g.cmd, h.redirs, Wrap(g.cmd, h.redirs));
    BlockRead(ts, g.cmd, g.rest, h.redirs, h.rest, Wrap(g.cmd, h.redirs));
  }

  lemma CommandIsExec(ts: seq<Token>)
    requires !Next(ts, "(") && GExec(ts).Ok?
    ensures Front(0, ts, GExec(ts).rest, GExec(ts).cmd)
  {
    hide Front, Wrapped, GRedirs, GArgs, GLine, Wrap, Reading;
    var h := GRedirs(ts);
    RedirsRead(ts);
    ArgsRead1(h.rest, 0);
    var g := GArgs(h.rest, 0);
    ReadingThen(ts, h.rest, g.rest, [], h.redirs, g.args, g.redirs);
    assert [] + g.args == g.args;
    WrappedIs(Exec(g.args), h.redirs + g.redirs, Wrap(Exec(g.args), h.redirs + g.redirs));
    WordsAreExec(ts, g.rest, g.args, h.redirs + g.redirs, Wrap(Exec(g.args), h.redirs + g.redirs));
  }

  lemma WordsAreExec(ts: seq<Token>, rest: seq<Token>, args: seq<Slice>, rs: seq<(Slice, Mode)>, c: Tree)
    requires Reading(ts, rest, args, rs) && |args| <= 9 && Wrapped(Exec(args), rs, c)
    ensures Front(0, ts, rest, c)
  {
    hide Words, Wrapped, Line;
  }

  lemma BlockRead(ts: seq<Token>, d: Tree, mid: seq<Token>, rs: seq<(Slice, Mode)>, rest: seq<Token>, c: Tree)
    requires Next(ts, "(") && Front(3, ts[1..], mid, d) && Next(mid, ")") && Reading(mid[1..], rest, [], rs)
    requires Wrapped(d, rs, c)
    ensures Front(0, ts, rest, c)
  {
    hide Words, Wrapped, Line;
    var k, n := |ts| - |mid|, |ts| - |rest|;
    var front := ts[..n];
    assert ts[1..][k - 1..] == ts[k..];
    assert front[k] == mid[0] && Op(front, k, ')') && Op(front, 0, '(');
    assert front[1..k] == ts[1..][..k - 1];
    assert front[k + 1..] == mid[1..][..|mid| - 1 - |rest|];
    assert mid[1..] == ts[k + 1..];
    assert ts[n..] == rest by { assert ts[k + 1..][n - k - 1..] == ts[n..]; }
    assert After(d, front[k + 1..], c);
  }

  lemma {:induction false} PipeRead(ts: seq<Token>)
    requires GPipe(ts).Ok?
    ensures Front(1, ts, GPipe(ts).rest, GPipe(ts).cmd)
    decreases |ts|, 1
  {
    hide Front;
    ExecRead(ts);
    var g := GExec(ts);
    if Next(g.rest, "|") {
      PipeRead(g.rest[1..]);
      PipeJoins(ts, g.cmd, g.rest, GPipe(g.rest[1..]).cmd, GPipe(g.rest[1..]).rest);
    } else {
      Rise(0, ts, g.rest, g.cmd);
    }
  }

  lemma PipeJoins(ts: seq<Token>, l: Tree, mid: seq<Token>, r: Tree, rest: seq<Token>)
    requires Front(0, ts, mid, l) && Next(mid, "|") && Front(1, mid[1..], rest, r)
    ensures Front(1, ts, rest, Cmd.Pipe(l, r))
  {
    hide Execs;
    var k := Cut(ts, mid, rest);
    assert Op(ts[..|ts| - |rest|], k, '|');
  }

  // Where mid begins in the front of ts before rest.
  lemma Cut(ts: seq<Token>, mid: seq<Token>, rest: seq<Token>) returns (k: nat)
    requires mid != [] && |rest| < |mid| <= |ts| && ts[|ts| - |mid|..] == mid
    requires mid[1..][|mid| - 1 - |rest|..] == rest
    ensures k == |ts| - |mid| && k < |ts| - |rest| && ts[|ts| - |rest|..] == rest
    ensures var front := ts[..|ts| - |rest|];
      front[..k] == ts[..k] && front[k] == mid[0] && front[k + 1..] == mid[1..][..|mid| - 1 - |rest|]
  {
    k := |ts| - |mid|;
    assert mid[1..] == ts[k + 1..];
    assert ts[k + 1..][|mid| - 1 - |rest|..] == ts[|ts| - |rest|..];
  }

  lemma {:induction false} BackRead(ts: seq<Token>, cmd: Tree, mid: seq<Token>)
    requires Front(2, ts, mid, cmd)
    ensures Front(2, ts, GBack(cmd, mid).1, GBack(cmd, mid).0)
    decreases |mid|
  {
    hide Front;
    if Next(mid, "&") {
      BackMore(ts, cmd, mid);
      BackRead(ts, Back(cmd), mid[1..]);
    }
  }

  lemma BackMore(ts: seq<Token>, cmd: Tree, mid: seq<Token>)
    requires Front(2, ts, mid, cmd) && Next(mid, "&")
    ensures Front(2, ts, mid[1..], Back(cmd))
  {
    hide Pipes;
    var n := |ts| - |mid|;
    assert ts[n + 1..] == mid[1..];
    assert ts[..n + 1][n] == mid[0] && ts[..n + 1][..n] == ts[..n];
  }

  lemma {:induction false} LineRead(ts: seq<Token>)
    requires GLine(ts).Ok?
    ensures Front(3, ts, GLine(ts).rest, GLine(ts).cmd)
    decreases |ts|, 3
  {
    hide Front;
    PipeRead(ts);
    var g := GPipe(ts);
    Rise(1, ts, g.rest, g.cmd);
    BackRead(ts, g.cmd, g.rest);
    var (cmd, more) := GBack(g.cmd, g.rest);
    if Next(more, ";") {
      LineRead(more[1..]);
      LineJoins(ts, cmd, more, GLine(more[1..]).cmd, GLine(more[1..]).rest);
    } else {
      Rise(2, ts, more, cmd);
    }
  }

  lemma LineJoins(ts: seq<Token>, l: Tree, mid: seq<Token>, r: Tree, rest: seq<Token>)
    requires Front(2, ts, mid, l) && Next(mid, ";") && Front(3, mid[1..], rest, r)
    ensures Front(3, ts, rest, Cmd.List(l, r))
  {
    hide Backs;
    var k := Cut(ts, mid, rest);
    assert Op(ts[..|ts| - |rest|], k, ';');
  }

  // ------------------------------------------------------- nothing is missed

  // What may come after a command, and after a pipe.
  predicate Ends(rest: seq<Token>) {
    rest == [] || Next(rest, "|)&;")
  }

  ghost predicate Reads2(all: seq<Token>, argc: nat, args: seq<Slice>, rs: seq<(Slice, Mode)>, rest: seq<Token>) {
    var h := GRedirs(all);
    && h.ROk? && var g := GArgs(h.rest, argc); g.AOk? && g.args == args && g.rest == rest && h.redirs + g.redirs == rs
  }

  lemma {:induction false} WordsParse(ts: seq<Token>, args: seq<Slice>, rs: seq<(Slice, Mode)>, rest: seq<Token>,
                                      argc: nat)
    requires Words(ts, args, rs) && argc + |args| < MAXARGS && Ends(rest)
    ensures Reads2(ts + rest, argc, args, rs, rest)
    decreases |ts|
  {
    hide Reads2;
    var all := ts + rest;
    if ts == [] {
      assert all == rest;
      NothingReads(rest, argc);
    } else if ts[0].kind == 'a' {
      assert all[1..] == ts[1..] + rest;
      WordsParse(ts[1..], args[1..], rs, rest, argc + 1);
      WordReads(all, argc, args, rs, rest);
    } else {
      assert all[2..] == ts[2..] + rest && all[1] == ts[1];
      WordsParse(ts[2..], args, rs[1..], rest, argc);
      RedirReads1(all, argc, args, rs, rest);
    }
  }

  lemma NothingReads(rest: seq<Token>, argc: nat)
    requires Ends(rest)
    ensures Reads2(rest, argc, [], [], rest)
  {
  }

  lemma WordReads(all: seq<Token>, argc: nat, args: seq<Slice>, rs: seq<(Slice, Mode)>, rest: seq<Token>)
    requires all != [] && all[0].kind == 'a' && args != [] && args[0] == Slice(all[0].lo, all[0].hi)
    requires argc + 1 < MAXARGS && Reads2(all[1..], argc + 1, args[1..], rs, rest)
    ensures Reads2(all, argc, args, rs, rest)
  {
    var h := GRedirs(all[1..]);
    var g := GArgs(h.rest, argc + 1);
    assert GRedirs(all) == ROk([], all);
    assert [args[0]] + args[1..] == args;
    assert GArgs(all, argc) == AOk(args, h.redirs + g.redirs, rest);
    assert [] + rs == rs;
  }

  lemma RedirReads1(all: seq<Token>, argc: nat, args: seq<Slice>, rs: seq<(Slice, Mode)>, rest: seq<Token>)
    requires |all| >= 2 && Next(all, "<>+") && all[1].kind == 'a' && rs != []
    requires rs[0] == (Slice(all[1].lo, all[1].hi), ModeOf(all[0].kind)) && Reads2(all[2..], argc, args, rs[1..], rest)
    ensures Reads2(all, argc, args, rs, rest)
  {
    hide GArgs;
    var h := GRedirs(all[2..]);
    assert GRedirs(all) == ROk([rs[0]] + h.redirs, h.rest);
    var g := GArgs(h.rest, argc);
    assert [rs[0]] + h.redirs + g.redirs == [rs[0]] + (h.redirs + g.redirs) == rs;
  }

  lemma NoArgs(ts: seq<Token>)
    requires GArgs(ts, 0).AOk? && GArgs(ts, 0).args == []
    ensures GArgs(ts, 0) == AOk([], [], ts)
  {
  }

  lemma RedirsParse(ts: seq<Token>, rs: seq<(Slice, Mode)>, rest: seq<Token>)
    requires Words(ts, [], rs) && Ends(rest)
    ensures GRedirs(ts + rest) == ROk(rs, rest)
  {
    hide GArgs, GRedirs, Words;
    WordsParse(ts, [], rs, rest, 0);
    var h := GRedirs(ts + rest);
    NoArgs(h.rest);
    assert h.redirs + [] == h.redirs;
  }

  lemma {:induction false} ExecParse(ts: seq<Token>, c: Tree, rest: seq<Token>)
    requires Execs(ts, c) && Ends(rest)
    ensures GExec(ts + rest) == Ok(c, rest)
    decreases |ts|, 0
  {
    hide Words, Wrapped, GRedirs, GArgs, GExec, GLine, After;
    if k: nat, d: Tree :|
       Op(ts, 0, '(') && 0 < k && Op(ts, k, ')') && Line(ts[1..k], d) && After(d, ts[k + 1..], c)
    {
      LineParse(ts[1..k], d, [ts[k]] + (ts[k + 1..] + rest));
      BlockParse(ts, k, d, c, rest);
    } else {
      var args: seq<Slice>, rs: seq<(Slice, Mode)> :| |args| <= 9 && Words(ts, args, rs) && Wrapped(Exec(args), rs, c);
      CommandParse(ts, args, rs, c, rest);
    }
  }

  lemma CommandParse(ts: seq<Token>, args: seq<Slice>, rs: seq<(Slice, Mode)>, c: Tree, rest: seq<Token>)
    requires |args| <= 9 && Words(ts, args, rs) && Wrapped(Exec(args), rs, c) && Ends(rest)
    ensures GExec(ts + rest) == Ok(c, rest)
  {
    hide Words, Wrapped, GRedirs, GArgs;
    WordsParse(ts, args, rs, rest, 0);
    WrappedIs(Exec(args), rs, c);
    NoBlock(ts, args, rs, rest);
  }

  lemma BlockParse(ts: seq<Token>, k: nat, d: Tree, c: Tree, rest: seq<Token>)
    requires Op(ts, 0, '(') && 0 < k && Op(ts, k, ')') && After(d, ts[k + 1..], c) && Ends(rest)
    requires var mid := [ts[k]] + (ts[k + 1..] + rest); GLine(ts[1..k] + mid) == Ok(d, mid)
    ensures GExec(ts + rest) == Ok(c, rest)
  {
    hide Words, Wrapped, GRedirs, GLine;
    var mid := [ts[k]] + (ts[k + 1..] + rest);
    assert (ts + rest)[1..] == ts[1..k] + mid;
    var rs: seq<(Slice, Mode)> :| Words(ts[k + 1..], [], rs) && Wrapped(d, rs, c);
    assert mid[1..] == ts[k + 1..] + rest;
    RedirsParse(ts[k + 1..], rs, rest);
    WrappedIs(d, rs, c);
  }

  lemma NoBlock(ts: seq<Token>, args: seq<Slice>, rs: seq<(Slice, Mode)>, rest: seq<Token>)
    requires Words(ts, args, rs) && Ends(rest)
    ensures !Next(ts + rest, "(")
  {
  }

  lemma {:induction false} PipeParse(ts: seq<Token>, c: Tree, rest: seq<Token>)
    requires Pipes(ts, c) && Ends(rest) && !Next(rest, "|")
    ensures GPipe(ts + rest) == Ok(c, rest)
    decreases |ts|, 1
  {
    hide Execs, GExec;
    if Execs(ts, c) {
      ExecParse(ts, c, rest);
    } else {
      var k: nat :| Op(ts, k, '|') && Execs(ts[..k], c.left) && Pipes(ts[k + 1..], c.right);
      var mid := [ts[k]] + (ts[k + 1..] + rest);
      assert ts + rest == ts[..k] + mid && mid[1..] == ts[k + 1..] + rest;
      ExecParse(ts[..k], c.left, mid);
      PipeParse(ts[k + 1..], c.right, rest);
    }
  }

  lemma {:induction false} BackParse(ts: seq<Token>, c: Tree, rest: seq<Token>)
    requires Backs(ts, c) && Ends(rest) && !Next(rest, "|")
    ensures var g := GPipe(ts + rest); g.Ok? && GBack(g.cmd, g.rest) == GBack(c, rest)
    decreases |ts|, 2
  {
    hide Pipes, GPipe;
    if Pipes(ts, c) {
      PipeParse(ts, c, rest);
    } else {
      var n := |ts| - 1;
      var mid := [ts[n]] + rest;
      assert ts + rest == ts[..n] + mid && mid[1..] == rest;
      BackParse(ts[..n], c.cmd, mid);
    }
  }

  lemma {:induction false} LineParse(ts: seq<Token>, c: Tree, rest: seq<Token>)
    requires Line(ts, c) && Closed(rest)
    ensures GLine(ts + rest) == Ok(c, rest)
    decreases |ts|, 3
  {
    hide Backs, GPipe;
    if Backs(ts, c) {
      BackParse(ts, c, rest);
    } else {
      var k: nat :| Op(ts, k, ';') && Backs(ts[..k], c.left) && Line(ts[k + 1..], c.right);
      var mid := [ts[k]] + (ts[k + 1..] + rest);
      assert ts + rest == ts[..k] + mid && mid[1..] == ts[k + 1..] + rest;
      BackParse(ts[..k], c.left, mid);
      LineParse(ts[k + 1..], c.right, rest);
    }
  }

  // -------------------------------------------------------------- characters

  // Space, tab, newline, vertical tab and carriage return.
  predicate Blank(c: char) {
    c as int == 32 || c as int == 9 || c as int == 10 || c as int == 11 || c as int == 13
  }

  predicate Mark(c: char) {
    c in "<|>&;()"
  }

  // ts are the tokens of b from s on: >> is one, every other symbol one by
  // itself, and a word goes on up to a blank, a symbol or the end.
  predicate Lexed(b: string, s: nat, ts: seq<Token>)
    requires s <= |b|
    decreases |ts|
  {
    if ts == [] then forall i :: s <= i < |b| ==> Blank(b[i])
    else
      var t := ts[0];
      && s <= t.lo < t.hi <= |b| && (forall i :: s <= i < t.lo ==> Blank(b[i])) && !Blank(b[t.lo])
      && (if b[t.lo] == '>' && t.lo + 1 < |b| && b[t.lo + 1] == '>' then t.kind == '+' && t.hi == t.lo + 2
          else if Mark(b[t.lo]) then t.kind == b[t.lo] && t.hi == t.lo + 1
          else t.kind == 'a' && InWord(b, t.lo, t.hi))
      && Lexed(b, t.hi, ts[1..])
  }

  predicate InWord(b: string, lo: nat, hi: nat)
    requires lo <= hi <= |b|
  {
    (forall i :: lo <= i < hi ==> !Blank(b[i]) && !Mark(b[i])) && (hi < |b| ==> Blank(b[hi]) || Mark(b[hi]))
  }

  lemma {:induction false} WordEnds(b: string, s: nat, hi: nat)
    requires s <= hi <= |b|
    ensures InWord(b, s, hi) <==> SkipWord(b, s) == hi
    decreases |b| - s
  {
    if s < |b| && WordChar(b[s]) && s < hi {
      WordEnds(b, s + 1, hi);
    }
  }

  lemma {:induction false} SkipIs(b: string, s: nat, i: nat)
    requires s <= i <= |b| && (forall j :: s <= j < i ==> White(b[j])) && (i < |b| ==> !White(b[i]))
    ensures SkipWhite(b, s) == i
    decreases i - s
  {
    if s < i {
      SkipIs(b, s + 1, i);
    }
  }

  lemma ScanIs(b: string, t: Token)
    requires t.lo < t.hi <= |b| && !Blank(b[t.lo])
    ensures (if b[t.lo] == '>' && t.lo + 1 < |b| && b[t.lo + 1] == '>' then t.kind == '+' && t.hi == t.lo + 2
             else if Mark(b[t.lo]) then t.kind == b[t.lo] && t.hi == t.lo + 1
             else t.kind == 'a' && InWord(b, t.lo, t.hi)) <==> t == Scan(b, t.lo)
  {
    WordEnds(b, t.lo + 1, t.hi);
  }

  lemma {:induction false} TokensAre(b: string, s: nat, ts: seq<Token>)
    requires s <= |b|
    ensures Lexed(b, s, ts) <==> ts == Tokens(b, s)
    decreases |b| - s
  {
    hide InWord, Scan, White, Blank;
    BlankIs();
    var i := SkipWhite(b, s);
    if ts != [] && s <= ts[0].lo < ts[0].hi <= |b| && !Blank(b[ts[0].lo]) {
      var t := ts[0];
      if forall j :: s <= j < t.lo ==> Blank(b[j]) {
        SkipIs(b, s, t.lo);
      }
      ScanIs(b, t);
      TokensAre(b, t.hi, ts[1..]);
      assert ts == [t] + ts[1..];
    }
  }

  lemma BlankIs()
    ensures forall c :: White(c) <==> Blank(c)
  {
  }

  // The parser gives a line a tree exactly when the grammar does, and that one.
  lemma ParseIs(b: string, c: Tree)
    ensures Parse(b) == Ok(c, []) <==> Line(Tokens(b, 0), c)
  {
    hide GLine, Line, Tokens;
    var ts := Tokens(b, 0);
    if Parse(b) == Ok(c, []) {
      LineRead(ts);
      assert ts[..|ts|] == ts;
    }
    if Line(ts, c) {
      LineParse(ts, c, []);
      assert ts + [] == ts;
    }
  }

  // So it does for the text itself, with the characters spelled out.
  lemma LineIs(b: string, c: Tree)
    ensures Parse(b) == Ok(c, []) <==> exists ts: seq<Token> :: Lexed(b, 0, ts) && Line(ts, c)
  {
    hide Line, Tokens, Lexed, Parse;
    ParseIs(b, c);
    TokensAre(b, 0, Tokens(b, 0));
    forall ts: seq<Token> | Lexed(b, 0, ts) ensures ts == Tokens(b, 0) {
      TokensAre(b, 0, ts);
    }
  }

  // It panics exactly when the grammar gives none.
  lemma PanicIs(b: string)
    ensures Parse(b) == Panic <==> forall c: Tree :: !Line(Tokens(b, 0), c)
  {
    hide Line, Tokens, GLine;
    forall c: Tree ensures Parse(b) == Ok(c, []) <==> Line(Tokens(b, 0), c) {
      ParseIs(b, c);
    }
    if Parse(b).Ok? {
      assert Line(Tokens(b, 0), Parse(b).cmd);
    }
  }
}

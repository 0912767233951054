// The regular-expression matcher and line filter of grep (user/grep.c), against
// the language its pattern denotes.
module Grep {

  // ------------------------------------------------- regular expressions

  datatype Rx = Empty | Chr(c: char) | Any | Cat(Rx, Rx) | Star(Rx)

  // w belongs to the language of r.
  ghost predicate In(r: Rx, w: string)
    decreases r, |w|
  {
    match r
    case Empty => w == ""
    case Chr(c) => w == [c]
    case Any => |w| == 1
    case Cat(a, b) => exists k :: 0 <= k <= |w| && In(a, w[..k]) && In(b, w[k..])
    case Star(a) => w == "" || exists k :: 0 < k <= |w| && In(a, w[..k]) && In(r, w[k..])
  }

  // What a pattern denotes: x* and . where the operator applies, every other
  // character itself; a last $ is an anchor and contributes nothing.
  function Atom(c: char): Rx {
    if c == '.' then Any else Chr(c)
  }

  function Body(re: string): Rx {
    if re == "" then Empty
    else if |re| >= 2 && re[1] == '*' then Cat(Star(Atom(re[0])), Body(re[2..]))
    else if re == "$" then Empty
    else Cat(Atom(re[0]), Body(re[1..]))
  }

  predicate Anchored(re: string) {
    if re == "" then false
    else if |re| >= 2 && re[1] == '*' then Anchored(re[2..])
    else if re == "$" then true
    else Anchored(re[1..])
  }

  // Some prefix of the text, all of it when the pattern ends in $, is in the
  // language.
  ghost predicate Here(re: string, text: string) {
    exists k :: Prefix(re, text, k)
  }

  ghost predicate Prefix(re: string, text: string, k: int) {
    0 <= k <= |text| && (Anchored(re) ==> k == |text|) && In(Body(re), text[..k])
  }

  // Some substring, or prefix after ^, is in the language.
  ghost predicate Matches(re: string, text: string) {
    if re != "" && re[0] == '^' then Here(re[1..], text)
    else exists i :: 0 <= i <= |text| && Here(re, text[i..])
  }

  // ------------------------------------------------------------ one step

  lemma HereEmpty(text: string)
    ensures Here("", text)
  {
    assert Prefix("", text, 0);
  }

  lemma HereEnd(text: string)
    ensures Here("$", text) <==> text == ""
  {
    if text == "" {
      assert Prefix("$", text, 0);
    }
  }

  lemma InAtom(c: char, w: string)
    ensures In(Atom(c), w) <==> |w| == 1 && (c == '.' || w[0] == c)
  {
  }

  lemma HereChar(re: string, text: string)
    requires re != "" && !(|re| >= 2 && re[1] == '*') && re != "$"
    ensures Here(re, text) <==> text != "" && (re[0] == '.' || re[0] == text[0]) && Here(re[1..], text[1..])
  {
    if Here(re, text) {
      var k :| Prefix(re, text, k);
      var w := text[..k];
      var j :| 0 <= j <= |w| && In(Atom(re[0]), w[..j]) && In(Body(re[1..]), w[j..]);
      InAtom(re[0], w[..j]);
      assert w[1..] == text[1..][..k - 1];
      assert Prefix(re[1..], text[1..], k - 1);
    }
    if text != "" && (re[0] == '.' || re[0] == text[0]) && Here(re[1..], text[1..]) {
      var k :| Prefix(re[1..], text[1..], k);
      var w := text[..k + 1];
      InAtom(re[0], w[..1]);
      assert w[1..] == text[1..][..k];
      assert In(Body(re), w);
      assert Prefix(re, text, k + 1);
    }
  }

  // c* followed by the rest of the pattern.
  ghost predicate StarHere(c: char, re: string, text: string) {
    exists k :: StarPrefix(c, re, text, k)
  }

  ghost predicate StarPrefix(c: char, re: string, text: string, k: int) {
    0 <= k <= |text| && (Anchored(re) ==> k == |text|) && In(Cat(Star(Atom(c)), Body(re)), text[..k])
  }

  lemma HereStar(re: string, text: string)
    requires |re| >= 2 && re[1] == '*'
    ensures Here(re, text) <==> StarHere(re[0], re[2..], text)
  {
    forall k: int
      ensures Prefix(re, text, k) <==> StarPrefix(re[0], re[2..], text, k)
    {
    }
  }

  // Either the star takes nothing, or it takes one character and goes on.
  lemma StarStep(c: char, re: string, text: string)
    ensures StarHere(c, re, text) <==>
      Here(re, text) || (text != "" && (text[0] == c || c == '.') && StarHere(c, re, text[1..]))
  {
    if StarHere(c, re, text) {
      var k :| StarPrefix(c, re, text, k);
      StarTakes(c, re, text, k);
    }
    if Here(re, text) {
      var k :| Prefix(re, text, k);
      var w := text[..k];
      assert w[..0] == "" && w[0..] == w;
      assert In(Star(Atom(c)), w[..0]);
      assert StarPrefix(c, re, text, k);
    }
    if text != "" && (text[0] == c || c == '.') && StarHere(c, re, text[1..]) {
      var k :| StarPrefix(c, re, text[1..], k);
      StarGrows(c, re, text, k);
    }
  }

  lemma StarTakes(c: char, re: string, text: string, k: int)
    requires StarPrefix(c, re, text, k)
    ensures Here(re, text) || (text != "" && (text[0] == c || c == '.') && StarHere(c, re, text[1..]))
  {
    var w := text[..k];
    var j :| 0 <= j <= |w| && In(Star(Atom(c)), w[..j]) && In(Body(re), w[j..]);
    if j == 0 {
      assert w[0..] == w;
      assert Prefix(re, text, k);
    } else {
      var s := w[..j];
      var i :| 0 < i <= |s| && In(Atom(c), s[..i]) && In(Star(Atom(c)), s[i..]);
      InAtom(c, s[..i]);
      var v := text[1..][..k - 1];
      assert v == w[1..] && v[..j - 1] == s[1..] && v[j - 1..] == w[j..];
      assert StarPrefix(c, re, text[1..], k - 1);
    }
  }

  lemma StarGrows(c: char, re: string, text: string, k: int)
    requires text != "" && (text[0] == c || c == '.') && StarPrefix(c, re, text[1..], k)
    ensures StarHere(c, re, text)
  {
    var v := text[1..][..k];
    var j :| 0 <= j <= |v| && In(Star(Atom(c)), v[..j]) && In(Body(re), v[j..]);
    var w := text[..k + 1];
    var s := w[..j + 1];
    InAtom(c, s[..1]);
    assert w[1..] == v;
    assert s[1..] == w[1..][..j] && w[j + 1..] == w[1..][j..];
    assert In(Star(Atom(c)), s);
    assert StarPrefix(c, re, text, k + 1);
  }

  // ------------------------------------------------------------ the matcher

  method MatchHere(re: string, text: string) returns (b: bool)
    ensures b <==> Here(re, text)
    decreases |re|, 0
  {
    if re == "" {
      HereEmpty(text);
      return true;
    }
    if |re| >= 2 && re[1] == '*' {
      HereStar(re, text);
      b := MatchStar(re[0], re[2..], text);
      return;
    }
    if re[0] == '$' && |re| == 1 {
      assert re == "$";
      HereEnd(text);
      return text == "";
    }
    HereChar(re, text);
    if text != "" && (re[0] == '.' || re[0] == text[0]) {
      b := MatchHere(re[1..], text[1..]);
      return;
    }
    return false;
  }

  method MatchStar(c: char, re: string, text: string) returns (b: bool)
    ensures b <==> StarHere(c, re, text)
    decreases |re|, 1
  {
    var t := text;
    while true
      invariant StarHere(c, re, text) <==> StarHere(c, re, t)
      decreases |t|
    {
      StarStep(c, re, t);
      var here := MatchHere(re, t);
      if here {
        return true;
      }
      if !(t != "" && (t[0] == c || c == '.')) {
        return false;
      }
      t := t[1..];
    }
  }

  method Match(re: string, text: string) returns (b: bool)
    ensures b <==> Matches(re, text)
  {
    if re != "" && re[0] == '^' {
      b := MatchHere(re[1..], text);
      return;
    }
    var i := 0;
    while true
      invariant 0 <= i <= |text|
      invariant forall j :: 0 <= j < i ==> !Here(re, text[j..])
      decreases |text| - i
    {
      var here := MatchHere(re, text[i..]);
      if here {
        return true;
      }
      if i == |text| {
        return false;
      }
      i := i + 1;
    }
  }

  // -------------------------------------------------------- the line filter

  const SIZE: nat := 1024

  // Where strchr stops: at the first newline of s, or at a NUL before it.
  function LineEnd(s: string): (n: nat)
    ensures n <= |s| && (n < |s| ==> s[n] == '\n' || s[n] == '\0')
    ensures forall i :: 0 <= i < n ==> s[i] != '\n' && s[i] != '\0'
  {
    if s == "" || s[0] == '\n' || s[0] == '\0' then 0 else 1 + LineEnd(s[1..])
  }

  // strchr finds no newline.
  predicate Stuck(s: string) {
    LineEnd(s) == |s| || s[LineEnd(s)] == '\0'
  }

  // Where it stops in s + t.
  lemma {:induction false} LineEndAppend(s: string, t: string)
    ensures LineEnd(s + t) == if LineEnd(s) < |s| then LineEnd(s) else |s| + LineEnd(t)
  {
    if s == "" {
      assert s + t == t;
    } else {
      assert (s + t)[0] == s[0] && (s + t)[1..] == s[1..] + t;
      if s[0] != '\n' && s[0] != '\0' {
        LineEndAppend(s[1..], t);
      }
    }
  }

  // The terminated lines that match, up to the first line that does not fit the
  // buffer with its newline, or holds a NUL.
  ghost function Filter(re: string, s: string): string
    decreases |s|
  {
    var n := LineEnd(s);
    if Stuck(s) || n >= SIZE - 1 then ""
    else (if Matches(re, s[..n]) then s[..n + 1] else "") + Filter(re, s[n + 1..])
  }

  // --------------------------------------------- the lines grep should print

  // The first newline of s, or |s|.
  function Newline(s: string): (n: nat)
    ensures n <= |s| && (n < |s| ==> s[n] == '\n') && '\n' !in s[..n]
  {
    if s == "" || s[0] == '\n' then 0 else 1 + Newline(s[1..])
  }

  // The lines of a file; the last one may lack its newline.
  function Lines(s: string): seq<string> {
    if s == "" then []
    else if Newline(s) == |s| then [s]
    else [s[..Newline(s)]] + Lines(s[Newline(s) + 1..])
  }

  // Each line that matches, with a newline.
  ghost function Selected(re: string, lines: seq<string>): string {
    if lines == [] then ""
    else (if Matches(re, lines[0]) then lines[0] + "\n" else "") + Selected(re, lines[1..])
  }

  // Line i ends in a newline, has fewer than SIZE - 1 characters and no NUL.
  predicate Fits(s: string, i: nat)
    requires i < |Lines(s)|
  {
    && |Lines(s)[i]| < SIZE - 1 && '\0' !in Lines(s)[i]
    && (i == |Lines(s)| - 1 ==> s[|s| - 1] == '\n')
  }

  // Line i, or one before it, does not fit.
  ghost predicate Lost(s: string, i: nat)
    requires i < |Lines(s)|
  {
    exists j: nat :: j <= i && !Fits(s, j)
  }

  function Joined(lines: seq<string>): string {
    if lines == [] then "" else lines[0] + "\n" + Joined(lines[1..])
  }

  // A file is its lines, each with a newline except perhaps the last.
  lemma {:induction false} LinesJoin(s: string)
    ensures forall l :: l in Lines(s) ==> '\n' !in l
    ensures Joined(Lines(s)) == if s == "" || s[|s| - 1] == '\n' then s else s + "\n"
    decreases |s|
  {
    hide Newline;
    var n := Newline(s);
    if s != "" && n < |s| {
      var rest := s[n + 1..];
      LinesJoin(rest);
      MoreLines(s);
      FirstAndRest(s, n);
    }
  }

  lemma MoreLines(s: string)
    requires s != "" && Newline(s) < |s|
    ensures Lines(s) == [s[..Newline(s)]] + Lines(s[Newline(s) + 1..])
    ensures Lines(s)[1..] == Lines(s[Newline(s) + 1..])
  {
    hide Newline;
    var first, more := s[..Newline(s)], Lines(s[Newline(s) + 1..]);
    assert Lines(s) == [first] + more;
    assert ([first] + more)[1..] == more;
  }

  lemma FirstAndRest(s: string, n: nat)
    requires n < |s| && s[n] == '\n'
    ensures s == s[..n] + "\n" + s[n + 1..]
    ensures s[n + 1..] == "" || s[n + 1..][|s[n + 1..]| - 1] == s[|s| - 1]
  {
  }

  // No lost line matches.
  ghost predicate Silent(re: string, s: string) {
    forall i: nat :: i < |Lines(s)| && Lost(s, i) ==> !Matches(re, Lines(s)[i])
  }

  // grep prints what it should if and only if no line matches from the first on
  // that does not fit.
  lemma {:induction false} GrepRightIff(re: string, s: string)
    ensures Filter(re, s) == Selected(re, Lines(s)) <==> Silent(re, s)
    decreases |s|
  {
    hide Matches, LineEnd, Newline, Silent, Fits, Filter, Selected, Lines, Stuck;
    if s == "" {
      NothingPrinted(re, s);
    } else {
      FirstLine(s);
      if Fits(s, 0) {
        var n := LineEnd(s);
        GrepRightIff(re, s[n + 1..]);
        SilentMore(re, s);
        var first := FirstPrinted(re, s);
        Cancel(first, Filter(re, s[n + 1..]), Selected(re, Lines(s[n + 1..])));
      } else {
        SilentAll(re, s);
        NothingPrinted(re, s);
      }
    }
  }

  lemma NothingPrinted(re: string, s: string)
    requires s == "" || Stuck(s) || LineEnd(s) >= SIZE - 1
    ensures Filter(re, s) == "" && (s == "" ==> Selected(re, Lines(s)) == "" && Silent(re, s))
  {
  }

  lemma FirstPrinted(re: string, s: string) returns (first: string)
    requires s != "" && !Stuck(s) && LineEnd(s) < SIZE - 1 && Newline(s) == LineEnd(s)
    ensures Filter(re, s) == first + Filter(re, s[LineEnd(s) + 1..])
    ensures Selected(re, Lines(s)) == first + Selected(re, Lines(s[LineEnd(s) + 1..]))
  {
    hide Matches, Newline;
    var n := LineEnd(s);
    MoreLines(s);
    assert s[..n] + "\n" == s[..n + 1];
    first := if Matches(re, s[..n]) then s[..n + 1] else "";
  }

  lemma Cancel(a: string, b: string, c: string)
    ensures a + b == a + c <==> b == c
  {
    if a + b == a + c {
      assert b == (a + b)[|a|..] && c == (a + c)[|a|..];
    }
  }

  lemma SilentAll(re: string, s: string)
    requires s != "" && !Fits(s, 0)
    ensures Silent(re, s) <==> Selected(re, Lines(s)) == ""
  {
    hide Matches, Fits;
    assert forall i: nat {:trigger Lost(s, i)} :: i < |Lines(s)| ==> Lost(s, i);
    SelectedNone(re, Lines(s));
  }

  lemma SilentMore(re: string, s: string)
    requires s != "" && Newline(s) < |s| && Fits(s, 0)
    ensures Silent(re, s) <==> Silent(re, s[Newline(s) + 1..])
  {
    hide Matches, Lost, Newline, Lines;
    var rest := s[Newline(s) + 1..];
    MoreLines(s);
    NotLost(s);
    if Silent(re, rest) {
      forall i: nat | i < |Lines(s)| && Lost(s, i) ensures !Matches(re, Lines(s)[i]) {
        LostLater(s, i - 1);
      }
    }
    if Silent(re, s) {
      forall i: nat | i < |Lines(rest)| && Lost(rest, i) ensures !Matches(re, Lines(rest)[i]) {
        LostLater(s, i);
      }
    }
  }

  lemma NotLost(s: string)
    requires s != "" && Fits(s, 0)
    ensures !Lost(s, 0)
  {
  }

  // The first line fits exactly when strchr finds its newline early enough.
  lemma FirstLine(s: string)
    requires s != ""
    ensures Lines(s) != [] && (Fits(s, 0) <==> !Stuck(s) && LineEnd(s) < SIZE - 1)
    ensures !Stuck(s) ==> Newline(s) == LineEnd(s) < |s|
  {
    StuckNewline(s);
    if Newline(s) < |s| {
      assert s[..Newline(s)] == Lines(s)[0];
    }
  }

  lemma {:induction false} StuckNewline(s: string)
    ensures Stuck(s) <==> Newline(s) == |s| || '\0' in s[..Newline(s)]
    ensures !Stuck(s) ==> Newline(s) == LineEnd(s) < |s|
  {
    if s != "" && s[0] != '\n' && s[0] != '\0' {
      StuckNewline(s[1..]);
      assert s[..Newline(s)] == s[..1] + s[1..][..Newline(s[1..])];
    }
  }

  lemma LostLater(s: string, i: nat)
    requires s != "" && Fits(s, 0) && Newline(s) < |s| && i < |Lines(s[Newline(s) + 1..])|
    ensures |Lines(s)| == 1 + |Lines(s[Newline(s) + 1..])| && Lines(s)[i + 1] == Lines(s[Newline(s) + 1..])[i]
    ensures Lost(s, i + 1) <==> Lost(s[Newline(s) + 1..], i)
  {
    hide Newline, Fits;
    var rest := s[Newline(s) + 1..];
    MoreLines(s);
    assert Lines(s)[i + 1] == Lines(s)[1..][i];
    if Lost(s, i + 1) {
      var j: nat :| j <= i + 1 && !Fits(s, j);
      FitsLater(s, j - 1);
    }
    if Lost(rest, i) {
      var j: nat :| j <= i && !Fits(rest, j);
      FitsLater(s, j);
      assert !Fits(s, j + 1);
    }
  }

  lemma FitsLater(s: string, i: nat)
    requires s != "" && Newline(s) < |s| && i < |Lines(s[Newline(s) + 1..])|
    ensures i + 1 < |Lines(s)| && (Fits(s, i + 1) <==> Fits(s[Newline(s) + 1..], i))
  {
    hide Newline;
    MoreLines(s);
    assert Lines(s)[i + 1] == Lines(s)[1..][i];
  }

  lemma {:induction false} SelectedNone(re: string, lines: seq<string>)
    ensures Selected(re, lines) == "" <==> forall i: nat :: i < |lines| ==> !Matches(re, lines[i])
  {
    hide Matches;
    if lines != [] {
      SelectedNone(re, lines[1..]);
      assert forall i: nat :: 0 < i < |lines| ==> lines[i] == lines[1..][i - 1];
      assert forall i: nat :: i < |lines[1..]| ==> lines[1..][i] == lines[i + 1];
    }
  }

  // grep is right for every pattern if and only if every line ends in a
  // newline, has at most 1022 characters, and no NUL.
  lemma GrepRightForAll(s: string)
    ensures (forall re :: Filter(re, s) == Selected(re, Lines(s))) <==> forall i: nat :: i < |Lines(s)| ==> Fits(s, i)
  {
    hide Matches, Filter, Selected, Lines, Fits;
    if i: nat :| i < |Lines(s)| && !Fits(s, i) {
      GrepRightIff("", s);
      assert Lost(s, i);
      EmptyMatches(Lines(s)[i]);
    } else {
      forall re ensures Filter(re, s) == Selected(re, Lines(s)) {
        GrepRightIff(re, s);
      }
    }
  }

  lemma EmptyMatches(text: string)
    ensures Matches("", text)
  {
    HereEmpty(text);
    assert text[0..] == text;
  }

  // A last line without a newline is lost.
  lemma LosesLastLine()
    ensures Filter("a", "ba") == "" && Selected("a", Lines("ba")) == "ba\n"
  {
    assert "ba"[..] == "ba" && Newline("ba") == 2 by {
      assert "ba"[1..] == "a" && "a"[1..] == "";
    }
    assert "ba"[1..] == "a";
    assert In(Atom('a'), "a");
    assert "a"[..1] == "a" && "a"[1..] == "";
    assert In(Body("a"), "a") by {
      assert "a"[1..] == "" && Body("") == Empty;
      assert In(Cat(Atom('a'), Empty), "a");
    }
    assert Prefix("a", "a", 1);
    assert Here("a", "ba"[1..]);
    assert Matches("a", "ba");
  }

  // A file being read: each read returns any positive number of the bytes left,
  // up to the number asked for, and nothing only at the end or when asked for none.
  class Reader {
    var rest: string

    constructor (s: string)
      ensures rest == s
    {
      rest := s;
    }

    method Read(buf: array<char>, off: nat, n: nat) returns (k: nat)
      requires off + n <= buf.Length
      modifies this, buf
      ensures k <= n && k <= |old(rest)| && rest == old(rest)[k..]
      ensures k == 0 <==> n == 0 || old(rest) == ""
      ensures forall i :: 0 <= i < buf.Length ==> buf[i] == if off <= i < off + k then old(rest)[i - off]
              else old(buf[i])
    {
      k := 0;
      if n > 0 && rest != "" {
        var m: nat :| 0 < m <= n && m <= |rest|;
        k := m;
      }
      forall i | 0 <= i < k {
        buf[off + i] := rest[i];
      }
      rest := rest[k..];
    }
  }

  // strchr(buf + p, '\n') over the m bytes read, which a NUL follows.
  method FindNewline(buf: array<char>, p: nat, m: nat) returns (q: nat)
    requires p <= m <= buf.Length
    ensures q == p + LineEnd(buf[p..m]) && (Stuck(buf[p..m]) <==> q == m || buf[q] == '\0')
  {
    q := p;
    while q < m
      invariant p <= q <= m && LineEnd(buf[p..m]) == q - p + LineEnd(buf[q..m])
    {
      if buf[q] == '\n' || buf[q] == '\0' {
        return;
      }
      assert buf[q..m][1..] == buf[q + 1..m];
      q := q + 1;
    }
  }

  // One line of the buffer: p and q are its two ends.
  method FilterOne(re: string, buf: array<char>, p: nat, q: nat, m: nat) returns (out: string)
    requires p <= q < m <= buf.Length && buf[q] == '\n'
    modifies buf
    ensures buf[q + 1..m] == old(buf[q + 1..m])
    ensures out == if Matches(re, old(buf[p..q])) then old(buf[p..q + 1]) else ""
  {
    hide Matches;
    out := "";
    ghost var line := buf[p..q];
    buf[q] := '\0';
    assert buf[p..q] == line;
    var hit := Match(re, buf[p..q]);
    if hit {
      buf[q] := '\n';
      out := buf[p..q + 1];
    }
  }

  // The same, as a step of the whole filter.
  method FilterNext(re: string, buf: array<char>, p: nat, q: nat, m: nat, ghost rest: string) returns (line: string)
    requires p <= q < m < SIZE == buf.Length && q == p + LineEnd(buf[p..m]) && !Stuck(buf[p..m])
    modifies buf
    ensures Filter(re, old(buf[p..m]) + rest) == line + Filter(re, buf[q + 1..m] + rest)
  {
    hide Filter, Matches, LineEnd;
    ghost var left, s := buf[p..m], buf[..];
    FilterLine(re, left, rest, q - p);
    Subslice(s, p, q, m);
    assert left == s[p..m] && buf[p..q] == s[p..q];
    assert buf[p..q + 1] == s[p..q + 1] && buf[q + 1..m] == s[q + 1..m];
    line := FilterOne(re, buf, p, q, m);
  }

  // The lines of the buffer up to the last newline, or up to a NUL, are
  // filtered; p is where the unfinished line starts.
  method FilterBuffer(re: string, buf: array<char>, m: nat, ghost rest: string) returns (out: string, p: nat)
    requires m < SIZE == buf.Length
    modifies buf
    ensures p <= m && Stuck(buf[p..m])
    ensures Filter(re, old(buf[..m]) + rest) == out + Filter(re, buf[p..m] + rest)
  {
    hide Filter, Matches, LineEnd, Stuck;
    ghost var s := buf[..m];
    buf[m] := '\0';
    p, out := 0, "";
    assert buf[0..m] == s;
    var q := FindNewline(buf, p, m);
    while q < m && buf[q] != '\0'
      invariant p <= q <= m && q == p + LineEnd(buf[p..m]) && (Stuck(buf[p..m]) <==> q == m || buf[q] == '\0')
      invariant Filter(re, s + rest) == out + Filter(re, buf[p..m] + rest)
      decreases m - p
    {
      var line := FilterNext(re, buf, p, q, m, rest);
      out := out + line;
      p := q + 1;
      q := FindNewline(buf, p, m);
    }
  }

  lemma FilterLine(re: string, s: string, rest: string, n: nat)
    requires n == LineEnd(s) && !Stuck(s) && |s| < SIZE
    ensures Filter(re, s + rest) == (if Matches(re, s[..n]) then s[..n + 1] else "") + Filter(re, s[n + 1..] + rest)
  {
    hide Matches, LineEnd;
    LineEndAppend(s, rest);
    TakeAppend(s, rest, n);
    TakeAppend(s, rest, n + 1);
  }

  lemma TakeAppend(s: string, t: string, n: nat)
    requires n <= |s|
    ensures (s + t)[..n] == s[..n] && (s + t)[n..] == s[n..] + t
  {
  }

  lemma Subslice(s: string, p: nat, q: nat, m: nat)
    requires p <= q < m <= |s|
    ensures s[p..m][..q - p] == s[p..q] && s[p..m][..q - p + 1] == s[p..q + 1]
    ensures s[p..m][q - p + 1..] == s[q + 1..m] && s[p..m][q - p] == s[q]
  {
  }

  // memmove(buf, buf + p, m)
  method Shift(buf: array<char>, p: nat, m: nat)
    requires p + m <= buf.Length
    modifies buf
    ensures buf[..m] == old(buf[p..p + m])
  {
    forall i | 0 <= i < m {
      buf[i] := buf[p + i];
    }
  }

  lemma FilterNothing(re: string, s: string, rest: string)
    requires Stuck(s) && (rest == "" || |s| >= SIZE - 1)
    ensures Filter(re, s + rest) == ""
  {
    LineEndAppend(s, rest);
  }

  // grep: whatever sizes the reads return, the output is the matching lines.
  method Run(re: string, r: Reader) returns (out: string)
    modifies r
    ensures out == Filter(re, old(r.rest))
  {
    hide Filter, Matches, LineEnd, Stuck;
    var buf := new char[SIZE];
    var m: nat := 0;
    out := "";
    assert buf[..m] + r.rest == r.rest;
    NoLine();
    while true
      modifies r, buf
      invariant m < SIZE && Stuck(buf[..m])
      invariant Filter(re, old(r.rest)) == out + Filter(re, buf[..m] + r.rest)
      decreases |r.rest|
    {
      ghost var rest, was := r.rest, buf[..m];
      var n := r.Read(buf, m, SIZE - m - 1);
      if n == 0 {
        FilterNothing(re, was, rest);
        return;
      }
      assert buf[..m + n] == was + rest[..n];
      assert buf[..m + n] + r.rest == was + rest by {
        assert rest == rest[..n] + r.rest;
      }
      m := m + n;
      var o, p := FilterBuffer(re, buf, m, r.rest);
      out := out + o;
      Shift(buf, p, m - p);
      m := m - p;
    }
  }

  lemma NoLine()
    ensures Stuck("")
  {
  }
}

// What the patterns of grep mean, in plain words: literal characters, dots, the
// two anchors, and a starred character at the end.
module Patterns {
  import opened Grep

  // A pattern without operators other than the dot.
  predicate Simple(w: string) {
    forall i :: 0 <= i < |w| ==> w[i] != '*' && w[i] != '$' && w[i] != '^'
  }

  // Character by character the same, a dot standing for any.
  predicate Like(w: string, v: string) {
    |v| == |w| && forall i :: 0 <= i < |w| ==> w[i] == '.' || v[i] == w[i]
  }

  // After w the pattern goes on with tail, which does not begin with a star.
  lemma {:induction false} SimpleThen(w: string, tail: string, v: string)
    requires Simple(w) && (tail != "" ==> tail[0] != '*')
    ensures In(Body(w + tail), v) <==> |w| <= |v| && Like(w, v[..|w|]) && In(Body(tail), v[|w|..])
    ensures Anchored(w + tail) == Anchored(tail)
    decreases |w|
  {
    var re := w + tail;
    if w == "" {
      assert re == tail && v[0..] == v;
    } else {
      assert re[1..] == w[1..] + tail && re[0] == w[0] && Simple(w[1..]);
      if |re| >= 2 {
        assert re[1] == if |w| > 1 then w[1] else tail[0];
        assert re[1] != '*';
      }
      assert Body(re) == Cat(Atom(re[0]), Body(re[1..]));
      if v != "" {
        SimpleThen(w[1..], tail, v[1..]);
        FirstLike(w, tail, v);
      } else {
        SimpleThen(w[1..], tail, v);
        AtomOne(w[0], Body(re[1..]), v);
      }
    }
  }

  // An atom takes one character, which it is like.
  lemma AtomOne(c: char, r: Rx, v: string)
    ensures In(Cat(Atom(c), r), v) <==> v != "" && (c == '.' || v[0] == c) && In(r, v[1..])
  {
    if In(Cat(Atom(c), r), v) {
      var k :| 0 <= k <= |v| && In(Atom(c), v[..k]) && In(r, v[k..]);
      assert k == 1;
    }
    if v != "" {
      assert v[..1] == [v[0]];
    }
  }

  lemma FirstLike(w: string, tail: string, v: string)
    requires w != "" && v != "" && Body(w + tail) == Cat(Atom(w[0]), Body(w[1..] + tail))
    requires In(Body(w[1..] + tail), v[1..]) <==>
               |w| - 1 <= |v| - 1 && Like(w[1..], v[1..][..|w| - 1]) && In(Body(tail), v[1..][|w| - 1..])
    ensures In(Body(w + tail), v) <==> |w| <= |v| && Like(w, v[..|w|]) && In(Body(tail), v[|w|..])
  {
    hide Like, Body, In;
    AtomOne(w[0], Body(w[1..] + tail), v);
    if |w| <= |v| {
      SliceTail(v, |w|);
      LikeFirst(w, v[..|w|]);
    }
  }

  lemma SliceTail(v: string, n: nat)
    requires 0 < n <= |v|
    ensures v[1..][n - 1..] == v[n..] && v[..n][1..] == v[1..][..n - 1] && v[..n][0] == v[0]
  {
  }

  lemma LikeFirst(w: string, v: string)
    requires w != "" && |v| == |w|
    ensures Like(w, v) <==> (w[0] == '.' || v[0] == w[0]) && Like(w[1..], v[1..])
  {
    if Like(w[1..], v[1..]) && (w[0] == '.' || v[0] == w[0]) {
      forall i | 0 <= i < |w| ensures w[i] == '.' || v[i] == w[i] {
        if i > 0 {
          assert w[1..][i - 1] == '.' || v[1..][i - 1] == w[1..][i - 1];
        }
      }
    }
  }

  lemma SimpleIs(w: string, v: string)
    requires Simple(w)
    ensures In(Body(w), v) <==> Like(w, v)
    ensures In(Body(w + "$"), v) <==> Like(w, v)
    ensures !Anchored(w) && Anchored(w + "$")
  {
    SimpleThen(w, "", v);
    SimpleThen(w, "$", v);
    assert w + "" == w;
    if |w| <= |v| {
      assert v[|w|..] == "" <==> v[..|w|] == v;
    }
  }

  // Without anchors: the pattern is like some stretch of the text.
  lemma SearchIs(w: string, text: string)
    requires Simple(w)
    ensures Matches(w, text) <==> exists i: nat, j: nat :: i <= j <= |text| && Like(w, text[i..j])
  {
    hide Body, In, Anchored, Like;
    forall v: string ensures In(Body(w), v) <==> Like(w, v) {
      SimpleIs(w, v);
    }
    SimpleIs(w, "");
    NoHat(w);
    if Matches(w, text) {
      var i :| 0 <= i <= |text| && Here(w, text[i..]);
      var k :| Prefix(w, text[i..], k);
      assert text[i..][..k] == text[i..i + k];
    }
    forall i: nat, j: nat | i <= j <= |text| && Like(w, text[i..j]) ensures Matches(w, text) {
      assert text[i..][..j - i] == text[i..j];
      assert Prefix(w, text[i..], j - i);
      assert Here(w, text[i..]);
    }
  }

  lemma NoHat(w: string)
    requires Simple(w)
    ensures w != "" ==> w[0] != '^' && (w + "$")[0] != '^'
  {
    if w != "" {
      assert w[0] != '^';
    }
  }

  // After ^: the text begins with it.
  lemma StartIs(w: string, text: string)
    requires Simple(w)
    ensures Matches("^" + w, text) <==> |w| <= |text| && Like(w, text[..|w|])
  {
    hide Body, In, Anchored;
    assert ("^" + w)[1..] == w;
    forall v: string ensures In(Body(w), v) <==> Like(w, v) {
      SimpleIs(w, v);
    }
    SimpleIs(w, "");
    if |w| <= |text| && Like(w, text[..|w|]) {
      assert Prefix(w, text, |w|);
    }
  }

  // Before $: the text ends with it.
  lemma EndIs(w: string, text: string)
    requires Simple(w)
    ensures Matches(w + "$", text) <==> |w| <= |text| && Like(w, text[|text| - |w|..])
  {
    hide Body, In, Anchored;
    forall v: string ensures In(Body(w + "$"), v) <==> Like(w, v) {
      SimpleIs(w, v);
    }
    SimpleIs(w, "");
    NoHat(w);
    assert (w + "$")[0] != '^';
    if Matches(w + "$", text) {
      var i :| 0 <= i <= |text| && Here(w + "$", text[i..]);
      var k :| Prefix(w + "$", text[i..], k);
      assert text[i..][..k] == text[i..];
    }
    if |w| <= |text| && Like(w, text[|text| - |w|..]) {
      var i := |text| - |w|;
      assert text[i..][..|w|] == text[i..];
      assert Prefix(w + "$", text[i..], |w|);
      assert Here(w + "$", text[i..]);
    }
  }

  // Between them: the text is like it.
  lemma WholeIs(w: string, text: string)
    requires Simple(w)
    ensures Matches("^" + w + "$", text) <==> Like(w, text)
  {
    hide Body, In, Anchored;
    assert ("^" + w + "$")[1..] == w + "$";
    SimpleIs(w, text);
    assert text[..|text|] == text;
    if Like(w, text) {
      assert Prefix(w + "$", text, |text|);
    }
  }

  // A starred character at the end of a pattern that must match the whole text
  // stands for any number of its like.
  lemma StarIs(w: string, c: char, text: string)
    requires Simple(w) && c != '*' && c != '$' && c != '^'
    ensures Matches("^" + w + [c] + "*$", text) <==>
      |w| <= |text| && Like(w, text[..|w|]) && forall i :: |w| <= i < |text| ==> c == '.' || text[i] == c
  {
    hide In, Like;
    var re, tail := w + [c] + "*$", [c] + "*$";
    assert ("^" + w + [c] + "*$")[1..] == re && re == w + tail;
    SimpleThen(w, tail, text);
    assert tail[2..] == "$" && Anchored(tail) && Body(tail) == Cat(Star(Atom(c)), Empty);
    assert text[..|text|] == text;
    if |w| <= |text| {
      StarTail(c, text[|w|..]);
      assert (forall i :: |w| <= i < |text| ==> c == '.' || text[i] == c) <==>
             (forall i :: 0 <= i < |text| - |w| ==> c == '.' || text[|w|..][i] == c) by {
        forall i | |w| <= i < |text| ensures text[i] == text[|w|..][i - |w|] {}
      }
    }
    if In(Body(re), text) {
      assert Prefix(re, text, |text|);
    }
  }

  lemma StarTail(c: char, v: string)
    ensures In(Cat(Star(Atom(c)), Empty), v) <==> forall i :: 0 <= i < |v| ==> c == '.' || v[i] == c
  {
    StarAll(c, v);
    assert v[..|v|] == v && v[|v|..] == "";
    if In(Cat(Star(Atom(c)), Empty), v) {
      var k :| 0 <= k <= |v| && In(Star(Atom(c)), v[..k]) && In(Empty, v[k..]);
      assert v[..k] == v;
    }
  }

  lemma {:induction false} StarAll(c: char, v: string)
    ensures In(Star(Atom(c)), v) <==> forall i :: 0 <= i < |v| ==> c == '.' || v[i] == c
    decreases |v|
  {
    if v != "" {
      StarAll(c, v[1..]);
      assert v[..1] == [v[0]];
      if In(Star(Atom(c)), v) {
        var k :| 0 < k <= |v| && In(Atom(c), v[..k]) && In(Star(Atom(c)), v[k..]);
        assert k == 1;
        forall i | 0 <= i < |v| ensures c == '.' || v[i] == c {
          assert i > 0 ==> v[1..][i - 1] == v[i];
        }
      }
      if forall i :: 0 <= i < |v| ==> c == '.' || v[i] == c {
        assert In(Atom(c), v[..1]) && In(Star(Atom(c)), v[1..]);
      }
    }
  }
}

// Raw memory: bytes, and little-endian numbers stored in them at an offset.
// Disk blocks and physical pages are byte sequences; header fields, block
// numbers and page-table entries are read and written through Get and Put.
module Bytes {

  type Byte = x: int | 0 <= x < 256

  function Pow256(k: nat): (r: nat)
    ensures r > 0
  {
    if k == 0 then 1 else 256 * Pow256(k - 1)
  }

  function Zeros(n: nat): (s: seq<Byte>)
    ensures |s| == n && forall i :: 0 <= i < n ==> s[i] == 0
  {
    seq(n, _ => 0)
  }

  // The k low-order bytes of v, least significant first.
  function Encode(v: nat, k: nat): (s: seq<Byte>)
    ensures |s| == k
  {
    if k == 0 then [] else [v % 256] + Encode(v / 256, k - 1)
  }

  function Decode(s: seq<Byte>): nat {
    if s == [] then 0 else s[0] + 256 * Decode(s[1..])
  }

  lemma {:induction false} DecodeEncode(v: nat, k: nat)
    requires v < Pow256(k)
    ensures Decode(Encode(v, k)) == v
  {
    if k != 0 {
      DecodeEncode(v / 256, k - 1);
      assert Encode(v, k)[1..] == Encode(v / 256, k - 1);
    }
  }

  lemma {:induction false} DecodeZeros(s: seq<Byte>)
    requires forall i :: 0 <= i < |s| ==> s[i] == 0
    ensures Decode(s) == 0
  {
    if s != [] {
      DecodeZeros(s[1..]);
    }
  }

  // s with the bytes from off on replaced by v.
  function Splice<T>(s: seq<T>, off: nat, v: seq<T>): (r: seq<T>)
    requires off + |v| <= |s|
    ensures |r| == |s|
    ensures forall i :: 0 <= i < |s| ==> r[i] == if off <= i < off + |v| then v[i - off] else s[i]
  {
    s[..off] + v + s[off + |v|..]
  }

  function Get(s: seq<Byte>, off: nat, k: nat): nat
    requires off + k <= |s|
  {
    Decode(s[off..off + k])
  }

  function Put(s: seq<Byte>, off: nat, k: nat, v: nat): (r: seq<Byte>)
    requires off + k <= |s|
    ensures |r| == |s|
  {
    Splice(s, off, Encode(v, k))
  }

  lemma GetPut(s: seq<Byte>, off: nat, k: nat, v: nat)
    requires off + k <= |s| && v < Pow256(k)
    ensures Get(Put(s, off, k, v), off, k) == v
  {
    DecodeEncode(v, k);
    assert Put(s, off, k, v)[off..off + k] == Encode(v, k);
  }

  lemma GetPutOther(s: seq<Byte>, off: nat, k: nat, v: nat, off': nat, k': nat)
    requires off + k <= |s| && off' + k' <= |s|
    requires off' + k' <= off || off + k <= off'
    ensures Get(Put(s, off, k, v), off', k') == Get(s, off', k')
  {
    assert Put(s, off, k, v)[off'..off' + k'] == s[off'..off' + k'];
  }

  // Arrays of 4-byte and 8-byte numbers.
  function Word(s: seq<Byte>, i: nat): nat
    requires 4 * i + 4 <= |s|
  {
    Get(s, 4 * i, 4)
  }

  // A word is four bytes, least significant first.
  lemma WordIs(s: seq<Byte>, i: nat)
    requires 4 * i + 4 <= |s|
    ensures Word(s, i) == s[4 * i] as int + 256 * s[4 * i + 1] as int
                          + 0x1_0000 * s[4 * i + 2] as int + 0x100_0000 * s[4 * i + 3] as int
  {
    var t := s[4 * i..4 * i + 4];
    assert t[1..][1..] == t[2..] && t[2..][1..] == t[3..] && t[3..][1..] == [];
    assert Decode(t) == t[0] + 256 * Decode(t[1..]) && Decode(t[1..]) == t[1] + 256 * Decode(t[2..]);
    assert Decode(t[2..]) == t[2] + 256 * Decode(t[3..]) && Decode(t[3..]) == t[3];
  }

  function PutWord(s: seq<Byte>, i: nat, v: nat): (r: seq<Byte>)
    requires 4 * i + 4 <= |s|
    ensures |r| == |s|
  {
    Put(s, 4 * i, 4, v)
  }

  const WORD: nat := 0x1_0000_0000

  lemma Pow256Word()
    ensures Pow256(4) == WORD
  {
  }

  lemma WordPutWord(s: seq<Byte>, i: nat, v: nat, j: nat)
    requires 4 * i + 4 <= |s| && 4 * j + 4 <= |s| && v < WORD
    ensures Word(PutWord(s, i, v), j) == if i == j then v else Word(s, j)
  {
    Pow256Word();
    if i == j {
      GetPut(s, 4 * i, 4, v);
    } else {
      GetPutOther(s, 4 * i, 4, v, 4 * j, 4);
    }
  }

  lemma WordZero(s: seq<Byte>, i: nat)
    requires 4 * i + 4 <= |s|
    requires forall j :: 0 <= j < |s| ==> s[j] == 0
    ensures Word(s, i) == 0
  {
    DecodeZeros(s[4 * i..4 * i + 4]);
  }
}

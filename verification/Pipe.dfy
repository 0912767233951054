// Pipes (pipe.c): a ring of 512 bytes with 32-bit counters that wrap.  Each
// method is what one process does between taking pi->lock and giving it up, in
// sleep or at the end; a run is any sequence of calls.
module Pipe {
  import opened Basics
  import opened Bytes

  const PIPESIZE: nat := 512

  // What a process is doing with the pipe: the rest of a write of src from i on,
  // or a read of n bytes.
  datatype Proc =
    | Idle
    | WriteReady(src: seq<Byte>, i: nat)
    | WriteAsleep(src: seq<Byte>, i: nat)
    | ReadReady(n: nat)
    | ReadAsleep(n: nat)

  datatype Result = Done(n: nat) | Closed | Sleeps

  // wakeup(&pi->nread) and wakeup(&pi->nwrite)
  function WakeReaders(procs: seq<Proc>): (r: seq<Proc>)
    ensures |r| == |procs|
    ensures forall p :: 0 <= p < |procs| ==> r[p] == if procs[p].ReadAsleep? then ReadReady(procs[p].n) else procs[p]
  {
    seq(|procs|, p requires 0 <= p < |procs| => if procs[p].ReadAsleep? then ReadReady(procs[p].n) else procs[p])
  }

  function WakeWriters(procs: seq<Proc>): (r: seq<Proc>)
    ensures |r| == |procs|
    ensures forall p :: 0 <= p < |procs| ==>
      r[p] == if procs[p].WriteAsleep? then WriteReady(procs[p].src, procs[p].i) else procs[p]
  {
    seq(|procs|, p requires 0 <= p < |procs| =>
      if procs[p].WriteAsleep? then WriteReady(procs[p].src, procs[p].i) else procs[p])
  }

  class Pipe {
    const data: array<Byte>
    var nread: nat
    var nwrite: nat
    var readopen: bool
    var writeopen: bool
    var procs: seq<Proc>
    // Every byte a writer has put into the pipe, and every byte a reader has got.
    ghost var accepted: seq<Byte>
    ghost var consumed: seq<Byte>

    ghost predicate Ring()
      reads this, data
    {
      && data.Length == PIPESIZE
      && nread == |consumed| % WORD && nwrite == |accepted| % WORD
      && |consumed| <= |accepted| <= |consumed| + PIPESIZE
      && consumed == accepted[..|consumed|]
      && forall k :: |consumed| <= k < |accepted| ==> data[k % PIPESIZE] == accepted[k]
    }

    // A writer asleep finds the pipe full with its read end open, a reader asleep
    // finds it empty with its write end open.
    ghost predicate Sleepers()
      reads this
    {
      forall p :: 0 <= p < |procs| ==>
        && (procs[p].WriteAsleep? ==> |accepted| == |consumed| + PIPESIZE && readopen && procs[p].i < |procs[p].src|)
        && (procs[p].ReadAsleep? ==> |accepted| == |consumed| && writeopen)
        && (procs[p].WriteReady? ==> procs[p].i <= |procs[p].src|)
    }

    ghost predicate Valid()
      reads this, data
    {
      Ring() && Sleepers()
    }

    constructor (n: nat)
      ensures Valid() && fresh(data) && readopen && writeopen && accepted == [] && consumed == []
      ensures procs == seq(n, _ => Idle)
    {
      data := new Byte[PIPESIZE];
      nread, nwrite, readopen, writeopen := 0, 0, true, true;
      procs := seq(n, _ => Idle);
      accepted, consumed := [], [];
    }

    // The counters are equal exactly when the pipe is empty, and PIPESIZE apart
    // exactly when it is full, also after they have wrapped.
    lemma Distance()
      requires Ring()
      ensures nread == nwrite <==> |accepted| == |consumed|
      ensures nwrite == (nread + PIPESIZE) % WORD <==> |accepted| == |consumed| + PIPESIZE
      ensures (nwrite - nread) % WORD == |accepted| - |consumed|
      ensures nwrite % PIPESIZE == |accepted| % PIPESIZE && nread % PIPESIZE == |consumed| % PIPESIZE
    {
      WrappedApart(|accepted|, |consumed|);
      SameSlot(|accepted|);
      SameSlot(|consumed|);
    }

    static lemma WrappedApart(a: nat, c: nat)
      requires c <= a <= c + PIPESIZE
      ensures a % WORD == c % WORD <==> a == c
      ensures a % WORD == (c % WORD + PIPESIZE) % WORD <==> a == c + PIPESIZE
      ensures (a % WORD - c % WORD) % WORD == a - c
    {
      var q, r, d := c / WORD, c % WORD, a - c;
      assert c == q * WORD + r;
      if r + d < WORD {
        Remainder(q, r + d);
      } else {
        Remainder(q + 1, r + d - WORD);
      }
    }

    static lemma Remainder(q: nat, r: nat)
      requires r < WORD
      ensures (q * WORD + r) % WORD == r
    {
    }

    // Storing byte number a overwrites none of the bytes still in the ring.
    static lemma NextSlots(c: nat, a: nat)
      requires c <= a < c + PIPESIZE
      ensures forall k :: c <= k < a ==> k % PIPESIZE != a % PIPESIZE
      ensures (a % WORD + 1) % WORD == (a + 1) % WORD
    {
    }

    static lemma NextWrap(c: nat)
      ensures (c % WORD + 1) % WORD == (c + 1) % WORD
    {
    }

    static lemma SameSlot(a: nat)
      ensures a % WORD % PIPESIZE == a % PIPESIZE
    {
    }

    // One byte into the ring, one byte out of it.
    method PutByte(ch: Byte)
      requires Ring() && |accepted| < |consumed| + PIPESIZE
      modifies this`nwrite, this`accepted, data
      ensures Ring() && accepted == old(accepted) + [ch]
    {
      Distance();
      NextSlots(|consumed|, |accepted|);
      data[nwrite % PIPESIZE] := ch;
      nwrite := (nwrite + 1) % WORD;
      accepted := accepted + [ch];
    }

    method GetByte() returns (ch: Byte)
      requires Ring() && |consumed| < |accepted|
      modifies this`nread, this`consumed
      ensures Ring() && consumed == old(consumed) + [ch] && ch == accepted[|old(consumed)|]
    {
      Distance();
      NextWrap(|consumed|);
      ch := data[nread % PIPESIZE];
      nread := (nread + 1) % WORD;
      consumed := consumed + [ch];
    }

    static lemma OneMore(before: seq<Byte>, src: seq<Byte>, i0: nat, i: nat)
      requires i0 <= i < |src|
      ensures before + src[i0..i] + [src[i]] == before + src[i0..i + 1]
    {
      assert src[i0..i + 1] == src[i0..i] + [src[i]];
    }

    // How far a write of src gets from byte i0 on: to its end, to the byte at
    // which killed(pr) is first seen, as far as the pipe has room, or to the
    // byte that copyin refuses.
    ghost function Reach(src: seq<Byte>, i0: nat, good: nat, dies: nat): (i: nat)
      reads this
      requires i0 <= |src| && |consumed| <= |accepted| <= |consumed| + PIPESIZE
      ensures i0 <= i <= |src|
    {
      if !readopen then i0
      else
        i0 + Min(Min(|src|, Max(dies, i0)) - i0, Min(Max(good, i0) - i0, |consumed| + PIPESIZE - |accepted|))
    }

    // How a write ends that has put in the bytes of src before i: the count is
    // the whole length, or else something stands in the way of byte i, the
    // closed read end or a kill before the full ring, and that before copyin.
    ghost predicate Outcome(src: seq<Byte>, i: nat, good: nat, dies: nat, r: Result)
      reads this
    {
      && i <= |src|
      && if i == |src| then r == Done(|src|)
         else if !readopen || dies <= i then r == Closed
         else if |accepted| == |consumed| + 512 then r == Sleeps
         else r == Done(i) && good <= i
    }

    // What ends the loop there.
    ghost function Ends(src: seq<Byte>, i: nat, dies: nat, room: nat): Result
      reads this
    {
      if i >= |src| then Done(i) else if !readopen || i >= dies then Closed else if room == 0 then Sleeps else Done(i)
    }

    // The loop of pipewrite from byte i of src on.  copyin delivers the first
    // good bytes of src; the process is killed when it gets to byte dies.
    method WriteLoop(src: seq<Byte>, i0: nat, good: nat, dies: nat) returns (r: Result, i: nat)
      requires Ring() && i0 <= |src|
      modifies this`nwrite, this`accepted, this`procs, data
      ensures Ring() && |procs| == |old(procs)|
      ensures i == old(Reach(src, i0, good, dies)) && r == Ends(src, i, dies, |consumed| + PIPESIZE - |accepted|)
      ensures accepted == old(accepted) + src[i0..i]
      ensures i > i0 ==> readopen && i <= good && i <= dies
      ensures Outcome(src, i, good, dies, r)
      ensures procs == if r == Closed then old(procs) else WakeReaders(old(procs))
    {
      i := i0;
      while i < |src|
        invariant i0 <= i <= |src| && Ring() && procs == old(procs)
        invariant accepted == old(accepted) + src[i0..i]
        invariant i > i0 ==> readopen && i <= good && i <= dies
      {
        if !readopen || i >= dies {
          return Closed, i;
        }
        Distance();
        if nwrite == (nread + PIPESIZE) % WORD {
          procs := WakeReaders(procs);
          return Sleeps, i;
        }
        if i >= good {
          break;
        }
        PutByte(src[i]);
        OneMore(old(accepted), src, i0, i);
        i := i + 1;
      }
      procs := WakeReaders(procs);
      return Done(i), i;
    }

    // A write of process p: pipewrite from its start, or from where it slept.
    // A process killed in the middle leaves without waking the readers: the
    // pipe stays consistent exactly when it had put nothing in, or none slept.
    method Write(p: nat, good: nat, dies: nat) returns (r: Result, ghost i: nat)
      requires Valid() && p < |procs| && procs[p].WriteReady?
      modifies this`nwrite, this`accepted, this`procs, data
      ensures Ring() && |procs| == |old(procs)|
      ensures var src, i0 := old(procs)[p].src, old(procs)[p].i;
        && i == old(Reach(src, i0, good, dies)) && r == Ends(src, i, dies, |consumed| + PIPESIZE - |accepted|)
        && accepted == old(accepted) + src[i0..i] && Outcome(src, i, good, dies, r)
        && (i > i0 ==> readopen && i <= good && i <= dies)
        && procs[p] == (if r == Sleeps then WriteAsleep(src, i) else Idle)
        && (Valid() <==> !(r == Closed && i > i0 && exists q :: 0 <= q < |procs| && procs[q].ReadAsleep?))
      ensures forall q :: 0 <= q < |procs| && q != p ==>
        procs[q] == if r == Closed then old(procs)[q] else WakeReaders(old(procs))[q]
    {
      var src, i0 := procs[p].src, procs[p].i;
      var k;
      r, k := WriteLoop(src, i0, good, dies);
      i := k;
      procs := procs[p := if r == Sleeps then WriteAsleep(src, k) else Idle];
    }

    method StartWrite(p: nat, src: seq<Byte>)
      requires Valid() && p < |procs| && procs[p] == Idle
      modifies this`procs
      ensures Valid() && procs == old(procs)[p := WriteReady(src, 0)]
    {
      procs := procs[p := WriteReady(src, 0)];
    }

    method StartRead(p: nat, n: nat)
      requires Valid() && p < |procs| && procs[p] == Idle
      modifies this`procs
      ensures Valid() && procs == old(procs)[p := ReadReady(n)]
    {
      procs := procs[p := ReadReady(n)];
    }

    // The copy loop of piperead; copyout takes the first good bytes, and the
    // byte it refuses has already left the pipe.
    method ReadLoop(n: nat, good: nat) returns (i: nat, out: seq<Byte>)
      requires Ring()
      modifies this`nread, this`consumed
      ensures Ring() && consumed == old(consumed) + out
      ensures i == Min(Min(n, good), |accepted| - |old(consumed)|)
      ensures |out| == if good < n && good < |accepted| - |old(consumed)| then good + 1 else i
      ensures out == accepted[|old(consumed)|..|consumed|]
    {
      out := [];
      i := 0;
      while i < n
        invariant i <= n && i <= good && |out| == i && Ring() && consumed == old(consumed) + out
      {
        Distance();
        if nread == nwrite {
          break;
        }
        var ch := GetByte();
        out := out + [ch];
        if i >= good {
          break;
        }
        i := i + 1;
      }
    }

    // A read of process p: nothing left and the write end open means sleep, or
    // -1 if the process has been killed.
    method Read(p: nat, good: nat, killed: bool) returns (r: Result, out: seq<Byte>)
      requires Valid() && p < |procs| && procs[p].ReadReady?
      modifies this`nread, this`consumed, this`procs
      ensures Valid() && |procs| == |old(procs)|
      ensures var n, left := old(procs)[p].n, |accepted| - |old(consumed)|;
        if left == 0 && writeopen then
          out == [] && (if killed then r == Closed && procs == old(procs)[p := Idle]
                        else r == Sleeps && procs == old(procs)[p := ReadAsleep(n)])
        else
          && r == Done(Min(Min(n, good), left))
          && |out| == (if good < n && good < left then good + 1 else r.n)
          && procs == WakeWriters(old(procs))[p := Idle]
      ensures consumed == old(consumed) + out && out == accepted[|old(consumed)|..|consumed|]
    {
      var n := procs[p].n;
      Distance();
      if nread == nwrite && writeopen {
        if killed {
          procs := procs[p := Idle];
          return Closed, [];
        }
        procs := procs[p := ReadAsleep(n)];
        return Sleeps, [];
      }
      var i;
      i, out := ReadLoop(n, good);
      procs := WakeWriters(procs)[p := Idle];
      return Done(i), out;
    }

    // last says that both ends are now closed and the page is freed.
    method Close(writable: bool) returns (last: bool)
      requires Valid()
      modifies this`readopen, this`writeopen, this`procs
      ensures Valid() && last == (!readopen && !writeopen)
      ensures writable ==> !writeopen && readopen == old(readopen) && procs == WakeReaders(old(procs))
      ensures !writable ==> !readopen && writeopen == old(writeopen) && procs == WakeWriters(old(procs))
    {
      if writable {
        writeopen := false;
        procs := WakeReaders(procs);
      } else {
        readopen := false;
        procs := WakeWriters(procs);
      }
      return !readopen && !writeopen;
    }

    // Readers and writers never sleep at the same time, and a write that sleeps
    // is woken by a read that has something to return.
    lemma NeverBothAsleep(p: nat, q: nat)
      requires Valid() && p < |procs| && q < |procs| && procs[p].WriteAsleep?
      ensures !procs[q].ReadAsleep?
      ensures |accepted| - |consumed| == PIPESIZE && readopen
      ensures consumed <= accepted
    {
    }
  }

  // A reader asleep on an empty pipe; a writer puts in one byte of two and is
  // killed: the byte is there, and the reader still sleeps.
  method KilledWriter() returns (pi: Pipe)
    ensures fresh(pi) && pi.Ring() && pi.procs == [ReadAsleep(1), Idle]
    ensures pi.accepted == [65] && pi.consumed == [] && !pi.Valid()
  {
    pi := new Pipe(2);
    pi.StartRead(0, 1);
    var r, out := pi.Read(0, 1, false);
    pi.StartWrite(1, [65, 66]);
    assert pi.procs == [ReadAsleep(1), WriteReady([65, 66], 0)];
    ghost var i;
    r, i := pi.Write(1, 2, 1);
    assert pi.procs[0] == ReadAsleep(1);
  }
}

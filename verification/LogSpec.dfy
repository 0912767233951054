// The redo log on disk (log.c), as a function of disk images: what each block
// write of a commit or a recovery leaves behind, and what recovery makes of it.
module LogSpec {
  import opened Basics
  import opened Bytes
  import opened Disk

  // Where the log lives: a header block at start, then size - 1 data blocks.
  datatype Area = Area(start: nat, size: nat) {
    predicate Has(b: nat) { start <= b < start + size }
  }

  // ------------------------------------------------------------- the header

  function Count(h: Block): nat { Word(h, 0) }

  function Target(h: Block, i: nat): nat
    requires i < LOGSIZE
  {
    Word(h, i + 1)
  }

  // write_head: store n, then the first k block numbers, in the header block.
  function Head(h: Block, targets: seq<nat>, k: nat): (r: Block)
    requires k <= |targets| <= LOGSIZE
  {
    if k == 0 then PutWord(h, 0, |targets|) else PutWord(Head(h, targets, k - 1), k, targets[k - 1])
  }

  lemma {:induction false} HeadWords(h: Block, targets: seq<nat>, k: nat)
    requires k <= |targets| <= LOGSIZE
    requires forall i :: 0 <= i < |targets| ==> targets[i] < WORD
    ensures Count(Head(h, targets, k)) == |targets|
    ensures forall i :: 0 <= i < k ==> Target(Head(h, targets, k), i) == targets[i]
  {
    if k == 0 {
      WordPutWord(h, 0, |targets|, 0);
    } else {
      var before := Head(h, targets, k - 1);
      HeadWords(h, targets, k - 1);
      WordPutWord(before, k, targets[k - 1], 0);
      forall i | 0 <= i < k ensures Target(Head(h, targets, k), i) == targets[i] {
        WordPutWord(before, k, targets[k - 1], i + 1);
      }
    }
  }

  // The block numbers a header lists.
  function Targets(h: Block): (r: seq<nat>)
    requires Count(h) <= LOGSIZE
    ensures |r| == Count(h)
  {
    seq(Count(h), i requires 0 <= i < Count(h) => Target(h, i))
  }

  lemma TargetsOfHead(h: Block, targets: seq<nat>)
    requires |targets| <= LOGSIZE
    requires forall i :: 0 <= i < |targets| ==> targets[i] < WORD
    ensures Count(Head(h, targets, |targets|)) == |targets|
    ensures Targets(Head(h, targets, |targets|)) == targets
  {
    HeadWords(h, targets, |targets|);
  }

  // struct logheader on the disk: the count in the first four bytes of the block,
  // block number i in the four bytes from 4 * i + 4 on, least significant first.
  lemma HeadBytes(h: Block, targets: seq<nat>, i: nat)
    requires i <= |targets| <= LOGSIZE
    requires forall i :: 0 <= i < |targets| ==> targets[i] < WORD
    ensures var r := Head(h, targets, |targets|);
      r[4 * i] as int + 256 * r[4 * i + 1] as int + 0x1_0000 * r[4 * i + 2] as int + 0x100_0000 * r[4 * i + 3] as int
      == if i == 0 then |targets| else targets[i - 1]
  {
    HeadWords(h, targets, |targets|);
    WordIs(Head(h, targets, |targets|), i);
    if i > 0 {
      assert Target(Head(h, targets, |targets|), i - 1) == targets[i - 1];
    }
  }

  // -------------------------------------------------------- well-formedness

  // Distinct home blocks outside the log area, few enough for the log.
  ghost predicate GoodTargets(targets: seq<nat>, a: Area, nblocks: nat) {
    && |targets| <= LOGSIZE && |targets| < a.size && a.start + a.size <= nblocks
    && (forall i :: 0 <= i < |targets| ==> targets[i] < nblocks && targets[i] < WORD && !a.Has(targets[i]))
    && (forall i, j :: 0 <= i < j < |targets| ==> targets[i] != targets[j])
  }

  // A disk that recover_from_log can be run on.
  ghost predicate Recoverable(d: seq<Block>, a: Area) {
    && a.size > 0 && a.start + a.size <= |d|
    && Count(d[a.start]) <= LOGSIZE
    && GoodTargets(Targets(d[a.start]), a, |d|)
  }

  // The same contents outside the log area.
  ghost predicate SameHome(d: seq<Block>, e: seq<Block>, a: Area) {
    |d| == |e| && forall b :: 0 <= b < |d| && !a.Has(b) ==> d[b] == e[b]
  }

  // ---------------------------------------------------------------- recovery

  // install_trans: the first k log blocks copied to their home blocks.
  function Install(d: seq<Block>, a: Area, targets: seq<nat>, k: nat): (r: seq<Block>)
    requires GoodTargets(targets, a, |d|) && k <= |targets|
    ensures |r| == |d|
  {
    if k == 0 then d
    else var e := Install(d, a, targets, k - 1); e[targets[k - 1] := e[a.start + k]]
  }

  // The disk after k of the block writes of recover_from_log.
  function RecoveryState(d: seq<Block>, a: Area, k: nat): (r: seq<Block>)
    requires Recoverable(d, a) && k <= Count(d[a.start]) + 1
    ensures |r| == |d|
  {
    var targets := Targets(d[a.start]);
    var e := Install(d, a, targets, if k <= |targets| then k else |targets|);
    if k <= |targets| then e else e[a.start := Head(e[a.start], [], 0)]
  }

  function Recovered(d: seq<Block>, a: Area): (r: seq<Block>)
    requires Recoverable(d, a)
    ensures |r| == |d|
  {
    RecoveryState(d, a, Count(d[a.start]) + 1)
  }

  lemma {:induction false} InstallKeeps(d: seq<Block>, a: Area, targets: seq<nat>, k: nat, b: nat)
    requires GoodTargets(targets, a, |d|) && k <= |targets| && b < |d|
    requires a.Has(b) || forall j :: 0 <= j < k ==> targets[j] != b
    ensures Install(d, a, targets, k)[b] == d[b]
  {
    if k > 0 {
      InstallKeeps(d, a, targets, k - 1, b);
    }
  }

  lemma {:induction false} InstallSets(d: seq<Block>, a: Area, targets: seq<nat>, k: nat, j: nat)
    requires GoodTargets(targets, a, |d|) && j < k <= |targets|
    ensures Install(d, a, targets, k)[targets[j]] == d[a.start + j + 1]
  {
    if j < k - 1 {
      InstallSets(d, a, targets, k - 1, j);
    } else {
      InstallKeeps(d, a, targets, k - 1, a.start + k);
    }
  }

  // Two images that agree on the log blocks and on the home blocks the log
  // does not list.
  ghost predicate SameLog(d: seq<Block>, e: seq<Block>, a: Area, targets: seq<nat>) {
    && GoodTargets(targets, a, |d|) && |e| == |d|
    && (forall j {:trigger targets[j]} :: 0 <= j < |targets| ==> d[a.start + j + 1] == e[a.start + j + 1])
    && (forall b {:trigger b in targets} :: 0 <= b < |d| && !a.Has(b) && b !in targets ==> d[b] == e[b])
  }

  // Installing everything gives such images the same home blocks.
  lemma InstallDetermined(d: seq<Block>, e: seq<Block>, a: Area, targets: seq<nat>, b: nat)
    requires SameLog(d, e, a, targets) && b < |d| && !a.Has(b)
    ensures Install(d, a, targets, |targets|)[b] == Install(e, a, targets, |targets|)[b]
  {
    var n := |targets|;
    if b in targets {
      var j :| 0 <= j < n && targets[j] == b;
      InstallSets(d, a, targets, n, j);
      InstallSets(e, a, targets, n, j);
    } else {
      InstallKeeps(d, a, targets, n, b);
      InstallKeeps(e, a, targets, n, b);
    }
  }

  // A partial installation changes only home blocks the log lists.
  lemma InstallFrame(d: seq<Block>, a: Area, targets: seq<nat>, k: nat)
    requires GoodTargets(targets, a, |d|) && k <= |targets|
    ensures forall b :: 0 <= b < |d| && a.Has(b) ==> Install(d, a, targets, k)[b] == d[b]
    ensures forall b {:trigger b in targets} :: 0 <= b < |d| && b !in targets ==> Install(d, a, targets, k)[b] == d[b]
  {
  }

  // Recovery interrupted after any number of its writes can be run again, and
  // then ends with the home blocks the first run would have produced.
  lemma RecoveryIdempotent(d: seq<Block>, a: Area, k: nat)
    requires Recoverable(d, a) && k <= Count(d[a.start]) + 1
    ensures Recoverable(RecoveryState(d, a, k), a)
    ensures SameHome(Recovered(RecoveryState(d, a, k), a), Recovered(d, a), a)
    ensures k == Count(d[a.start]) + 1 ==> Count(RecoveryState(d, a, k)[a.start]) == 0
  {
    hide Install, GoodTargets, Targets, Head, SameHome;
    var n := |Targets(d[a.start])|;
    if k <= n {
      RecoveryAgain(d, a, k);
    } else {
      InstallFrame(d, a, Targets(d[a.start]), n);
      RecoveryOver(d, a);
    }
  }

  // Before its last write recovery has left the log as it was.
  lemma RecoveryAgain(d: seq<Block>, a: Area, k: nat)
    requires Recoverable(d, a) && k <= Count(d[a.start])
    ensures Recoverable(RecoveryState(d, a, k), a)
    ensures SameHome(Recovered(RecoveryState(d, a, k), a), Recovered(d, a), a)
  {
    hide Install, Head;
    var targets, n, e := Targets(d[a.start]), Count(d[a.start]), RecoveryState(d, a, k);
    assert a.Has(a.start);
    InstallFrame(d, a, targets, k);
    assert e[a.start] == d[a.start];
    PartlyInstalled(d, a, targets, k);
    forall b | 0 <= b < |d| && !a.Has(b) ensures Recovered(e, a)[b] == Recovered(d, a)[b] {
      InstallDetermined(e, d, a, targets, b);
    }
  }

  lemma PartlyInstalled(d: seq<Block>, a: Area, targets: seq<nat>, k: nat)
    requires GoodTargets(targets, a, |d|) && k <= |targets|
    ensures SameLog(Install(d, a, targets, k), d, a, targets)
  {
    hide Install;
    InstallFrame(d, a, targets, k);
    forall j {:trigger targets[j]} | 0 <= j < |targets| ensures a.Has(a.start + j + 1) {}
  }

  // With it, it has emptied the log.
  lemma RecoveryOver(d: seq<Block>, a: Area)
    requires Recoverable(d, a)
    ensures Count(Recovered(d, a)[a.start]) == 0 && Recoverable(Recovered(d, a), a)
    ensures SameHome(Recovered(Recovered(d, a), a), Recovered(d, a), a)
  {
    hide Install, Head;
    var targets := Targets(d[a.start]);
    TargetsOfHead(Install(d, a, targets, |targets|)[a.start], []);
    EmptyRecovers(Recovered(d, a), a);
  }

  // Any number of crashes: each image is what the previous image's recovery
  // had written when the machine went down.
  ghost predicate CrashedRecoveries(images: seq<seq<Block>>, writes: seq<nat>, a: Area) {
    && |images| == |writes| + 1
    && (forall i :: 0 <= i < |writes| ==>
          && Recoverable(images[i], a)
          && writes[i] <= Count(images[i][a.start]) + 1
          && images[i + 1] == RecoveryState(images[i], a, writes[i]))
  }

  lemma {:induction false} RecoveryConverges(images: seq<seq<Block>>, writes: seq<nat>, a: Area)
    requires CrashedRecoveries(images, writes, a) && Recoverable(images[0], a)
    ensures Recoverable(images[|writes|], a)
    ensures SameHome(Recovered(images[|writes|], a), Recovered(images[0], a), a)
    decreases |writes|
  {
    if writes != [] {
      RecoveryIdempotent(images[0], a, writes[0]);
      var rest, w := images[1..], writes[1..];
      forall i | 0 <= i < |w|
        ensures Recoverable(rest[i], a) && w[i] <= Count(rest[i][a.start]) + 1
        ensures rest[i + 1] == RecoveryState(rest[i], a, w[i])
      {
        assert w[i] == writes[i + 1] && rest[i] == images[i + 1] && rest[i + 1] == images[i + 2];
      }
      RecoveryConverges(rest, w, a);
    }
  }

  // ------------------------------------------------------------------ commit

  // write_log: the first k logged blocks copied from the cache to the log.
  function Logged(d: seq<Block>, a: Area, targets: seq<nat>, cache: seq<Block>, k: nat): (r: seq<Block>)
    requires GoodTargets(targets, a, |d|) && |cache| == |d| && k <= |targets|
    ensures |r| == |d|
  {
    if k == 0 then d
    else Logged(d, a, targets, cache, k - 1)[a.start + k := cache[targets[k - 1]]]
  }

  // write_head, after write_log: the commit point.
  function Headed(d: seq<Block>, a: Area, targets: seq<nat>, cache: seq<Block>): (r: seq<Block>)
    requires GoodTargets(targets, a, |d|) && |cache| == |d|
    ensures |r| == |d|
  {
    var l := Logged(d, a, targets, cache, |targets|);
    l[a.start := Head(l[a.start], targets, |targets|)]
  }

  // The disk after k of the block writes of commit: the log blocks, the
  // header, the home blocks, and the cleared header.
  function CommitState(d: seq<Block>, a: Area, targets: seq<nat>, cache: seq<Block>, k: nat): (r: seq<Block>)
    requires GoodTargets(targets, a, |d|) && |cache| == |d| && k <= 2 * |targets| + 2
    ensures |r| == |d|
  {
    var n := |targets|;
    if k <= n then Logged(d, a, targets, cache, k)
    else
      var e := Install(Headed(d, a, targets, cache), a, targets, if k <= 2 * n + 1 then k - n - 1 else n);
      if k <= 2 * n + 1 then e else e[a.start := Head(e[a.start], [], 0)]
  }

  // The disk states of these pieces of code, in order.
  ghost function LogTrace(d: seq<Block>, a: Area, targets: seq<nat>, cache: seq<Block>, k: nat): seq<seq<Block>>
    requires GoodTargets(targets, a, |d|) && |cache| == |d| && k <= |targets|
  {
    seq(k, j requires 0 <= j < k => Logged(d, a, targets, cache, j + 1))
  }

  ghost function InstallTrace(d: seq<Block>, a: Area, targets: seq<nat>, k: nat): seq<seq<Block>>
    requires GoodTargets(targets, a, |d|) && k <= |targets|
  {
    seq(k, j requires 0 <= j < k => Install(d, a, targets, j + 1))
  }

  ghost function RecoveryTrace(d: seq<Block>, a: Area): seq<seq<Block>>
    requires Recoverable(d, a)
  {
    seq(Count(d[a.start]) + 1, j requires 0 <= j < Count(d[a.start]) + 1 => RecoveryState(d, a, j + 1))
  }

  ghost function CommitTrace(d: seq<Block>, a: Area, targets: seq<nat>, cache: seq<Block>): seq<seq<Block>>
    requires GoodTargets(targets, a, |d|) && |cache| == |d|
  {
    seq(2 * |targets| + 2, j requires 0 <= j < 2 * |targets| + 2 => CommitState(d, a, targets, cache, j + 1))
  }

  lemma InstallNone(d: seq<Block>, a: Area, targets: seq<nat>)
    requires GoodTargets(targets, a, |d|)
    ensures Install(d, a, targets, 0) == d && InstallTrace(d, a, targets, 0) == []
  {
  }

  lemma InstallOneMore(d: seq<Block>, a: Area, targets: seq<nat>, k: nat)
    requires GoodTargets(targets, a, |d|) && k < |targets|
    ensures var e := Install(d, a, targets, k);
            var e' := e[targets[k] := e[a.start + k + 1]];
            Install(d, a, targets, k + 1) == e' && InstallTrace(d, a, targets, k + 1) ==
              InstallTrace(d, a, targets, k) + [e']
  {
  }

  lemma RecoveryTraceParts(d: seq<Block>, a: Area)
    requires Recoverable(d, a)
    ensures var targets := Targets(d[a.start]);
            RecoveryTrace(d, a) == InstallTrace(d, a, targets, |targets|) + [Recovered(d, a)]
    ensures var targets := Targets(d[a.start]);
            var e := Install(d, a, targets, |targets|);
            Recovered(d, a) == e[a.start := Head(e[a.start], [], 0)]
  {
    hide Install, GoodTargets, Head;
  }

  lemma CommitTraceParts(d: seq<Block>, a: Area, targets: seq<nat>, cache: seq<Block>)
    requires GoodTargets(targets, a, |d|) && |cache| == |d|
    ensures var n, h := |targets|, Headed(d, a, targets, cache);
            CommitTrace(d, a, targets, cache) ==
            LogTrace(d, a, targets, cache, n) + [h] + InstallTrace(h, a, targets, n)
            + [CommitState(d, a, targets, cache, 2 * n + 2)]
  {
    hide Install, Logged, GoodTargets, Head, Headed;
    var n, h := |targets|, Headed(d, a, targets, cache);
    var before, after := LogTrace(d, a, targets, cache, n), InstallTrace(h, a, targets, n);
    var all := CommitTrace(d, a, targets, cache);
    assert all[..n] == before;
    assert all[n] == CommitState(d, a, targets, cache, n + 1) == h by { InstallNone(h, a, targets); }
    assert all[n + 1..2 * n + 1] == after;
    assert all == all[..n] + [all[n]] + all[n + 1..2 * n + 1] + [all[2 * n + 1]];
  }

  lemma CommitEnd(d: seq<Block>, a: Area, targets: seq<nat>, cache: seq<Block>)
    requires GoodTargets(targets, a, |d|) && |cache| == |d|
    ensures var n := |targets|;
            var l, h := Logged(d, a, targets, cache, n), Headed(d, a, targets, cache);
            var e := Install(h, a, targets, n);
            && h == l[a.start := Head(l[a.start], targets, n)]
            && CommitState(d, a, targets, cache, 2 * n + 2) == e[a.start := Head(e[a.start], [], 0)]
  {
  }

  // The disk with the whole transaction applied, and nothing else changed.
  ghost predicate Applied(e: seq<Block>, d: seq<Block>, a: Area, targets: seq<nat>, cache: seq<Block>) {
    && |e| == |d| == |cache|
    && forall b :: 0 <= b < |d| && !a.Has(b) ==> e[b] == if b in targets then cache[b] else d[b]
  }

  lemma {:induction false} LoggedAt(d: seq<Block>, a: Area, targets: seq<nat>, cache: seq<Block>, k: nat)
    requires GoodTargets(targets, a, |d|) && |cache| == |d| && k <= |targets|
    ensures forall j {:trigger targets[j]} :: 0 <= j < k ==>
              Logged(d, a, targets, cache, k)[a.start + j + 1] == cache[targets[j]]
    ensures forall b :: 0 <= b < |d| && !(a.start < b <= a.start + k) ==> Logged(d, a, targets, cache, k)[b] == d[b]
  {
    if k > 0 {
      LoggedAt(d, a, targets, cache, k - 1);
    }
  }

  // The log holds the transaction and the other home blocks are d's.
  ghost predicate HoldsLog(e: seq<Block>, d: seq<Block>, a: Area, targets: seq<nat>, cache: seq<Block>) {
    && GoodTargets(targets, a, |d|) && |cache| == |d| == |e|
    && (forall j {:trigger targets[j]} :: 0 <= j < |targets| ==> e[a.start + j + 1] == cache[targets[j]])
    && (forall b {:trigger b in targets} :: 0 <= b < |d| && !a.Has(b) && b !in targets ==> e[b] == d[b])
  }

  lemma InstallApplies(e: seq<Block>, d: seq<Block>, a: Area, targets: seq<nat>, cache: seq<Block>)
    requires HoldsLog(e, d, a, targets, cache)
    ensures Applied(Install(e, a, targets, |targets|), d, a, targets, cache)
  {
    var f := Install(e, a, targets, |targets|);
    forall b | 0 <= b < |d| && !a.Has(b) ensures f[b] == if b in targets then cache[b] else d[b] {
      if b in targets {
        var j :| 0 <= j < |targets| && targets[j] == b;
        InstallSets(e, a, targets, |targets|, j);
      } else {
        InstallKeeps(e, a, targets, |targets|, b);
      }
    }
  }

  // What the disk looks like from the commit point on, until the header is
  // cleared: the header lists the transaction and the log blocks hold it.
  ghost predicate Redo(e: seq<Block>, d: seq<Block>, a: Area, targets: seq<nat>, cache: seq<Block>) {
    && HoldsLog(e, d, a, targets, cache)
    && Count(e[a.start]) == |targets| && Targets(e[a.start]) == targets
  }

  lemma HeadedRedo(d: seq<Block>, a: Area, targets: seq<nat>, cache: seq<Block>)
    requires GoodTargets(targets, a, |d|) && |cache| == |d|
    ensures Redo(Headed(d, a, targets, cache), d, a, targets, cache)
  {
    hide Logged, Head, Targets, HoldsLog;
    HeadedHolds(d, a, targets, cache);
    TargetsOfHead(Logged(d, a, targets, cache, |targets|)[a.start], targets);
  }

  lemma HeadedHolds(d: seq<Block>, a: Area, targets: seq<nat>, cache: seq<Block>)
    requires GoodTargets(targets, a, |d|) && |cache| == |d|
    ensures HoldsLog(Headed(d, a, targets, cache), d, a, targets, cache)
  {
    hide Logged, Head;
    var l, h := Logged(d, a, targets, cache, |targets|), Headed(d, a, targets, cache);
    LoggedAt(d, a, targets, cache, |targets|);
    forall j {:trigger targets[j]} | 0 <= j < |targets| ensures h[a.start + j + 1] == cache[targets[j]] {
      assert l[a.start + j + 1] == cache[targets[j]];
    }
    forall b {:trigger b in targets} | 0 <= b < |d| && !a.Has(b) && b !in targets ensures h[b] == d[b] {
      assert !(a.start <= b <= a.start + |targets|);
    }
  }

  lemma InstallRedo(h: seq<Block>, d: seq<Block>, a: Area, targets: seq<nat>, cache: seq<Block>, k: nat)
    requires Redo(h, d, a, targets, cache) && k <= |targets|
    ensures Redo(Install(h, a, targets, k), d, a, targets, cache)
  {
  }

  lemma RedoRecovers(e: seq<Block>, d: seq<Block>, a: Area, targets: seq<nat>, cache: seq<Block>)
    requires Redo(e, d, a, targets, cache)
    ensures Recoverable(e, a) && Applied(Recovered(e, a), d, a, targets, cache)
  {
    InstallApplies(e, d, a, targets, cache);
    assert a.Has(a.start);
  }

  // A crash before the header is written: recovery changes nothing.
  lemma CrashBeforeCommit(d: seq<Block>, a: Area, targets: seq<nat>, cache: seq<Block>, k: nat)
    requires GoodTargets(targets, a, |d|) && |cache| == |d| && k <= |targets|
    requires Count(d[a.start]) == 0
    ensures var e := CommitState(d, a, targets, cache, k);
            Recoverable(e, a) && SameHome(Recovered(e, a), d, a)
  {
    LoggedAt(d, a, targets, cache, k);
    assert Logged(d, a, targets, cache, k)[a.start] == d[a.start];
    assert a.Has(a.start);
    forall b | 0 <= b < |d| && a.start < b <= a.start + k ensures a.Has(b) {}
  }

  // A crash after it: recovery applies the transaction.
  lemma CrashAfterCommit(d: seq<Block>, a: Area, targets: seq<nat>, cache: seq<Block>, k: nat)
    requires GoodTargets(targets, a, |d|) && |cache| == |d| && |targets| < k <= 2 * |targets| + 1
    ensures Redo(CommitState(d, a, targets, cache, k), d, a, targets, cache)
  {
    hide Install, Logged, GoodTargets, Head, Redo;
    HeadedRedo(d, a, targets, cache);
    InstallRedo(Headed(d, a, targets, cache), d, a, targets, cache, k - |targets| - 1);
  }

  // A finished commit has applied the transaction and emptied the log.
  lemma CommitDone(d: seq<Block>, a: Area, targets: seq<nat>, cache: seq<Block>)
    requires GoodTargets(targets, a, |d|) && |cache| == |d|
    ensures var e := CommitState(d, a, targets, cache, 2 * |targets| + 2);
            Count(e[a.start]) == 0 && Applied(e, d, a, targets, cache)
  {
    hide Install, Logged, Head;
    var h := Headed(d, a, targets, cache);
    HeadedRedo(d, a, targets, cache);
    InstallApplies(h, d, a, targets, cache);
    TargetsOfHead(Install(h, a, targets, |targets|)[a.start], []);
    assert a.Has(a.start);
  }

  lemma EmptyRecovers(d: seq<Block>, a: Area)
    requires a.size > 0 && a.start + a.size <= |d| && Count(d[a.start]) == 0
    ensures Recoverable(d, a) && SameHome(Recovered(d, a), d, a)
  {
  }

  // Crash atomicity.  Whatever the number k of block writes a commit got
  // through, recovery yields the old home blocks if the header had not been
  // written yet, and the old home blocks with the transaction applied if it had.
  lemma CrashAtomic(d: seq<Block>, a: Area, targets: seq<nat>, cache: seq<Block>, k: nat)
    requires GoodTargets(targets, a, |d|) && |cache| == |d| && k <= 2 * |targets| + 2
    requires Count(d[a.start]) == 0
    ensures var e := CommitState(d, a, targets, cache, k);
            && Recoverable(e, a)
            && (k <= |targets| ==> SameHome(Recovered(e, a), d, a))
            && (k > |targets| ==> Applied(Recovered(e, a), d, a, targets, cache))
  {
    var e := CommitState(d, a, targets, cache, k);
    if k <= |targets| {
      CrashBeforeCommit(d, a, targets, cache, k);
    } else if k <= 2 * |targets| + 1 {
      CrashAfterCommit(d, a, targets, cache, k);
      RedoRecovers(e, d, a, targets, cache);
    } else {
      CommitDone(d, a, targets, cache);
      EmptyRecovers(e, a);
    }
  }

  // -------------------------------------------------------------- whole runs

  // One commit of a run: how many of its block writes reached the disk, and
  // how many writes each recovery made before it was interrupted or done.
  datatype Txn = Txn(targets: seq<nat>, cache: seq<Block>, wrote: nat, recoveries: seq<nat>)

  // From an empty log on d, through the commit, any crash in it and any crashes
  // during recovery, to an empty log on e.
  ghost predicate Step(d: seq<Block>, t: Txn, e: seq<Block>, images: seq<seq<Block>>, a: Area) {
    && t.targets != [] && GoodTargets(t.targets, a, |d|) && |t.cache| == |d| && t.wrote <= 2 * |t.targets| + 2
    && CrashedRecoveries(images, t.recoveries, a)
    && images[0] == CommitState(d, a, t.targets, t.cache, t.wrote)
    && images[|t.recoveries|] == e
    && |e| == |d| && Count(e[a.start]) == 0
  }

  function Apply(d: seq<Block>, targets: seq<nat>, cache: seq<Block>): (r: seq<Block>)
    requires |cache| == |d|
    ensures |r| == |d|
  {
    seq(|d|, b requires 0 <= b < |d| => if b in targets then cache[b] else d[b])
  }

  // The transactions whose header reached the disk, applied in order.
  ghost function Replay(d: seq<Block>, run: seq<Txn>): (r: seq<Block>)
    requires forall i :: 0 <= i < |run| ==> |run[i].cache| == |d|
    ensures |r| == |d|
    decreases run
  {
    if run == [] then d
    else
      var t := run[0];
      Replay(if t.wrote > |t.targets| then Apply(d, t.targets, t.cache) else d, run[1..])
  }

  lemma {:induction false} ReplayHome(d: seq<Block>, e: seq<Block>, run: seq<Txn>, a: Area)
    requires SameHome(d, e, a) && forall i :: 0 <= i < |run| ==> |run[i].cache| == |d|
    ensures SameHome(Replay(d, run), Replay(e, run), a)
    decreases run
  {
    if run != [] {
      var t := run[0];
      var d' := if t.wrote > |t.targets| then Apply(d, t.targets, t.cache) else d;
      var e' := if t.wrote > |t.targets| then Apply(e, t.targets, t.cache) else e;
      assert SameHome(d', e', a);
      ReplayHome(d', e', run[1..], a);
    }
  }

  lemma StepAtomic(d: seq<Block>, t: Txn, e: seq<Block>, images: seq<seq<Block>>, a: Area)
    requires Step(d, t, e, images, a) && Count(d[a.start]) == 0
    ensures SameHome(e, if t.wrote > |t.targets| then Apply(d, t.targets, t.cache) else d, a)
  {
    hide CommitState, GoodTargets, RecoveryState;
    CrashAtomic(d, a, t.targets, t.cache, t.wrote);
    RecoveryConverges(images, t.recoveries, a);
    EmptyRecovers(e, a);
  }

  // A run of commits, crashes and recoveries of any length leaves on the home
  // blocks exactly the transactions that were committed, whole and in order.
  lemma {:induction false} RunDurable(
      disks: seq<seq<Block>>, run: seq<Txn>, images: seq<seq<seq<Block>>>, a: Area)
    requires |disks| == |run| + 1 && |images| == |run|
    requires forall i :: 0 <= i < |run| ==> Step(disks[i], run[i], disks[i + 1], images[i], a)
    requires forall i :: 0 <= i < |run| ==> |run[i].cache| == |disks[0]|
    requires a.start < |disks[0]| && Count(disks[0][a.start]) == 0
    ensures SameHome(disks[|run|], Replay(disks[0], run), a)
    decreases |run|
  {
    if run != [] {
      var d, e, t := disks[0], disks[1], run[0];
      assert Step(d, t, e, images[0], a);
      StepAtomic(d, t, e, images[0], a);
      forall i | 0 <= i < |run[1..]|
        ensures Step(disks[1..][i], run[1..][i], disks[1..][i + 1], images[1..][i], a)
      {
        assert Step(disks[i + 1], run[i + 1], disks[i + 2], images[i + 1], a);
      }
      RunDurable(disks[1..], run[1..], images[1..], a);
      ReplayHome(e, if t.wrote > |t.targets| then Apply(d, t.targets, t.cache) else d, run[1..], a);
    }
  }
}

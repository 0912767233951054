// Group commit (begin_op, log_write, end_op and commit in log.c) as a state
// machine over every interleaving of file-system operations.  An operation may
// call log_write any number of times, for at most k different blocks; begin_op
// reserves MAXOPBLOCKS for it.
module LogProtocol {
  import opened Basics
  import opened LogSpec

  // The variables that log.lock protects.
  datatype Shared = Shared(size: nat, targets: seq<nat>, outstanding: int, committing: bool)

  // The guard of begin_op: with it false, the caller sleeps.
  predicate MayBegin(s: Shared) {
    !s.committing && |s.targets| + (s.outstanding + 1) * MAXOPBLOCKS <= LOGSIZE
  }

  // The two panics of log_write, and the panic of end_op.
  predicate TooBig(s: Shared) { |s.targets| >= LOGSIZE || |s.targets| >= s.size - 1 }

  predicate OutsideTransaction(s: Shared) { s.outstanding < 1 }

  predicate EndWhileCommitting(s: Shared) { s.committing }

  // log_write's table update: an already logged block is absorbed.
  function Record(targets: seq<nat>, b: nat): (r: seq<nat>) {
    if b in targets then targets else targets + [b]
  }

  // An active operation: its identity and the blocks it has logged.
  datatype Op = Op(id: nat, logged: set<nat>)

  // asleep counts the callers of begin_op asleep on the log, ids the operations
  // begun, epoch the transactions committed; writes records which operation
  // logged a block in which transaction.
  datatype Sys =
    Sys(log: Shared, ops: seq<Op>, asleep: nat, ids: nat, epoch: nat, writes: set<(nat, nat)>)

  datatype Event =
    | Begin
    | Wait
    | Write(i: nat, b: nat)
    | End(i: nat)
    | Clear
    | Finish

  // Operation o stays within k different blocks by logging b.
  predicate Within(k: nat, o: Op, b: nat) {
    b in o.logged || |o.logged| < k
  }

  // Whether e can happen in s, and does not panic.
  predicate Enabled(k: nat, s: Sys, e: Event) {
    match e
    case Begin => MayBegin(s.log)
    case Wait => !MayBegin(s.log)
    case Write(i, b) => i < |s.ops| && Within(k, s.ops[i], b) && !TooBig(s.log) && !OutsideTransaction(s.log)
    case End(i) => i < |s.ops| && !EndWhileCommitting(s.log)
    case Clear => s.log.committing
    case Finish => s.log.committing && s.log.targets == []
  }

  // A wakeup makes every sleeper try again.
  function Next(s: Sys, e: Event): (r: Sys)
    requires e.Write? || e.End? ==> e.i < |s.ops|
  {
    match e
    case Begin =>
      s.(log := s.log.(outstanding := s.log.outstanding + 1), ops := s.ops + [Op(s.ids, {})], ids := s.ids + 1)
    case Wait =>
      s.(asleep := s.asleep + 1)
    case Write(i, b) =>
      s.(log := s.log.(targets := Record(s.log.targets, b)),
      ops := s.ops[i := s.ops[i].(logged := s.ops[i].logged + {b})],
      writes := s.writes + {(s.ops[i].id, s.epoch)})
    case End(i) =>
      var last := s.log.outstanding - 1 == 0;
      s.(log := s.log.(outstanding := s.log.outstanding - 1, committing := last),
      ops := Without(s.ops, i), asleep := if last then s.asleep else 0)
    case Clear =>
      s.(log := s.log.(targets := []))
    case Finish =>
      s.(log := s.log.(committing := false), epoch := s.epoch + 1, asleep := 0)
  }

  // Some operation that keeps within its k blocks is about to panic.
  ghost predicate Panics(k: nat, s: Sys) {
    || (exists i, b: nat :: 0 <= i < |s.ops| && Within(k, s.ops[i], b) && (TooBig(s.log) || OutsideTransaction(s.log)))
    || (s.ops != [] && EndWhileCommitting(s.log))
  }

  function Initial(size: nat): Sys {
    Sys(Shared(size, [], 0, false), [], 0, 0, 0, {})
  }

  // The state a sequence of events leads to, if each can happen in turn.
  ghost predicate Runs(k: nat, s: Sys, events: seq<Event>, t: Sys)
    decreases |events|
  {
    if events == [] then s == t
    else Enabled(k, s, events[0]) && Runs(k, Next(s, events[0]), events[1..], t)
  }

  ghost predicate Reachable(k: nat, size: nat, s: Sys) {
    exists events :: Runs(k, Initial(size), events, s)
  }

  // ------------------------------------------------------------- invariants

  // The blocks the operations may still add to the log.
  function Unspent(k: nat, ops: seq<Op>): int {
    if ops == [] then 0 else k - |ops[0].logged| + Unspent(k, ops[1..])
  }

  lemma {:induction false} UnspentAppend(k: nat, ops: seq<Op>, rest: seq<Op>)
    ensures Unspent(k, ops + rest) == Unspent(k, ops) + Unspent(k, rest)
  {
    if ops == [] {
      assert ops + rest == rest;
    } else {
      assert (ops + rest)[1..] == ops[1..] + rest;
      UnspentAppend(k, ops[1..], rest);
    }
  }

  lemma UnspentAt(k: nat, ops: seq<Op>, i: nat)
    requires i < |ops|
    ensures Unspent(k, ops) == Unspent(k, Without(ops, i)) + k - |ops[i].logged|
  {
    assert ops == ops[..i] + ([ops[i]] + ops[i + 1..]);
    UnspentAppend(k, ops[..i], [ops[i]] + ops[i + 1..]);
    UnspentAppend(k, [ops[i]], ops[i + 1..]);
    UnspentAppend(k, ops[..i], ops[i + 1..]);
    assert Unspent(k, [ops[i]]) == k - |ops[i].logged| + Unspent(k, []);
  }

  lemma {:induction false} UnspentBounds(k: nat, ops: seq<Op>)
    requires forall i :: 0 <= i < |ops| ==> |ops[i].logged| <= k
    ensures 0 <= Unspent(k, ops) <= |ops| * k
  {
    if ops != [] {
      UnspentBounds(k, ops[1..]);
    }
  }

  // An operation has logged at most k blocks, all in the current transaction.
  ghost predicate OpsOk(k: nat, s: Sys) {
    && (forall i :: 0 <= i < |s.ops| ==> |s.ops[i].logged| <= k && s.ops[i].id < s.ids)
    && (forall i, b :: 0 <= i < |s.ops| && b in s.ops[i].logged ==> b in s.log.targets)
    && (forall i, j :: 0 <= i < j < |s.ops| ==> s.ops[i].id != s.ops[j].id)
    && (forall w :: w in s.writes ==> w.0 < s.ids && w.1 <= s.epoch)
    && (forall w, i :: w in s.writes && 0 <= i < |s.ops| && w.0 == s.ops[i].id ==> w.1 == s.epoch)
    && (forall v, w :: v in s.writes && w in s.writes && v.0 == w.0 ==> v.1 == w.1)
  }

  ghost predicate Inv(k: nat, s: Sys) {
    && s.log.outstanding == |s.ops| <= 3
    && (s.log.committing ==> s.ops == [])
    && (s.ops == [] && !s.log.committing ==> s.log.targets == [])
    && |s.log.targets| + Unspent(k, s.ops) <= MAXOPBLOCKS + 2 * k
    && (forall i, j :: 0 <= i < j < |s.log.targets| ==> s.log.targets[i] != s.log.targets[j])
    && (s.asleep > 0 ==> !MayBegin(s.log))
    && OpsOk(k, s)
  }

  lemma InvBegin(k: nat, s: Sys)
    requires k <= MAXOPBLOCKS && Inv(k, s) && Enabled(k, s, Begin)
    ensures Inv(k, Next(s, Begin))
  {
    UnspentBounds(k, s.ops);
    UnspentAppend(k, s.ops, [Op(s.ids, {})]);
    assert Unspent(k, [Op(s.ids, {})]) == k + Unspent(k, []);
  }

  lemma OpsHold(k: nat, s: Sys, i: nat, b: nat)
    requires OpsOk(k, s) && i < |s.ops|
    ensures |s.ops[i].logged| <= k
    ensures b in s.ops[i].logged ==> b in s.log.targets
  {
  }

  lemma OpsWrite(k: nat, s: Sys, i: nat, b: nat)
    requires OpsOk(k, s) && i < |s.ops| && Within(k, s.ops[i], b)
    ensures OpsOk(k, Next(s, Write(i, b)))
  {
    if b in s.ops[i].logged {
      assert s.ops[i].logged + {b} == s.ops[i].logged;
    }
  }

  lemma InvWrite(k: nat, s: Sys, i: nat, b: nat)
    requires Inv(k, s) && Enabled(k, s, Write(i, b))
    ensures Inv(k, Next(s, Write(i, b)))
  {
    hide OpsOk;
    var t := Next(s, Write(i, b));
    OpsWrite(k, s, i, b);
    UnspentAt(k, s.ops, i);
    UnspentAt(k, t.ops, i);
    assert Without(t.ops, i) == Without(s.ops, i);
    if b in s.ops[i].logged {
      assert t.ops[i].logged == s.ops[i].logged;
      OpsHold(k, s, i, b);
    }
  }

  lemma OpsEnd(k: nat, s: Sys, i: nat)
    requires OpsOk(k, s) && i < |s.ops|
    ensures OpsOk(k, Next(s, End(i)))
  {
    var t := Next(s, End(i));
    assert forall j :: 0 <= j < |t.ops| ==> t.ops[j] == s.ops[if j < i then j else j + 1];
  }

  lemma InvEnd(k: nat, s: Sys, i: nat)
    requires Inv(k, s) && Enabled(k, s, End(i))
    ensures Inv(k, Next(s, End(i)))
  {
    hide OpsOk;
    UnspentAt(k, s.ops, i);
    OpsEnd(k, s, i);
    OpsHold(k, s, i, 0);
  }

  lemma InvNext(k: nat, s: Sys, e: Event)
    requires k <= MAXOPBLOCKS && Inv(k, s) && Enabled(k, s, e)
    ensures Inv(k, Next(s, e))
  {
    match e
    case Begin => InvBegin(k, s);
    case Wait =>
    case Write(i, b) => InvWrite(k, s, i, b);
    case End(i) => InvEnd(k, s, i);
    case Clear =>
    case Finish =>
  }

  lemma {:induction false} InvRuns(k: nat, s: Sys, events: seq<Event>, t: Sys)
    requires k <= MAXOPBLOCKS && Inv(k, s) && Runs(k, s, events, t)
    ensures Inv(k, t) && t.log.size == s.log.size
    decreases |events|
  {
    if events != [] {
      InvNext(k, s, events[0]);
      InvRuns(k, Next(s, events[0]), events[1..], t);
    }
  }

  // ----------------------------------------------------------- the theorems

  // Operations log any number of times, at most k <= MAXOPBLOCKS different
  // blocks each.  In every state of every run: no operation is active during a
  // commit; the blocks an operation has logged are all in the current
  // transaction, and its writes all belong to one; the blocks logged and those
  // still to come never exceed MAXOPBLOCKS + 2 * k, which is LOGSIZE for the
  // largest k; and the panics at the end of an operation and for a write
  // outside one cannot happen.
  lemma GroupCommit(k: nat, size: nat, s: Sys)
    requires k <= MAXOPBLOCKS && Reachable(k, size, s)
    ensures s.log.committing ==> s.log.outstanding == 0 && s.ops == []
    ensures forall i, b :: 0 <= i < |s.ops| && b in s.ops[i].logged ==> b in s.log.targets
    ensures 0 <= Unspent(k, s.ops) && |s.log.targets| + Unspent(k, s.ops) <= MAXOPBLOCKS + 2 * k <= LOGSIZE
    ensures forall v, w :: v in s.writes && w in s.writes && v.0 == w.0 ==> v.1 == w.1
    ensures s.ops != [] ==> !OutsideTransaction(s.log) && !EndWhileCommitting(s.log)
  {
    var events :| Runs(k, Initial(size), events, s);
    InvRuns(k, Initial(size), events, s);
    UnspentBounds(k, s.ops);
  }

  // A caller of begin_op sleeps only while it could not begin, and then some
  // operation or commit is under way whose end wakes it.
  lemma NoLostWakeup(k: nat, size: nat, s: Sys)
    requires k <= MAXOPBLOCKS && Reachable(k, size, s) && s.asleep > 0
    ensures !MayBegin(s.log) && (s.log.committing || s.ops != [])
    ensures s.log.committing ==> Enabled(k, s, Clear) && Enabled(k, Next(s, Clear), Finish)
    ensures s.log.committing ==> Next(Next(s, Clear), Finish).asleep == 0
    ensures !s.log.committing ==> Enabled(k, s, End(0)) && (|s.ops| > 1 ==> Next(s, End(0)).asleep == 0)
    ensures |s.ops| == 1 ==> Next(s, End(0)).log.committing
  {
    var events :| Runs(k, Initial(size), events, s);
    InvRuns(k, Initial(size), events, s);
  }

  lemma {:induction false} RunsAppend(k: nat, s: Sys, events: seq<Event>, t: Sys, e: Event)
    requires Runs(k, s, events, t) && Enabled(k, t, e)
    ensures Runs(k, s, events + [e], Next(t, e))
    decreases |events|
  {
    if events == [] {
      assert Runs(k, Next(t, e), (events + [e])[1..], Next(t, e));
    } else {
      RunsAppend(k, Next(s, events[0]), events[1..], t, e);
      assert (events + [e])[1..] == events[1..] + [e];
    }
  }

  lemma OneMore(k: nat, size: nat, s: Sys, e: Event) returns (t: Sys)
    requires Reachable(k, size, s) && Enabled(k, s, e)
    ensures Reachable(k, size, t) && t == Next(s, e)
  {
    var events :| Runs(k, Initial(size), events, s);
    RunsAppend(k, Initial(size), events, s, e);
    t := Next(s, e);
  }

  // Three operations fill the reservation: any number of callers may come to
  // sleep then.
  lemma {:induction false} SleepersReachable(k: nat, size: nat, n: nat) returns (s: Sys)
    ensures Reachable(k, size, s) && s.asleep == n && |s.ops| == 3
  {
    if n == 0 {
      assert Runs(k, Initial(size), [], Initial(size));
      s := OneMore(k, size, Initial(size), Begin);
      s := OneMore(k, size, s, Begin);
      s := OneMore(k, size, s, Begin);
    } else {
      s := SleepersReachable(k, size, n - 1);
      var events :| Runs(k, Initial(size), events, s);
      RunsOutstanding(k, Initial(size), events, s);
      s := OneMore(k, size, s, Wait);
    }
  }

  lemma {:induction false} RunsOutstanding(k: nat, s: Sys, events: seq<Event>, t: Sys)
    requires Runs(k, s, events, t) && s.log.outstanding == |s.ops|
    ensures t.log.outstanding == |t.ops|
    decreases |events|
  {
    if events != [] {
      RunsOutstanding(k, Next(s, events[0]), events[1..], t);
    }
  }

  // Two operations in progress, the first of which has logged a blocks and the
  // second c, in a transaction of the blocks 0 to n - 1.
  ghost predicate Filled(s: Sys, size: nat, n: nat, a: nat, c: nat) {
    && s.log.size == size && |s.ops| == s.log.outstanding == 2 && !s.log.committing
    && |s.ops[0].logged| == a && |s.ops[1].logged| == c
    && |s.log.targets| == n && (forall b :: b in s.log.targets ==> b < n)
    && (forall i, b :: 0 <= i < 2 && b in s.ops[i].logged ==> b < n)
  }

  // Logging a new block.
  lemma FillOne(k: nat, size: nat, s: Sys, n: nat, a: nat, c: nat, i: nat) returns (t: Sys)
    requires Reachable(k, size, s) && Filled(s, size, n, a, c) && n < LOGSIZE && n < size - 1
    requires i < 2 && (if i == 0 then a else c) < k
    ensures Reachable(k, size, t) && Filled(t, size, n + 1, if i == 0 then a + 1 else a, if i == 0 then c else c + 1)
    ensures t.ops[1 - i] == s.ops[1 - i]
  {
    t := OneMore(k, size, s, Write(i, n));
    assert n !in s.ops[i].logged;
  }

  // While the first operation is idle, others fill MAXOPBLOCKS blocks one by
  // one, each beginning when the one before has ended.
  lemma {:induction false} FillByOthers(k: nat, size: nat, n: nat) returns (s: Sys)
    requires k >= 1 && n <= MAXOPBLOCKS && (n > 0 ==> n < size)
    ensures Reachable(k, size, s) && Filled(s, size, n, 0, 0)
  {
    if n == 0 {
      assert Runs(k, Initial(size), [], Initial(size));
      var s1 := OneMore(k, size, Initial(size), Begin);
      s := OneMore(k, size, s1, Begin);
    } else {
      var s0 := FillByOthers(k, size, n - 1);
      var s1 := FillOne(k, size, s0, n - 1, 0, 0, 1);
      var s2 := OneMore(k, size, s1, End(1));
      s := OneMore(k, size, s2, Begin);
    }
  }

  // From there the two operations log k more blocks each.
  lemma {:induction false} FillTo(k: nat, size: nat, n: nat) returns (s: Sys, a: nat, c: nat)
    requires k >= 1 && n <= LOGSIZE && n <= MAXOPBLOCKS + 2 * k && (n > 0 ==> n < size)
    ensures Reachable(k, size, s) && Filled(s, size, n, a, c) && a <= k
    ensures n < MAXOPBLOCKS + 2 * k ==> a < k
  {
    if n <= MAXOPBLOCKS {
      s := FillByOthers(k, size, n);
      a, c := 0, 0;
    } else if n <= MAXOPBLOCKS + k {
      s := FillSecond(k, size, n - MAXOPBLOCKS);
      a, c := 0, n - MAXOPBLOCKS;
    } else {
      s := FillFirst(k, size, n - MAXOPBLOCKS - k);
      a, c := n - MAXOPBLOCKS - k, k;
    }
  }

  lemma {:induction false} FillSecond(k: nat, size: nat, c: nat) returns (s: Sys)
    requires 1 <= k && c <= k && MAXOPBLOCKS + c <= LOGSIZE && MAXOPBLOCKS + c < size
    ensures Reachable(k, size, s) && Filled(s, size, MAXOPBLOCKS + c, 0, c)
  {
    if c == 0 {
      s := FillByOthers(k, size, MAXOPBLOCKS);
    } else {
      var s0 := FillSecond(k, size, c - 1);
      s := FillOne(k, size, s0, MAXOPBLOCKS + c - 1, 0, c - 1, 1);
    }
  }

  lemma {:induction false} FillFirst(k: nat, size: nat, a: nat) returns (s: Sys)
    requires 1 <= k && a <= k && MAXOPBLOCKS + k + a <= LOGSIZE && MAXOPBLOCKS + k + a < size
    ensures Reachable(k, size, s) && Filled(s, size, MAXOPBLOCKS + k + a, a, k)
  {
    if a == 0 {
      s := FillSecond(k, size, k);
    } else {
      var s0 := FillFirst(k, size, a - 1);
      s := FillOne(k, size, s0, MAXOPBLOCKS + k + a - 1, a - 1, k, 0);
    }
  }

  // Operations that log at most k different blocks each never panic if and only
  // if three of them leave room: with MAXOPBLOCKS blocks logged, two more may
  // be active.  The guard of log_write comes before absorption, so a full log
  // refuses even a block it holds: for k = MAXOPBLOCKS no log area is large
  // enough, and for k < MAXOPBLOCKS it must have more than MAXOPBLOCKS + 2k + 1
  // blocks.
  lemma TooBigUnreachableIff(k: nat, size: nat)
    ensures (forall s :: Reachable(k, size, s) ==> !Panics(k, s))
            <==> k == 0 || (k < MAXOPBLOCKS && MAXOPBLOCKS + 2 * k < size - 1)
  {
    if k == 0 || (k < MAXOPBLOCKS && MAXOPBLOCKS + 2 * k < size - 1) {
      forall s | Reachable(k, size, s) ensures !Panics(k, s) {
        var events :| Runs(k, Initial(size), events, s);
        InvRuns(k, Initial(size), events, s);
        UnspentBounds(k, s.ops);
      }
    } else {
      var limit := if size == 0 then 0 else size - 1;
      var s, a, c := FillTo(k, size, if limit < LOGSIZE then limit else LOGSIZE);
      var b: nat := if a < k then 0 else var x :| x in s.ops[0].logged; x;
      assert Within(k, s.ops[0], b);
      assert TooBig(s.log);
      assert Panics(k, s);
    }
  }

  ghost predicate NewFor(k: nat, s: Sys, i: int, b: nat) {
    0 <= i < |s.ops| && Within(k, s.ops[i], b) && b !in s.log.targets
  }

  // A call for a block that the log does not hold yet never panics if and only
  // if k is at most MAXOPBLOCKS and the log area has more than
  // MAXOPBLOCKS + 2k blocks.
  lemma NewBlockFitsIff(k: nat, size: nat)
    ensures (forall s, i, b: nat :: Reachable(k, size, s) && NewFor(k, s, i, b) ==> !TooBig(s.log))
            <==> k == 0 || (k <= MAXOPBLOCKS && MAXOPBLOCKS + 2 * k < size)
  {
    if k == 0 || (k <= MAXOPBLOCKS && MAXOPBLOCKS + 2 * k < size) {
      forall s, i, b: nat | Reachable(k, size, s) && NewFor(k, s, i, b)
        ensures !TooBig(s.log)
      {
        var events :| Runs(k, Initial(size), events, s);
        InvRuns(k, Initial(size), events, s);
        UnspentAt(k, s.ops, i);
        UnspentBounds(k, Without(s.ops, i));
      }
    } else {
      var limit := if size == 0 then 0 else size - 1;
      var n := if limit < LOGSIZE then limit else LOGSIZE;
      var s, a, c := FillTo(k, size, n);
      assert NewFor(k, s, 0, n) && TooBig(s.log);
    }
  }

  // Operations that keep within MAXOPBLOCKS blocks can fill the log.
  lemma FullLogReachable(size: nat) returns (s: Sys)
    requires size > LOGSIZE
    ensures Reachable(MAXOPBLOCKS, size, s) && |s.log.targets| == LOGSIZE
  {
    var a, c;
    s, a, c := FillTo(MAXOPBLOCKS, size, LOGSIZE);
  }
}

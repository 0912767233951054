// The program pingpong (user/pingpong.c): parent and child take turns through
// two semaphores, both opened with 0, among any other processes.
module PingPong {
  import opened Sync

  // Process 0 is the parent, process 1 the child; their semaphores are 0 and 1.
  // turn and stage count the rounds finished and the statements of the current
  // round begun: ping, up(0), down(1) for the parent, down(0), pong, up(1) for
  // the child.  An operation begun is over when the process is Idle again.
  datatype Player = Player(turn: nat, stage: nat)

  datatype Mark = Ping | Pong

  datatype State = State(m: Machine, parent: Player, child: Player, out: seq<Mark>)

  datatype Move = Parent | Child | Other(e: Event)

  // Another process, or another pair of semaphores: never 0 or 1.
  predicate Elsewhere(m: Machine, e: Event) {
    e.p >= 2 && match e
                case StartUp(_, s) => s >= 2
                case StartDown(_, s) => s >= 2
                case StartRel(_, s) => s >= 2
                case Go(_) => true
                case Kill(_) => true
  }

  // Process p can take its next statement, or the next step of its operation.
  predicate CanMove(st: State, n: nat, who: Move) {
    && Shaped(st.m) && |st.m.procs| >= 2
    && match who
       case Parent => if st.m.procs[0].Idle? then st.parent.turn < n else CanGo(st.m, 0)
       case Child => if st.m.procs[1].Idle? then st.child.turn < n else CanGo(st.m, 1)
       case Other(e) => Enabled(st.m, e) && Elsewhere(st.m, e)
  }

  function Move1(st: State, who: Move): State
    requires Shaped(st.m) && InRange(st.m) && |st.m.procs| >= 2 && |st.m.avail| >= 2
    requires who.Other? ==> Enabled(st.m, who.e)
  {
    match who
    case Parent =>
      if !st.m.procs[0].Idle? then st.(m := Advance(st.m, 0))
      else if st.parent.stage == 0 then st.(parent := Player(st.parent.turn, 1), out := st.out + [Ping])
      else if st.parent.stage == 1 then st.(parent := Player(st.parent.turn, 2), m := Set(st.m, 0, WantUp(0)))
      else if st.parent.stage == 2 then st.(parent := Player(st.parent.turn, 3), m := Set(st.m, 0, WantDown(1)))
      else st.(parent := Player(st.parent.turn + 1, 0))
    case Child =>
      if !st.m.procs[1].Idle? then st.(m := Advance(st.m, 1))
      else if st.child.stage == 0 then st.(child := Player(st.child.turn, 1), m := Set(st.m, 1, WantDown(0)))
      else if st.child.stage == 1 then st.(child := Player(st.child.turn, 2), out := st.out + [Pong])
      else if st.child.stage == 2 then st.(child := Player(st.child.turn, 3), m := Set(st.m, 1, WantUp(1)))
      else st.(child := Player(st.child.turn + 1, 0))
    case Other(e) => st.(m := Step(st.m, e))
  }

  // ------------------------------------------------------------ invariants

  function Pings(st: State): nat {
    st.parent.turn + if st.parent.stage >= 1 then 1 else 0
  }

  function Pongs(st: State): nat {
    st.child.turn + if st.child.stage >= 2 then 1 else 0
  }

  // The statement begun last is over.
  function Done(pc: Pc): nat {
    if pc.Idle? then 1 else 0
  }

  predicate UpOn(pc: Pc, s: nat) {
    pc == WantUp(s) || (pc.UpWake? && pc.s == s) || pc == UpAdd(s)
  }

  predicate DownOn(pc: Pc, s: nat) {
    pc == WantDown(s) || pc == DownTest(s) || pc == DownCommit(s) || pc == DownSleepy(s) || pc == Asleep(s) ||
      pc == Woken(s)
  }

  // Where each player stands and what it has done to the semaphores so far.
  predicate Players(st: State)
    requires Shaped(st.m) && |st.m.procs| >= 2 && |st.m.avail| >= 2
  {
    var m := st.m;
    && st.parent.stage <= 3 && st.child.stage <= 3
    && (m.procs[0].Idle? || (st.parent.stage == 2 && UpOn(m.procs[0], 0)) ||
        (st.parent.stage == 3 && DownOn(m.procs[0], 1)))
    && (m.procs[1].Idle? || (st.child.stage == 1 && DownOn(m.procs[1], 0)) ||
        (st.child.stage == 3 && UpOn(m.procs[1], 1)))
    && m.ups[0] == st.parent.turn + (if st.parent.stage < 2 then 0
                                     else if st.parent.stage == 2 then Done(m.procs[0]) else 1)
    && m.downs[1] == st.parent.turn + (if st.parent.stage == 3 then Done(m.procs[0]) else 0)
    && m.downs[0] == st.child.turn + (if st.child.stage == 0 then 0
                                      else if st.child.stage == 1 then Done(m.procs[1]) else 1)
    && m.ups[1] == st.child.turn + (if st.child.stage == 3 then Done(m.procs[1]) else 0)
    && !m.mutex[0] && !m.mutex[1]
  }

  // A player woken up will find its semaphore available when it gets the lock.
  predicate WokenOk(m: Machine)
    requires Shaped(m) && |m.procs| >= 2 && |m.avail| >= 2
  {
    && (m.procs[0] == Woken(1) ==> m.avail[1] > 0 || Ups(m.procs[1], 1))
    && (m.procs[1] == Woken(0) ==> m.avail[0] > 0 || Ups(m.procs[0], 0))
  }

  predicate Ups(pc: Pc, s: nat) {
    (pc.UpWake? && pc.s == s) || pc == UpAdd(s)
  }

  // No other process touches the two semaphores.
  predicate Unshared(m: Machine) {
    forall p :: 2 <= p < |m.procs| && !m.procs[p].Idle? ==> m.procs[p].s >= 2
  }

  function Turns(k: nat): seq<Mark> {
    seq(k, i => if i % 2 == 0 then Ping else Pong)
  }

  ghost predicate Good(st: State, n: nat, init: seq<int>) {
    && Inv(st.m, init) && |st.m.procs| >= 2 && |st.m.avail| >= 2 && init[0] == 0 && init[1] == 0
    && Players(st) && Unshared(st.m) && WokenOk(st.m)
    && st.parent.turn <= n && st.child.turn <= n
    && (st.parent.turn == n ==> st.parent.stage == 0) && (st.child.turn == n ==> st.child.stage == 0)
    && st.out == Turns(Pings(st) + Pongs(st))
  }

  // At most one ping is unanswered.
  lemma InStep(st: State, n: nat, init: seq<int>)
    requires Good(st, n, init)
    ensures 0 <= Pings(st) - Pongs(st) <= 1
  {
    hide Excl, WakeOk, SleepOk, Kinds, Unshared;
    assert CountOk(st.m, init, 0) && CountOk(st.m, init, 1);
  }

  lemma AdvanceCounts(m: Machine, init: seq<int>, p: nat)
    requires Inv(m, init) && p < |m.procs| && CanGo(m, p)
    ensures var r := Advance(m, p);
      && Shaped(r) && |r.avail| == |m.avail| && r.mutex == m.mutex && |r.procs| == |m.procs|
      && (forall s: nat :: s < |m.avail| && s != m.procs[p].s ==> r.ups[s] == m.ups[s] && r.downs[s] == m.downs[s])
      && (forall s: nat :: s < |m.avail| && s != m.procs[p].s ==> r.avail[s] == m.avail[s])
      && (forall q :: 0 <= q < |m.procs| && q != p ==>
          r.procs[q] == m.procs[q] || (m.procs[q] == Asleep(m.procs[p].s) && r.procs[q] == Woken(m.procs[p].s)))
      && (forall s: nat :: s < |m.avail| && UpOn(m.procs[p], s) ==>
          (UpOn(r.procs[p], s) || r.procs[p] == Idle) && r.downs == m.downs && r.ups[s] == m.ups[s] + Done(r.procs[p]))
      && (forall s: nat :: s < |m.avail| && DownOn(m.procs[p], s) ==>
          (DownOn(r.procs[p], s) || r.procs[p] == Idle) && r.ups == m.ups &&
            r.downs[s] == m.downs[s] + Done(r.procs[p]))
      && (r.procs[p].Idle? || r.procs[p].s == m.procs[p].s)
  {
    hide Excl, WakeOk, SleepOk, Kinds, Counts;
  }

  // Player p is in an operation of the game.
  predicate Plays(m: Machine, p: nat)
    requires p < 2 <= |m.procs|
  {
    UpOn(m.procs[p], p) || DownOn(m.procs[p], 1 - p)
  }

  // A step of one player and what it does to both.
  lemma AdvanceRank(m: Machine, init: seq<int>, p: nat)
    requires Inv(m, init) && p < 2 <= |m.procs| && |m.avail| >= 2 && CanGo(m, p) && Plays(m, p)
    requires m.procs[p] == Woken(1 - p) ==> m.avail[1 - p] > 0 || Ups(m.procs[1 - p], 1 - p)
    ensures Shaped(Advance(m, p)) && |Advance(m, p).procs| == |m.procs| && |Advance(m, p).avail| == |m.avail|
    ensures Rank(Advance(m, p), p, 1 - p) < Rank(m, p, 1 - p)
  {
    hide Excl, WakeOk, SleepOk, Kinds, Counts;
    TwoCounts(m, init);
    if m.procs[p] == Woken(1 - p) {
      assert !Holds(m.procs[1 - p], 1 - p);
    }
  }

  lemma TwoCounts(m: Machine, init: seq<int>)
    requires Inv(m, init) && |m.avail| >= 2
    ensures m.avail[0] >= 0 && m.avail[1] >= 0 && CountOk(m, init, 0) && CountOk(m, init, 1)
  {
    hide Excl, WakeOk, SleepOk, Kinds;
    assert CountOk(m, init, 0) && CountOk(m, init, 1);
  }

  lemma AdvanceOther(m: Machine, init: seq<int>, p: nat)
    requires Inv(m, init) && p < 2 <= |m.procs| && |m.avail| >= 2 && CanGo(m, p) && Plays(m, p)
    requires m.procs[1 - p].Idle? || Plays(m, 1 - p)
    ensures Shaped(Advance(m, p)) && |Advance(m, p).procs| == |m.procs| && |Advance(m, p).avail| == |m.avail|
    ensures var r := Advance(m, p);
      && (r.procs[1 - p] == m.procs[1 - p] || (m.procs[1 - p] == Asleep(p) && r.procs[1 - p] == Woken(p) &&
                                               Ups(r.procs[p], p)))
      && r.avail[p] >= m.avail[p]
      && (m.procs[1 - p] == Woken(p) && Ups(m.procs[p], p) ==> r.avail[p] > 0 || Ups(r.procs[p], p))
      && r.procs[p] != Woken(1 - p)
      && Rank(r, 1 - p, p) <= Rank(m, 1 - p, p)
  {
    hide Excl, WakeOk, SleepOk, Kinds, Counts;
    TwoCounts(m, init);
  }

  lemma AdvanceWoken(m: Machine, init: seq<int>, p: nat)
    requires Inv(m, init) && p < 2 <= |m.procs| && |m.avail| >= 2 && CanGo(m, p) && Plays(m, p)
    requires m.procs[1 - p].Idle? || Plays(m, 1 - p)
    requires WokenOk(m)
    ensures Shaped(Advance(m, p)) && |Advance(m, p).procs| == |m.procs| && |Advance(m, p).avail| == |m.avail|
    ensures WokenOk(Advance(m, p))
  {
    hide Inv, Advance;
    AdvanceOther(m, init, p);
  }

  // The steps of its operation that process p, who waits on s, has still to
  // take at most, apart from being woken up.
  function Rank(m: Machine, p: nat, s: nat): nat
    requires p < |m.procs| && s < |m.avail|
  {
    match m.procs[p]
    case Idle => 0
    case WantUp(_) => |m.procs| + 3
    case UpWake(_, k) => 2 + if k < |m.procs| then |m.procs| - k else 0
    case UpAdd(_) => 1
    case WantDown(_) => 7
    case DownTest(_) => if m.avail[s] > 0 then 1 else 6
    case DownCommit(_) => 5
    case DownSleepy(_) => 4
    case Asleep(_) => 3
    case Woken(_) => 2
    case _ => 0
  }

  lemma MoveKeeps(st: State, n: nat, init: seq<int>, who: Move)
    requires Good(st, n, init) && CanMove(st, n, who)
    ensures Good(Move1(st, who), n, init)
  {
    hide Inv, Players, Unshared, WokenOk, CanGo, Advance, Enabled, Elsewhere, Step;
    match who
    case Parent => if st.m.procs[0].Idle? { ParentMove(st, n, init); } else { ParentGoes(st, n, init); }
    case Child => if st.m.procs[1].Idle? { ChildMove(st, n, init); } else { ChildGoes(st, n, init); }
    case Other(e) => OtherMove(st, n, init, e);
  }

  lemma ParentGoes(st: State, n: nat, init: seq<int>)
    requires Good(st, n, init) && !st.m.procs[0].Idle? && CanGo(st.m, 0)
    ensures Good(Move1(st, Parent), n, init)
  {
    hide Excl, WakeOk, SleepOk, Kinds, Counts, CanGo, Advance;
    InStep(st, n, init);
    StepKeeps(st.m, init, Go(0));
    AdvanceCounts(st.m, init, 0);
    AdvanceWoken(st.m, init, 0);
  }

  lemma ChildGoes(st: State, n: nat, init: seq<int>)
    requires Good(st, n, init) && !st.m.procs[1].Idle? && CanGo(st.m, 1)
    ensures Good(Move1(st, Child), n, init)
  {
    hide Excl, WakeOk, SleepOk, Kinds, Counts, CanGo, Advance;
    InStep(st, n, init);
    StepKeeps(st.m, init, Go(1));
    AdvanceCounts(st.m, init, 1);
    AdvanceWoken(st.m, init, 1);
  }

  lemma ParentMove(st: State, n: nat, init: seq<int>)
    requires Good(st, n, init) && st.m.procs[0].Idle? && st.parent.turn < n
    ensures Good(Move1(st, Parent), n, init)
  {
    hide Excl, WakeOk, SleepOk, Kinds, Counts, CanGo, Advance;
    InStep(st, n, init);
    if st.parent.stage == 1 {
      StepKeeps(st.m, init, StartUp(0, 0));
    } else if st.parent.stage == 2 {
      StepKeeps(st.m, init, StartDown(0, 1));
    }
    InStepNext(st, n, init);
  }

  // When the parent is about to print, every ping has been answered; when the
  // child is, one has not.
  lemma InStepNext(st: State, n: nat, init: seq<int>)
    requires Good(st, n, init)
    ensures st.m.procs[0].Idle? && st.parent.stage == 0 ==> Pings(st) == Pongs(st)
    ensures st.m.procs[1].Idle? && st.child.stage == 1 ==> Pings(st) == Pongs(st) + 1
  {
    hide Excl, WakeOk, SleepOk, Kinds, Unshared;
    assert CountOk(st.m, init, 0) && CountOk(st.m, init, 1);
  }

  lemma ChildMove(st: State, n: nat, init: seq<int>)
    requires Good(st, n, init) && st.m.procs[1].Idle? && st.child.turn < n
    ensures Good(Move1(st, Child), n, init)
  {
    hide Excl, WakeOk, SleepOk, Kinds, Counts, CanGo, Advance;
    InStep(st, n, init);
    if st.child.stage == 0 {
      StepKeeps(st.m, init, StartDown(1, 0));
    } else if st.child.stage == 2 {
      StepKeeps(st.m, init, StartUp(1, 1));
    }
    InStepNext(st, n, init);
  }

  lemma OtherMove(st: State, n: nat, init: seq<int>, e: Event)
    requires Good(st, n, init) && Enabled(st.m, e) && Elsewhere(st.m, e)
    ensures Good(Move1(st, Other(e)), n, init)
  {
    hide Inv, Advance, Players, WokenOk;
    StepKeeps(st.m, init, e);
    PlayersLow(st);
    OtherStep(st.m, init, e);
    OtherPlayers(st, n, init, e);
  }

  lemma PlayersLow(st: State)
    requires Shaped(st.m) && |st.m.procs| >= 2 && |st.m.avail| >= 2 && Players(st)
    ensures forall p :: 0 <= p < 2 && !st.m.procs[p].Idle? ==> st.m.procs[p].s < 2
  {
  }

  // A step elsewhere leaves the semaphores of the game and its players alone,
  // but for a wakeup of other sleepers.
  lemma OtherStep(m: Machine, init: seq<int>, e: Event)
    requires Inv(m, init) && Enabled(m, e) && Elsewhere(m, e) && Unshared(m) && |m.procs| >= 2 && |m.avail| >= 2
    requires forall p :: 0 <= p < 2 && !m.procs[p].Idle? ==> m.procs[p].s < 2
    ensures Shaped(Step(m, e)) && |Step(m, e).procs| == |m.procs| && |Step(m, e).avail| == |m.avail|
    ensures var r := Step(m, e);
      && Unshared(r) && r.procs[0] == m.procs[0] && r.procs[1] == m.procs[1] && r.mutex == m.mutex
      && forall s :: 0 <= s < 2 ==> r.ups[s] == m.ups[s] && r.downs[s] == m.downs[s] && r.avail[s] == m.avail[s]
  {
    hide Excl, WakeOk, SleepOk, Kinds, Counts, Advance;
    if e.Go? {
      AdvanceCounts(m, init, e.p);
    }
  }

  lemma OtherPlayers(st: State, n: nat, init: seq<int>, e: Event)
    requires Good(st, n, init) && Enabled(st.m, e) && Elsewhere(st.m, e)
    requires var m, r := st.m, Step(st.m, e);
      && Shaped(r) && |r.procs| == |m.procs| && |r.avail| == |m.avail| && r.procs[0] == m.procs[0]
      && r.procs[1] == m.procs[1] && r.mutex == m.mutex
      && forall s :: 0 <= s < 2 ==> r.ups[s] == m.ups[s] && r.downs[s] == m.downs[s] && r.avail[s] == m.avail[s]
    ensures Players(Move1(st, Other(e))) && WokenOk(Move1(st, Other(e)).m)
  {
    hide Inv, Step, Enabled, Unshared;
  }

  // ---------------------------------------------------------------- progress

  predicate Over(st: State, n: nat) {
    st.parent == Player(n, 0) && st.child == Player(n, 0)
  }

  // The wakeup of player p has come to process k, which is not a player and is
  // about to sleep on something else: it holds its own p->lock.
  predicate WaitsFor(m: Machine, p: nat, k: nat)
    requires p < |m.procs|
  {
    m.procs[p].UpWake? && m.procs[p].k == k && 2 <= k < |m.procs| && OwnLock(m.procs[k])
  }

  predicate PlayerMoves(st: State, n: nat) {
    CanMove(st, n, Parent) || CanMove(st, n, Child)
  }

  // A player that is awake in an operation can go on, or the other player has
  // the lock it wants and can, or one of them waits in wakeup.
  lemma AwakeGoes(st: State, n: nat, init: seq<int>, p: nat) returns (q: nat)
    requires Good(st, n, init) && p < 2 && !st.m.procs[p].Idle? && !st.m.procs[p].Asleep?
    ensures q < 2 && !st.m.procs[q].Idle?
    ensures CanGo(st.m, q) || (st.m.procs[q].UpWake? && WaitsFor(st.m, q, st.m.procs[q].k))
  {
    hide Excl, WakeOk, SleepOk, Kinds, Counts, WokenOk;
    q := p;
    var s := st.m.procs[p].s;
    if !CanGo(st.m, p) && !st.m.procs[p].UpWake? {
      var h: nat :| h < |st.m.procs| && Holds(st.m.procs[h], s);
      q := h;
    }
    if !CanGo(st.m, q) && st.m.procs[q].k < 2 {
      q := st.m.procs[q].k;
    }
  }

  // Until both players are done one of them can move, or waits for a process
  // that is about to sleep; that process can, and after at most two steps of it
  // the player goes on.
  lemma NeverStuck(st: State, n: nat, init: seq<int>) returns (p: nat, k: nat, moves: seq<Move>, r: State)
    requires Good(st, n, init) && !Over(st, n)
    ensures p < 2 && |moves| <= 2 && if moves == [] then r == st else WaitsFor(st.m, p, k)
    ensures forall i :: 0 <= i < |moves| ==> moves[i] == Other(Go(k))
    ensures Reaches(st, n, moves, r) && PlayerMoves(r, n)
  {
    hide Excl, WakeOk, SleepOk, Kinds, Players, Unshared, Counts, CanGo, WokenOk;
    var m := st.m;
    p, k, moves, r := 0, 0, [], st;
    if m.procs[0].Idle? && st.parent.turn < n {
      assert CanMove(st, n, Parent);
    } else if m.procs[1].Idle? && st.child.turn < n {
      assert CanMove(st, n, Child);
    } else {
      if forall q :: 0 <= q < 2 && !m.procs[q].Idle? ==> m.procs[q].Asleep? {
        BothAsleep(st, n, init);
        assert false;
      }
      var a: nat :| a < 2 && !m.procs[a].Idle? && !m.procs[a].Asleep?;
      p := AwakeGoes(st, n, init, a);
      if CanGo(m, p) {
        assert CanMove(st, n, if p == 0 then Parent else Child);
      } else {
        k := m.procs[p].k;
        moves, r := LetSleep(st, n, init, p, k);
      }
    }
  }

  // A player asleep would have been sent its token by the other.
  lemma BothAsleep(st: State, n: nat, init: seq<int>)
    requires Good(st, n, init)
    requires forall q :: 0 <= q < 2 && !st.m.procs[q].Idle? ==> st.m.procs[q].Asleep?
    requires st.m.procs[0].Idle? ==> st.parent.turn == n
    requires st.m.procs[1].Idle? ==> st.child.turn == n
    ensures Over(st, n)
  {
    hide Excl, WakeOk, SleepOk, Kinds, CanGo;
    var m := st.m;
    assert Free(m, 0) && Free(m, 1);
    NoneAsleep(m, init, 0);
    NoneAsleep(m, init, 1);
    var a, b := CountOk(m, init, 0), CountOk(m, init, 1);
  }

  lemma LetSleep(st: State, n: nat, init: seq<int>, p: nat, k: nat) returns (moves: seq<Move>, r: State)
    requires Good(st, n, init) && p < 2 && WaitsFor(st.m, p, k)
    ensures |moves| <= 2 && (forall i :: 0 <= i < |moves| ==> moves[i] == Other(Go(k)))
    ensures Reaches(st, n, moves, r) && PlayerMoves(r, n)
  {
    hide Excl, WakeOk, SleepOk, Kinds, Counts, WokenOk, Players, Unshared;
    var who := Other(Go(k));
    moves, r := [who], Move1(st, who);
    assert Reaches(r, n, moves[1..], r);
    if st.m.procs[k].DownCommit? {
      var r1 := r;
      moves, r := [who, who], Move1(r1, who);
      assert moves[1..][1..] == [] && Reaches(r, n, moves[1..][1..], r);
      assert Reaches(r1, n, moves[1..], r);
    }
    assert CanMove(r, n, if p == 0 then Parent else Child);
  }

  // ------------------------------------------------------------- termination

  // The moves each player has still to make, at most.
  function Round(m: Machine): nat { |m.procs| + 14 }

  function ParentLeft(st: State, n: nat): int
    requires |st.m.procs| >= 2 && |st.m.avail| >= 2
  {
    (n - st.parent.turn) * Round(st.m) + Rank(st.m, 0, 1)
    - match st.parent.stage case 0 => 0 case 1 => 1 case 2 => |st.m.procs| + 5 case _ => |st.m.procs| + 13
  }

  function ChildLeft(st: State, n: nat): int
    requires |st.m.procs| >= 2 && |st.m.avail| >= 2
  {
    (n - st.child.turn) * Round(st.m) + Rank(st.m, 1, 0)
    - match st.child.stage case 0 => 0 case 1 => 8 case 2 => 9 case _ => |st.m.procs| + 13
  }

  function Left(st: State, n: nat): int
    requires |st.m.procs| >= 2 && |st.m.avail| >= 2
  {
    ParentLeft(st, n) + ChildLeft(st, n)
  }

  lemma LeftPositive(st: State, n: nat, init: seq<int>)
    requires Good(st, n, init)
    ensures Left(st, n) >= 0
  {
    hide Excl, WakeOk, SleepOk, Kinds, Counts, Unshared, WokenOk;
    OneRound(n - st.parent.turn, Round(st.m));
    OneRound(n - st.child.turn, Round(st.m));
  }

  lemma OneRound(a: nat, b: nat)
    ensures a * b >= 0 && (a > 0 ==> a * b == (a - 1) * b + b && a * b >= b)
  {
  }

  // Each move of a player leaves fewer, and no move of anybody else adds any.
  lemma MoveLeft(st: State, n: nat, init: seq<int>, who: Move)
    requires Good(st, n, init) && CanMove(st, n, who) && Good(Move1(st, who), n, init)
    ensures Left(Move1(st, who), n) <= Left(st, n) - if who.Other? then 0 else 1
  {
    hide Good, Left, CanGo, Elsewhere, Move1;
    match who
    case Parent => ParentMoveLeft(st, n, init);
    case Child => ChildMoveLeft(st, n, init);
    case Other(e) => OtherLeft(st, n, init, e);
  }

  lemma AdvanceLeft(st: State, n: nat, r: Machine)
    requires |st.m.procs| == |r.procs| >= 2 && |st.m.avail| >= 2 && |r.avail| >= 2
    requires Rank(r, 0, 1) + Rank(r, 1, 0) <= Rank(st.m, 0, 1) + Rank(st.m, 1, 0) - 1
    ensures Left(st.(m := r), n) <= Left(st, n) - 1
  {
    hide Rank;
  }

  lemma ParentMoveLeft(st: State, n: nat, init: seq<int>)
    requires Good(st, n, init) && CanMove(st, n, Parent) && Good(Move1(st, Parent), n, init)
    ensures Left(Move1(st, Parent), n) <= Left(st, n) - 1
  {
    hide Excl, WakeOk, SleepOk, Kinds, Counts, CanGo, Advance, Round, Left, Rank, Unshared;
    if st.m.procs[0].Idle? {
      ParentBetweenLeft(st, n);
    } else {
      AdvanceRank(st.m, init, 0);
      AdvanceOther(st.m, init, 0);
      AdvanceLeft(st, n, Advance(st.m, 0));
    }
  }

  lemma ParentBetweenLeft(st: State, n: nat)
    requires Shaped(st.m) && InRange(st.m) && |st.m.procs| >= 2 && |st.m.avail| >= 2 && st.m.procs[0].Idle?
    requires st.parent.turn < n
    ensures Left(Move1(st, Parent), n) <= Left(st, n) - 1
  {
    OneRound(n - st.parent.turn, Round(st.m));
  }

  lemma ChildMoveLeft(st: State, n: nat, init: seq<int>)
    requires Good(st, n, init) && CanMove(st, n, Child) && Good(Move1(st, Child), n, init)
    ensures Left(Move1(st, Child), n) <= Left(st, n) - 1
  {
    hide Excl, WakeOk, SleepOk, Kinds, Counts, CanGo, Advance, Round, Left, Rank, Unshared;
    if st.m.procs[1].Idle? {
      ChildBetweenLeft(st, n);
    } else {
      AdvanceRank(st.m, init, 1);
      AdvanceOther(st.m, init, 1);
      AdvanceLeft(st, n, Advance(st.m, 1));
    }
  }

  lemma ChildBetweenLeft(st: State, n: nat)
    requires Shaped(st.m) && InRange(st.m) && |st.m.procs| >= 2 && |st.m.avail| >= 2 && st.m.procs[1].Idle?
    requires st.child.turn < n
    ensures Left(Move1(st, Child), n) <= Left(st, n) - 1
  {
    OneRound(n - st.child.turn, Round(st.m));
  }

  lemma OtherLeft(st: State, n: nat, init: seq<int>, e: Event)
    requires Good(st, n, init) && Enabled(st.m, e) && Elsewhere(st.m, e)
    ensures |Step(st.m, e).procs| == |st.m.procs| && |Step(st.m, e).avail| == |st.m.avail|
    ensures Left(Move1(st, Other(e)), n) == Left(st, n)
  {
    hide Excl, WakeOk, SleepOk, Kinds, Counts, CanGo, WokenOk, Step, Unshared, Enabled, Elsewhere, Left, Rank;
    OtherSame(st.m, init, e);
    LeftSame(st, Move1(st, Other(e)), n);
  }

  lemma LeftSame(st: State, st': State, n: nat)
    requires |st.m.procs| == |st'.m.procs| >= 2 && |st.m.avail| == |st'.m.avail| >= 2
    requires st.parent == st'.parent && st.child == st'.child
    requires st.m.procs[0] == st'.m.procs[0] && st.m.procs[1] == st'.m.procs[1]
    requires st.m.avail[0] == st'.m.avail[0] && st.m.avail[1] == st'.m.avail[1]
    ensures Left(st', n) == Left(st, n)
  {
    assert Rank(st'.m, 0, 1) == Rank(st.m, 0, 1) && Rank(st'.m, 1, 0) == Rank(st.m, 1, 0);
    hide Rank;
  }

  lemma OtherSame(m: Machine, init: seq<int>, e: Event)
    requires Inv(m, init) && Unshared(m) && Enabled(m, e) && Elsewhere(m, e) && |m.procs| >= 2 && |m.avail| >= 2
    requires forall q :: 0 <= q < 2 && !m.procs[q].Idle? ==> m.procs[q].s < 2
    ensures |Step(m, e).procs| == |m.procs| && |Step(m, e).avail| == |m.avail|
    ensures Step(m, e).procs[0] == m.procs[0] && Step(m, e).procs[1] == m.procs[1]
    ensures Step(m, e).avail[0] == m.avail[0] && Step(m, e).avail[1] == m.avail[1]
  {
    hide Excl, WakeOk, SleepOk, Kinds, Counts;
  }

  // The moves of the players.
  function Played(moves: seq<Move>): nat {
    if moves == [] then 0 else (if moves[0].Other? then 0 else 1) + Played(moves[1..])
  }

  // ------------------------------------------------------------------ all runs

  ghost predicate Reaches(st: State, n: nat, moves: seq<Move>, r: State)
    decreases |moves|
  {
    if moves == [] then r == st
    else
      && CanMove(st, n, moves[0]) && InRange(st.m) && |st.m.avail| >= 2
      && Reaches(Move1(st, moves[0]), n, moves[1..], r)
  }

  lemma {:induction false} GoodReaches(st: State, n: nat, init: seq<int>, moves: seq<Move>, r: State)
    requires Good(st, n, init) && Reaches(st, n, moves, r)
    ensures Good(r, n, init) && Played(moves) + Left(r, n) <= Left(st, n) && |r.m.procs| == |st.m.procs|
    decreases |moves|
  {
    hide Players, Unshared, WokenOk, Inv, Move1, Left;
    if moves != [] {
      MoveKeeps(st, n, init, moves[0]);
      MoveLeft(st, n, init, moves[0]);
      MoveSize(st, n, init, moves[0]);
      GoodReaches(Move1(st, moves[0]), n, init, moves[1..], r);
    }
  }

  lemma MoveSize(st: State, n: nat, init: seq<int>, who: Move)
    requires Good(st, n, init) && CanMove(st, n, who)
    ensures |Move1(st, who).m.procs| == |st.m.procs|
  {
    hide Excl, WakeOk, SleepOk, Kinds, Counts, CanGo, Players, WokenOk, Unshared, Turns, Elsewhere;
  }

  lemma {:induction false} ReachesOn(st: State, n: nat, moves: seq<Move>, mid: State, more: seq<Move>, r: State)
    requires Reaches(st, n, moves, mid) && Reaches(mid, n, more, r)
    ensures Reaches(st, n, moves + more, r)
    decreases |moves|
  {
    hide Move1, CanGo, Elsewhere, Advance, Step;
    if moves == [] {
      assert moves + more == more;
    } else {
      assert (moves + more)[1..] == moves[1..] + more;
      ReachesOn(Move1(st, moves[0]), n, moves[1..], mid, more, r);
    }
  }

  // From every state of the game there is a way to its end.
  lemma {:induction false} CanFinish(st: State, n: nat, init: seq<int>) returns (moves: seq<Move>, r: State)
    requires Good(st, n, init)
    ensures Reaches(st, n, moves, r) && Over(r, n)
    decreases (LeftPositive(st, n, init); Left(st, n))
  {
    hide Good, Left, CanMove;
    if Over(st, n) {
      return [], st;
    }
    var p, k, first, mid := NeverStuck(st, n, init);
    GoodReaches(st, n, init, first, mid);
    var next := PlayerStep(mid, n, init);
    LeftPositive(st, n, init);
    LeftPositive(next.1, n, init);
    var more;
    more, r := CanFinish(next.1, n, init);
    ReachesOn(mid, n, [next.0], next.1, more, r);
    ReachesOn(st, n, first, mid, [next.0] + more, r);
    moves := first + ([next.0] + more);
  }

  lemma PlayerStep(st: State, n: nat, init: seq<int>) returns (next: (Move, State))
    requires Good(st, n, init) && PlayerMoves(st, n)
    ensures Good(next.1, n, init) && Left(next.1, n) < Left(st, n) && Reaches(st, n, [next.0], next.1)
  {
    hide Excl, WakeOk, SleepOk, Kinds, Counts, CanGo, Advance, Players, Unshared, WokenOk, Left, CanMove;
    var who := if CanMove(st, n, Parent) then Parent else Child;
    MoveKeeps(st, n, init, who);
    MoveLeft(st, n, init, who);
    next := (who, Move1(st, who));
    assert Reaches(next.1, n, [who][1..], next.1);
  }

  // Both players are about to begin, and sem_open has given them the distinct
  // semaphores 0 and 1 with value 0.
  ghost predicate Begin(st: State, init: seq<int>) {
    && Start(st.m, init) && |st.m.procs| >= 2 && |init| >= 2 && init[0] == 0 && init[1] == 0
    && (forall s :: 0 <= s < |init| ==> init[s] >= 0)
    && !st.m.mutex[0] && !st.m.mutex[1]
    && st.parent == Player(0, 0) && st.child == Player(0, 0) && st.out == []
  }

  // For any number of rounds and any interleaving: the output alternates,
  // starting with ping, with at most one ping unanswered; the players make a
  // bounded number of moves; and until both are done one of them can move, or
  // waits for a process that is about to sleep and can after two steps of it.
  lemma Alternates(st: State, n: nat, init: seq<int>, moves: seq<Move>, r: State)
    requires Begin(st, init) && Reaches(st, n, moves, r)
    ensures r.out == Turns(Pings(r) + Pongs(r)) && 0 <= Pings(r) - Pongs(r) <= 1
    ensures Over(r, n) ==> r.out == Turns(2 * n)
    ensures Played(moves) <= 2 * n * (|st.m.procs| + 14)
    ensures Over(r, n) || PlayerMoves(r, n) ||
            exists p: nat, k: nat :: p < 2 <= |r.m.procs| && WaitsFor(r.m, p, k) && CanMove(r, n, Other(Go(k)))
  {
    hide Excl, WakeOk, SleepOk, Kinds, CanMove, Reaches, Players, Unshared, WokenOk, Start, Counts, Left, Turns;
    BeginGood(st, n, init);
    GoodReaches(st, n, init, moves, r);
    LeftPositive(r, n, init);
    InStep(r, n, init);
    if !Over(r, n) {
      var p, k, more, end := NeverStuck(r, n, init);
      if more != [] {
        FirstMove(r, n, more, end);
        assert more[0] == Other(Go(k));
        assert WaitsFor(r.m, p, k) && CanMove(r, n, Other(Go(k)));
      }
    }
  }

  lemma BeginGood(st: State, n: nat, init: seq<int>)
    requires Begin(st, init)
    ensures Good(st, n, init) && Left(st, n) == 2 * n * (|st.m.procs| + 14)
  {
    hide Excl, WakeOk, SleepOk, Kinds;
    StartInv(st.m, init);
    assert st.out == Turns(0);
  }

  lemma FirstMove(st: State, n: nat, moves: seq<Move>, r: State)
    requires moves != [] && Reaches(st, n, moves, r)
    ensures CanMove(st, n, moves[0])
  {
  }
}

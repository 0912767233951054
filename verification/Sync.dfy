// Sleep and wakeup (proc.c), and the semaphores and sleeplocks built on them
// (semaphore.c, sleeplock.c), as the steps of any number of processes.  A step
// is what one process does between two points where another can interfere.
module Sync {

  // Where a process stands in an operation on object s.  A process in an Up*,
  // Rel* or Down* state holds the lock of s, except that in DownSleepy it has
  // exchanged it for its own p->lock, which DownCommit holds as well.
  datatype Pc =
    | Idle
    | WantUp(s: nat)
    | UpWake(s: nat, k: nat)
    | UpAdd(s: nat)
    | WantRel(s: nat)
    | RelWake(s: nat, k: nat)
    | WantDown(s: nat)
    | DownTest(s: nat)
    | DownCommit(s: nat)
    | DownSleepy(s: nat)
    | Asleep(s: nat)
    | Woken(s: nat)

  // avail is resources of a semaphore, and 1 - locked of a sleeplock, whose
  // owner is the process that holds it.
  datatype Machine = Machine(
    procs: seq<Pc>,
    avail: seq<int>,
    mutex: seq<bool>,
    owner: seq<int>,
    ups: seq<nat>,
    downs: seq<nat>)

  datatype Event =
    | StartUp(p: nat, s: nat)
    | StartDown(p: nat, s: nat)
    | StartRel(p: nat, s: nat)
    | Go(p: nat)
    | Kill(p: nat)

  predicate Shaped(m: Machine) {
    |m.mutex| == |m.owner| == |m.ups| == |m.downs| == |m.avail|
  }

  predicate Holds(pc: Pc, s: nat) {
    match pc
    case UpWake(t, _) => t == s
    case UpAdd(t) => t == s
    case RelWake(t, _) => t == s
    case DownTest(t) => t == s
    case DownCommit(t) => t == s
    case _ => false
  }

  // Asleep on s, or past the last test and on the way to sleep.
  predicate Sleeper(pc: Pc, s: nat) {
    pc == DownCommit(s) || pc == DownSleepy(s) || pc == Asleep(s)
  }

  predicate Free(m: Machine, s: nat) {
    forall p :: 0 <= p < |m.procs| ==> !Holds(m.procs[p], s)
  }

  predicate OwnLock(pc: Pc) {
    pc.DownCommit? || pc.DownSleepy?
  }

  // The spinlock a process waits for is free: lk in acquire, and the p->lock of
  // the process that wakeup has come to.
  predicate CanGo(m: Machine, p: nat)
    requires p < |m.procs|
  {
    match m.procs[p]
    case Idle => false
    case WantUp(s) => Free(m, s)
    case UpWake(_, k) => k == p || k >= |m.procs| || !OwnLock(m.procs[k])
    case UpAdd(_) => true
    case WantRel(s) => Free(m, s)
    case RelWake(_, k) => k == p || k >= |m.procs| || !OwnLock(m.procs[k])
    case WantDown(s) => Free(m, s)
    case DownTest(_) => true
    case DownCommit(_) => true
    case DownSleepy(_) => true
    case Asleep(_) => false
    case Woken(s) => Free(m, s)
  }

  predicate Enabled(m: Machine, e: Event) {
    && Shaped(m)
    && e.p < |m.procs|
    && match e
       case StartUp(p, s) => m.procs[p] == Idle && s < |m.avail| && !m.mutex[s]
       case StartDown(p, s) => m.procs[p] == Idle && s < |m.avail|
       case StartRel(p, s) => m.procs[p] == Idle && s < |m.avail| && m.mutex[s] && m.owner[s] == p
       case Go(p) => CanGo(m, p)
       case Kill(p) => m.procs[p].Asleep?
  }

  // wakeup at entry k of the process table.
  function WakeOne(procs: seq<Pc>, p: nat, s: nat, k: nat): seq<Pc> {
    if k < |procs| && k != p && procs[k] == Asleep(s) then procs[k := Woken(s)] else procs
  }

  function Set(m: Machine, p: nat, pc: Pc): Machine
    requires p < |m.procs|
  {
    m.(procs := m.procs[p := pc])
  }

  predicate InRange(m: Machine) {
    forall p :: 0 <= p < |m.procs| ==> m.procs[p].Idle? || m.procs[p].s < |m.avail|
  }

  function Advance(m: Machine, p: nat): Machine
    requires Shaped(m) && InRange(m) && p < |m.procs|
  {
    match m.procs[p]
    case Idle => m
    case WantUp(s) => Set(m, p, if m.avail[s] == 0 then UpWake(s, 0) else UpAdd(s))
    case UpWake(s, k) =>
      if k >= |m.procs| then Set(m, p, UpAdd(s))
      else m.(procs := WakeOne(m.procs, p, s, k)[p := UpWake(s, k + 1)])
    case UpAdd(s) => Set(m, p, Idle).(avail := m.avail[s := m.avail[s] + 1], ups := m.ups[s := m.ups[s] + 1])
    case WantRel(s) => Set(m, p, RelWake(s, 0)).(avail := m.avail[s := 1], owner := m.owner[s := -1],
                                                 ups := m.ups[s := m.ups[s] + 1])
    case RelWake(s, k) =>
      if k >= |m.procs| then Set(m, p, Idle)
      else m.(procs := WakeOne(m.procs, p, s, k)[p := RelWake(s, k + 1)])
    case WantDown(s) => Set(m, p, DownTest(s))
    case DownTest(s) =>
      if m.avail[s] == 0 then Set(m, p, DownCommit(s))
      else Set(m, p, Idle).(avail := m.avail[s := m.avail[s] - 1], owner := m.owner[s := p],
                            downs := m.downs[s := m.downs[s] + 1])
    case DownCommit(s) => Set(m, p, DownSleepy(s))
    case DownSleepy(s) => Set(m, p, Asleep(s))
    case Asleep(_) => m
    case Woken(s) => Set(m, p, DownTest(s))
  }

  function Step(m: Machine, e: Event): Machine
    requires Enabled(m, e) && InRange(m)
  {
    match e
    case StartUp(p, s) => Set(m, p, WantUp(s))
    case StartDown(p, s) => Set(m, p, WantDown(s))
    case StartRel(p, s) => Set(m, p, WantRel(s))
    case Go(p) => Advance(m, p)
    case Kill(p) => Set(m, p, Woken(m.procs[p].s))
  }

  // ------------------------------------------------------------ invariants

  predicate Excl(m: Machine) {
    forall p, q :: 0 <= p < |m.procs| && 0 <= q < |m.procs| && p != q && !m.procs[p].Idle? ==>
      !(Holds(m.procs[p], m.procs[p].s) && Holds(m.procs[q], m.procs[p].s))
  }

  // The scan of wakeup by this process has passed process p.
  predicate Passed(pc: Pc, p: int) {
    match pc
    case UpWake(_, k) => p < k
    case UpAdd(_) => true
    case RelWake(_, k) => p < k
    case _ => false
  }

  // Nobody sleeps on s behind the scan of a wakeup on s.
  predicate WakeOk(m: Machine) {
    forall q, p :: 0 <= q < |m.procs| && 0 <= p < |m.procs| && Passed(m.procs[q], p) ==>
      !Sleeper(m.procs[p], m.procs[q].s)
  }

  // A process on its way to sleep has found nothing available, or a release is
  // still on its way to it.
  ghost predicate SleepOk(m: Machine)
    requires Shaped(m) && InRange(m)
  {
    forall p :: 0 <= p < |m.procs| && !m.procs[p].Idle? && Sleeper(m.procs[p], m.procs[p].s) ==>
      m.avail[m.procs[p].s] == 0 || Coming(m, m.procs[p].s, p)
  }

  ghost predicate Coming(m: Machine, s: nat, p: int) {
    exists q :: 0 <= q < |m.procs| && m.procs[q].RelWake? && m.procs[q].s == s && m.procs[q].k <= p
  }

  predicate KindOk(m: Machine, p: int)
    requires Shaped(m) && InRange(m) && 0 <= p < |m.procs|
  {
    match m.procs[p]
    case WantUp(s) => !m.mutex[s]
    case UpWake(s, _) => !m.mutex[s] && m.avail[s] == 0
    case UpAdd(s) => !m.mutex[s]
    case WantRel(s) => m.mutex[s] && m.owner[s] == p
    case RelWake(s, _) => m.mutex[s] && m.avail[s] == 1
    case _ => true
  }

  predicate Kinds(m: Machine)
    requires Shaped(m) && InRange(m)
  {
    forall p :: 0 <= p < |m.procs| ==> KindOk(m, p)
  }

  predicate Counts(m: Machine, init: seq<int>)
    requires Shaped(m)
  {
    && |init| == |m.avail|
    && forall s :: 0 <= s < |m.avail| ==> CountOk(m, init, s)
  }

  predicate CountOk(m: Machine, init: seq<int>, s: int)
    requires Shaped(m) && |init| == |m.avail| && 0 <= s < |m.avail|
  {
    && m.avail[s] == init[s] + m.ups[s] - m.downs[s] && m.avail[s] >= 0
    && (m.mutex[s] ==> m.avail[s] == (if 0 <= m.owner[s] then 0 else 1))
  }

  ghost predicate Inv(m: Machine, init: seq<int>) {
    Shaped(m) && InRange(m) && Excl(m) && WakeOk(m) && SleepOk(m) && Kinds(m) && Counts(m, init)
  }

  lemma StepKeeps(m: Machine, init: seq<int>, e: Event)
    requires Inv(m, init) && Enabled(m, e)
    ensures Inv(Step(m, e), init)
  {
    hide Coming;
    StepExcl(m, init, e);
    StepWake(m, init, e);
    StepSleep(m, init, e);
    StepKinds(m, init, e);
    StepCounts(m, init, e);
  }

  lemma StepExcl(m: Machine, init: seq<int>, e: Event)
    requires Inv(m, init) && Enabled(m, e)
    ensures Shaped(Step(m, e)) && InRange(Step(m, e)) && Excl(Step(m, e))
  {
    hide SleepOk, Kinds, Counts, Coming, WakeOk;
    StepShape(m, init, e);
    if e.Go? {
      OneMoves(m, e.p);
    }
  }

  lemma StepShape(m: Machine, init: seq<int>, e: Event)
    requires Inv(m, init) && Enabled(m, e)
    ensures Shaped(Step(m, e)) && InRange(Step(m, e))
  {
    hide SleepOk, Kinds, Counts, Coming, WakeOk, Excl;
  }

  // A lock is taken only when it is free, and the others move only from sleep.
  lemma OneMoves(m: Machine, p: nat)
    requires Shaped(m) && InRange(m) && p < |m.procs| && CanGo(m, p)
    ensures var r := Advance(m, p); var s := m.procs[p].s;
      && |r.procs| == |m.procs|
      && (r.procs[p].Idle? || r.procs[p].s == s)
      && (!r.procs[p].Idle? && Holds(r.procs[p], s) ==> Holds(m.procs[p], s) || Free(m, s))
      && (forall q :: 0 <= q < |m.procs| && q != p ==>
          r.procs[q] == m.procs[q] || (m.procs[q] == Asleep(s) && r.procs[q] == Woken(s)))
  {
  }

  // The scan of wakeup leaves nobody asleep at the entry it looks at.
  lemma ScanWake(m: Machine, p: nat, s: nat, k: nat)
    requires k < |m.procs| && p < |m.procs| && (k == p || !OwnLock(m.procs[k])) && Holds(m.procs[p], s)
    requires m.procs[p].UpWake? || m.procs[p].RelWake?
    ensures var procs := WakeOne(m.procs, p, s, k);
      && |procs| == |m.procs| && procs[p] == m.procs[p] && !Sleeper(procs[k], s)
      && (forall i :: 0 <= i < |procs| ==> procs[i] == m.procs[i] || (m.procs[i] == Asleep(s) && procs[i] == Woken(s)))
  {
  }

  lemma StepWake(m: Machine, init: seq<int>, e: Event)
    requires Inv(m, init) && Enabled(m, e)
    ensures WakeOk(Step(m, e))
  {
    hide SleepOk, Kinds, Counts, Coming;
    if e.Go? {
      var p := e.p;
      match m.procs[p]
      case WantUp(s) => NoneAsleep(m, init, s);
      case UpWake(s, k) => if k < |m.procs| { ScanWake(m, p, s, k); }
      case RelWake(s, k) => if k < |m.procs| { ScanWake(m, p, s, k); }
      case DownTest(s) =>
        assert forall q :: 0 <= q < |m.procs| && q != p && !m.procs[q].Idle? && m.procs[q].s == s ==>
                 !Passed(m.procs[q], p);
      case _ =>
    }
  }

  // With the lock free and something available nobody sleeps: no wakeup is lost.
  lemma NoneAsleep(m: Machine, init: seq<int>, s: nat)
    requires Inv(m, init) && s < |m.avail| && Free(m, s)
    ensures m.avail[s] != 0 ==> forall p :: 0 <= p < |m.procs| ==> !Sleeper(m.procs[p], s)
  {
    hide WakeOk, Kinds, Counts, Excl;
  }

  lemma StepSleep(m: Machine, init: seq<int>, e: Event)
    requires Inv(m, init) && Enabled(m, e) && Shaped(Step(m, e)) && InRange(Step(m, e))
    ensures SleepOk(Step(m, e))
  {
    hide Kinds, Counts, Coming, WakeOk, Excl;
    var r := Step(m, e);
    forall i: nat | i < |r.procs| && !r.procs[i].Idle? && Sleeper(r.procs[i], r.procs[i].s)
      ensures r.avail[r.procs[i].s] == 0 || Coming(r, r.procs[i].s, i)
    {
      StepSleeper(m, init, e, i);
    }
  }

  lemma StepSleeper(m: Machine, init: seq<int>, e: Event, i: nat)
    requires Inv(m, init) && Enabled(m, e) && Shaped(Step(m, e)) && InRange(Step(m, e))
    requires i < |Step(m, e).procs| && !Step(m, e).procs[i].Idle? && Sleeper(Step(m, e).procs[i], Step(m, e).procs[i].s)
    ensures Step(m, e).avail[Step(m, e).procs[i].s] == 0 || Coming(Step(m, e), Step(m, e).procs[i].s, i)
  {
    hide Kinds, Counts, Coming, Excl, WakeOk, SleepOk;
    var s := Step(m, e).procs[i].s;
    if Sleeper(m.procs[i], s) && m.avail[s] != 0 {
      assert Coming(m, s, i) by {
        ComingWhenAvail(m, i, s);
      }
      ComingStays(m, init, e, i, s);
    } else {
      NewSleeper(m, init, e, i, s);
    }
  }

  lemma ComingWhenAvail(m: Machine, i: nat, s: nat)
    requires Shaped(m) && InRange(m) && SleepOk(m) && i < |m.procs| && Sleeper(m.procs[i], s) && m.avail[s] != 0
    ensures Coming(m, s, i)
  {
    hide Coming;
  }

  lemma ComingStays(m: Machine, init: seq<int>, e: Event, i: nat, s: nat)
    requires Inv(m, init) && Enabled(m, e) && i < |Step(m, e).procs| == |m.procs| && s < |m.avail|
    requires Coming(m, s, i) && Sleeper(m.procs[i], s) && Sleeper(Step(m, e).procs[i], s)
    ensures Coming(Step(m, e), s, i)
  {
    hide Kinds, Counts, WakeOk, SleepOk, Excl;
    var q :| 0 <= q < |m.procs| && m.procs[q].RelWake? && m.procs[q].s == s && m.procs[q].k <= i;
    var r := Step(m, e);
    assert r.procs[q].RelWake? && r.procs[q].s == s && r.procs[q].k <= i;
  }

  lemma NewSleeper(m: Machine, init: seq<int>, e: Event, i: nat, s: nat)
    requires Inv(m, init) && Enabled(m, e) && i < |Step(m, e).procs| == |m.procs| && s < |m.avail| == |Step(m, e).avail|
    requires Sleeper(Step(m, e).procs[i], s) && (Sleeper(m.procs[i], s) ==> m.avail[s] == 0)
    ensures Step(m, e).avail[s] == 0 || Coming(Step(m, e), s, i)
  {
    hide Kinds, Counts, SleepOk, Excl;
    var r := Step(m, e);
    if e.Go? && m.procs[e.p] == WantRel(s) {
      assert r.procs[e.p].RelWake? && r.procs[e.p].s == s && r.procs[e.p].k <= i;
    }
  }

  lemma StepKinds(m: Machine, init: seq<int>, e: Event)
    requires Inv(m, init) && Enabled(m, e) && Shaped(Step(m, e)) && InRange(Step(m, e))
    ensures Kinds(Step(m, e))
  {
    hide Enabled, Excl, WakeOk, SleepOk, Coming, Counts, KindOk, Step;
    StepSize(m, e);
    forall i: nat | i < |m.procs|
      ensures KindOk(Step(m, e), i)
    {
      StepKind(m, init, e, i);
    }
  }

  lemma StepSize(m: Machine, e: Event)
    requires Enabled(m, e) && InRange(m)
    ensures |Step(m, e).procs| == |m.procs| && |Step(m, e).avail| == |m.avail|
  {
  }

  lemma StepKind(m: Machine, init: seq<int>, e: Event, i: nat)
    requires Inv(m, init) && Enabled(m, e) && Shaped(Step(m, e)) && InRange(Step(m, e))
    requires i < |m.procs| == |Step(m, e).procs|
    ensures KindOk(Step(m, e), i)
  {
    hide WakeOk, SleepOk, Coming;
    assert KindOk(m, i) && KindOk(m, e.p);
    if i != e.p && !Step(m, e).procs[i].Idle? {
      OtherKind(m, init, e, i, Step(m, e).procs[i].s);
    }
  }

  // Nobody else changes the fields that a process in the middle of an operation
  // on s relies on.
  lemma OtherKind(m: Machine, init: seq<int>, e: Event, i: nat, s: nat)
    requires Inv(m, init) && Enabled(m, e) && i < |m.procs| && i != e.p && !m.procs[i].Idle? && m.procs[i].s == s
    ensures s < |m.avail| == |Step(m, e).avail| && Shaped(Step(m, e)) && Step(m, e).mutex == m.mutex
    ensures Holds(m.procs[i], s) ==> Step(m, e).avail[s] == m.avail[s]
    ensures m.procs[i] == WantRel(s) ==> Step(m, e).owner[s] == m.owner[s]
  {
    hide WakeOk, SleepOk, Coming;
    assert KindOk(m, i) && KindOk(m, e.p) && CountOk(m, init, s);
  }

  lemma StepCounts(m: Machine, init: seq<int>, e: Event)
    requires Inv(m, init) && Enabled(m, e) && Shaped(Step(m, e))
    ensures Counts(Step(m, e), init)
  {
    hide WakeOk, SleepOk, Coming, Excl, Kinds, Step;
    StepSize(m, e);
    forall s: nat | s < |m.avail|
      ensures CountOk(Step(m, e), init, s)
    {
      StepCount(m, init, e, s);
    }
  }

  lemma StepCount(m: Machine, init: seq<int>, e: Event, s: nat)
    requires Inv(m, init) && Enabled(m, e) && Shaped(Step(m, e)) && s < |m.avail| == |Step(m, e).avail|
    ensures CountOk(Step(m, e), init, s)
  {
    hide WakeOk, SleepOk, Coming, Excl;
    assert KindOk(m, e.p) && CountOk(m, init, s);
  }

  // -------------------------------------------------------------- all runs

  // Nobody is in an operation; semaphores have been opened with init, sleeplocks
  // are free.
  predicate Start(m: Machine, init: seq<int>) {
    && Shaped(m) && |init| == |m.avail| && m.avail == init
    && (forall p :: 0 <= p < |m.procs| ==> m.procs[p] == Idle)
    && forall s :: 0 <= s < |init| ==>
        m.ups[s] == 0 && m.downs[s] == 0 && m.owner[s] == -1 && (m.mutex[s] ==> init[s] == 1)
  }

  ghost predicate Reach(m: Machine, es: seq<Event>, r: Machine)
    decreases |es|
  {
    if es == [] then r == m
    else Enabled(m, es[0]) && InRange(m) && Reach(Step(m, es[0]), es[1..], r)
  }

  lemma {:induction false} InvReach(m: Machine, init: seq<int>, es: seq<Event>, r: Machine)
    requires Inv(m, init) && Reach(m, es, r)
    ensures Inv(r, init)
    decreases |es|
  {
    hide Inv, Step, Enabled;
    if es != [] {
      StepKeeps(m, init, es[0]);
      InvReach(Step(m, es[0]), init, es[1..], r);
    }
  }

  lemma {:induction false} MutexReach(m: Machine, es: seq<Event>, r: Machine)
    requires Reach(m, es, r)
    ensures r.mutex == m.mutex
    decreases |es|
  {
    if es != [] {
      MutexReach(Step(m, es[0]), es[1..], r);
    }
  }

  // The invariant holds at the start exactly when no semaphore was opened with
  // a negative value.
  lemma StartInv(m: Machine, init: seq<int>)
    requires Start(m, init)
    ensures Inv(m, init) <==> forall s :: 0 <= s < |init| ==> init[s] >= 0
  {
    if Inv(m, init) {
      assert Counts(m, init);
      forall s: nat | s < |init|
        ensures init[s] >= 0
      {
        assert CountOk(m, init, s);
      }
    }
  }

  // The step by which a process gets what it waits for in a down or an acquire,
  // and the one by which it gives it in an up or a release.
  predicate Takes(m: Machine, e: Event, s: nat)
    requires Enabled(m, e) && InRange(m)
  {
    e.Go? && m.procs[e.p] == DownTest(s) && e.p < |Step(m, e).procs| && Step(m, e).procs[e.p] == Idle
  }

  predicate Gives(m: Machine, e: Event, s: nat)
    requires Enabled(m, e)
  {
    e.Go? && (m.procs[e.p] == UpAdd(s) || m.procs[e.p] == WantRel(s))
  }

  ghost function Taken(m: Machine, es: seq<Event>, r: Machine, s: nat): nat
    requires Reach(m, es, r)
    decreases |es|
  {
    if es == [] then 0 else Taken(Step(m, es[0]), es[1..], r, s) + if Takes(m, es[0], s) then 1 else 0
  }

  ghost function Given(m: Machine, es: seq<Event>, r: Machine, s: nat): nat
    requires Reach(m, es, r)
    decreases |es|
  {
    if es == [] then 0 else Given(Step(m, es[0]), es[1..], r, s) + if Gives(m, es[0], s) then 1 else 0
  }

  // The process whose acquire of s was completed last, -1 if it has released it
  // since, and o if there was none.
  ghost function LastTaker(m: Machine, es: seq<Event>, r: Machine, s: nat, o: int): int
    requires Reach(m, es, r)
    decreases |es|
  {
    if es == [] then o
    else
      LastTaker(Step(m, es[0]), es[1..], r, s,
                if Takes(m, es[0], s) then es[0].p else if Gives(m, es[0],
                                                                 s) && m.procs[es[0].p].WantRel? then -1 else o)
  }

  lemma {:induction false} RunCounts(m: Machine, es: seq<Event>, r: Machine, s: nat)
    requires Reach(m, es, r) && Shaped(m) && s < |m.avail|
    ensures Shaped(r) && |r.avail| == |m.avail|
    ensures r.downs[s] == m.downs[s] + Taken(m, es, r, s) && r.ups[s] == m.ups[s] + Given(m, es, r, s)
    ensures r.owner[s] == LastTaker(m, es, r, s, m.owner[s])
    decreases |es|
  {
    hide Takes, Gives, Step, Enabled, InRange;
    if es != [] {
      OneCounts(m, es[0], s);
      RunCounts(Step(m, es[0]), es[1..], r, s);
    }
  }

  lemma OneCounts(m: Machine, e: Event, s: nat)
    requires Enabled(m, e) && InRange(m) && s < |m.avail|
    ensures var n := Step(m, e);
      && Shaped(n) && |n.avail| == |m.avail|
      && n.downs[s] == m.downs[s] + (if Takes(m, e, s) then 1 else 0)
      && n.ups[s] == m.ups[s] + (if Gives(m, e, s) then 1 else 0)
      && n.owner[s] == if Takes(m, e, s) then e.p
                       else if Gives(m, e, s) && m.procs[e.p].WantRel? then -1 else m.owner[s]
  {
    hide Free;
  }

  // In every state of every run: the value of a semaphore is what it was opened
  // with plus the completed ups minus the completed downs, and is not negative;
  // with its lock free and something available nobody sleeps on it; and the
  // completed acquires of a sleeplock exceed its releases by one while it has an
  // owner and by none otherwise.
  lemma RunsAreSound(m: Machine, init: seq<int>, es: seq<Event>, r: Machine, s: nat)
    requires Start(m, init) && (forall t :: 0 <= t < |init| ==> init[t] >= 0) && Reach(m, es, r)
    requires s < |init|
    ensures Shaped(r) && |r.avail| == |init|
    ensures r.avail[s] == init[s] + r.ups[s] - r.downs[s] >= 0
    ensures Free(r, s) && r.avail[s] > 0 ==> forall p :: 0 <= p < |r.procs| ==> !Sleeper(r.procs[p], s)
    ensures r.mutex == m.mutex
    ensures r.mutex[s] ==> r.downs[s] == r.ups[s] + (if 0 <= r.owner[s] then 1 else 0)
    ensures r.downs[s] == Taken(m, es, r, s) && r.ups[s] == Given(m, es, r, s)
    ensures r.owner[s] == LastTaker(m, es, r, s, -1)
  {
    hide WakeOk, SleepOk, Coming, Excl, Kinds, Enabled, Step, Takes, Gives;
    RunCounts(m, es, r, s);
    MutexReach(m, es, r);
    StartInv(m, init);
    InvReach(m, init, es, r);
    assert CountOk(r, init, s);
    if Free(r, s) {
      NoneAsleep(r, init, s);
    }
  }

  // ------------------------------------------------------------- progress

  // Process q has the spinlock that process p is waiting for.
  predicate Blocks(m: Machine, q: nat, p: nat)
    requires p < |m.procs| && q < |m.procs|
  {
    match m.procs[p]
    case WantUp(s) => Holds(m.procs[q], s)
    case WantRel(s) => Holds(m.procs[q], s)
    case WantDown(s) => Holds(m.procs[q], s)
    case Woken(s) => Holds(m.procs[q], s)
    case UpWake(_, k) => k == q != p && OwnLock(m.procs[q])
    case RelWake(_, k) => k == q != p && OwnLock(m.procs[q])
    case _ => false
  }

  // A process in the middle of an operation sleeps, or it can go on, or the one
  // that blocks it can, or the one that blocks that one: no two operations wait
  // for each other.
  lemma NoDeadlock(m: Machine, p: nat)
    requires p < |m.procs| && !m.procs[p].Idle? && !m.procs[p].Asleep?
    ensures CanGo(m, p) || BlockedOnce(m, p) || BlockedTwice(m, p)
  {
    if !CanGo(m, p) {
      var q: nat;
      if m.procs[p].UpWake? || m.procs[p].RelWake? {
        q := m.procs[p].k;
      } else {
        q :| q < |m.procs| && Holds(m.procs[q], m.procs[p].s);
      }
      assert Blocks(m, q, p);
      if !CanGo(m, q) {
        assert m.procs[q].UpWake? || m.procs[q].RelWake?;
        assert Blocks(m, m.procs[q].k, q) && CanGo(m, m.procs[q].k);
      }
    }
  }

  ghost predicate BlockedOnce(m: Machine, p: nat)
    requires p < |m.procs|
  {
    exists q: nat :: q < |m.procs| && Blocks(m, q, p) && CanGo(m, q)
  }

  ghost predicate BlockedTwice(m: Machine, p: nat)
    requires p < |m.procs|
  {
    exists q: nat, r: nat ::
      q < |m.procs| && r < |m.procs| && Blocks(m, q, p) && Blocks(m, r, q) && CanGo(m, r)
  }

  // down or acquire, undisturbed, when something is available.
  lemma DownAlone(m: Machine, p: nat, s: nat)
    requires Shaped(m) && InRange(m) && p < |m.procs| && m.procs[p] == Idle && s < |m.avail|
    requires Free(m, s) && m.avail[s] > 0
    ensures Reach(m, [StartDown(p, s), Go(p), Go(p)],
                  m.(avail := m.avail[s := m.avail[s] - 1], owner := m.owner[s := p],
                     downs := m.downs[s := m.downs[s] + 1]))
  {
    hide Advance, Step, InRange, Enabled, Free;
    var m1 := Asked(m, p, s);
    var m2 := Tests(m1, p, s);
    var m3 := Took(m2, p, s);
    ReachThree(m, StartDown(p, s), Go(p), Go(p), m1, m2, m3);
    assert m3.procs == m.procs;
  }

  // And when nothing is: the process ends up asleep.
  lemma DownSleeps(m: Machine, p: nat, s: nat)
    requires Shaped(m) && InRange(m) && p < |m.procs| && m.procs[p] == Idle && s < |m.avail|
    requires Free(m, s) && m.avail[s] == 0
    ensures Reach(m, [StartDown(p, s), Go(p), Go(p), Go(p), Go(p)], m.(procs := m.procs[p := Asleep(s)]))
  {
    hide InRange, Free;
    var m1 := Asked(m, p, s);
    var m2 := Tests(m1, p, s);
    var m3 := Step(m2, Go(p));
    InRangeSet(m, m3, p, s);
    var m4 := Step(m3, Go(p));
    InRangeSet(m, m4, p, s);
    ReachThree(m2, Go(p), Go(p), Go(p), m3, m4, Step(m4, Go(p)));
    assert [StartDown(p, s), Go(p), Go(p), Go(p), Go(p)][1..] == [Go(p), Go(p), Go(p), Go(p)];
    assert [Go(p), Go(p), Go(p), Go(p)][1..] == [Go(p), Go(p), Go(p)];
    assert Step(m4, Go(p)).procs == m.procs[p := Asleep(s)];
  }

  // A process woken up that finds something available has it two steps later.
  lemma WokenAlone(m: Machine, p: nat, s: nat)
    requires Shaped(m) && InRange(m) && p < |m.procs| && m.procs[p] == Woken(s) && s < |m.avail|
    requires Free(m, s) && m.avail[s] > 0
    ensures Reach(m, [Go(p), Go(p)],
                  m.(procs := m.procs[p := Idle], avail := m.avail[s := m.avail[s] - 1], owner := m.owner[s := p],
                     downs := m.downs[s := m.downs[s] + 1]))
  {
    hide Advance, Step, InRange, Enabled, Free;
    var m1 := Tests(m, p, s);
    var m2 := Took(m1, p, s);
    assert [Go(p), Go(p)][1..] == [Go(p)] && [Go(p)][1..] == [];
    assert m2.procs == m.procs[p := Idle];
    assert Reach(m2, [], m2) && Reach(m1, [Go(p)], m2);
  }

  // A sleeper that is killed tests again, and without anything available goes
  // back to sleep.
  lemma KilledAlone(m: Machine, p: nat, s: nat)
    requires Shaped(m) && InRange(m) && p < |m.procs| && m.procs[p] == Asleep(s) && s < |m.avail|
    requires Free(m, s) && m.avail[s] == 0
    ensures Reach(m, [Kill(p), Go(p), Go(p), Go(p), Go(p)], m)
  {
    hide InRange, Free;
    var m1 := Step(m, Kill(p));
    InRangeSet(m, m1, p, s);
    assert Free(m1, s) by { StillFree(m, m1, p, s); }
    var m2 := Tests(m1, p, s);
    var m3 := Step(m2, Go(p));
    InRangeSet(m, m3, p, s);
    var m4 := Step(m3, Go(p));
    InRangeSet(m, m4, p, s);
    assert Step(m4, Go(p)).procs == m.procs;
    ReachThree(m2, Go(p), Go(p), Go(p), m3, m4, m);
    assert [Kill(p), Go(p), Go(p), Go(p), Go(p)][1..] == [Go(p), Go(p), Go(p), Go(p)];
    assert [Go(p), Go(p), Go(p), Go(p)][1..] == [Go(p), Go(p), Go(p)];
  }

  lemma StillFree(m: Machine, r: Machine, p: nat, s: nat)
    requires Free(m, s) && p < |m.procs| == |r.procs| && r.procs == m.procs[p := r.procs[p]]
    requires !Holds(r.procs[p], s)
    ensures Free(r, s)
  {
  }

  lemma InRangeSet(m: Machine, r: Machine, p: nat, s: nat)
    requires InRange(m) && p < |m.procs| == |r.procs| && |m.avail| == |r.avail| && s < |m.avail|
    requires r.procs[p].Idle? || r.procs[p].s == s
    requires forall q :: 0 <= q < |m.procs| && q != p ==> r.procs[q] == m.procs[q]
    ensures InRange(r)
  {
  }

  lemma Asked(m: Machine, p: nat, s: nat) returns (r: Machine)
    requires Shaped(m) && InRange(m) && p < |m.procs| && m.procs[p] == Idle && s < |m.avail| && Free(m, s)
    ensures Enabled(m, StartDown(p, s)) && r == Step(m, StartDown(p, s)) && InRange(r)
    ensures Free(r, s) && r == m.(procs := m.procs[p := WantDown(s)])
  {
    r := Step(m, StartDown(p, s));
  }

  lemma Tests(m: Machine, p: nat, s: nat) returns (r: Machine)
    requires Shaped(m) && InRange(m) && p < |m.procs| && s < |m.avail| && Free(m, s)
    requires m.procs[p] == WantDown(s) || m.procs[p] == Woken(s)
    ensures Enabled(m, Go(p)) && r == Step(m, Go(p)) && InRange(r)
    ensures r == m.(procs := m.procs[p := DownTest(s)])
  {
    hide Free;
    r := Step(m, Go(p));
  }

  lemma Took(m: Machine, p: nat, s: nat) returns (r: Machine)
    requires Shaped(m) && InRange(m) && p < |m.procs| && s < |m.avail| && m.procs[p] == DownTest(s) && m.avail[s] > 0
    ensures Enabled(m, Go(p)) && r == Step(m, Go(p)) && InRange(r)
    ensures r == m.(procs := m.procs[p := Idle], avail := m.avail[s := m.avail[s] - 1], owner := m.owner[s := p],
                    downs := m.downs[s := m.downs[s] + 1])
  {
    r := Step(m, Go(p));
  }

  lemma ReachThree(m: Machine, a: Event, b: Event, c: Event, m1: Machine, m2: Machine, m3: Machine)
    requires Enabled(m, a) && InRange(m) && m1 == Step(m, a) && Enabled(m1, b) && InRange(m1) && m2 == Step(m1, b)
    requires Enabled(m2, c) && InRange(m2) && m3 == Step(m2, c)
    ensures Reach(m, [a, b, c], m3)
  {
    hide Enabled, InRange, Step;
    assert [a, b, c][1..] == [b, c] && [b, c][1..] == [c] && [c][1..] == [];
    assert Reach(m3, [], m3) && Reach(m2, [c], m3) && Reach(m1, [b, c], m3);
  }

  function WakeAll(procs: seq<Pc>, p: nat, s: nat, k: nat): (r: seq<Pc>)
    ensures |r| == |procs|
    ensures forall i :: 0 <= i < |procs| ==>
              r[i] == if i >= k && i != p && procs[i] == Asleep(s) then Woken(s) else procs[i]
  {
    seq(|procs|, i requires 0 <= i < |procs| =>
      if i >= k && i != p && procs[i] == Asleep(s) then Woken(s) else procs[i])
  }

  // The scan of wakeup, undisturbed, from entry k on.
  lemma {:induction false} ScanAlone(m: Machine, p: nat, s: nat, k: nat) returns (es: seq<Event>, r: Machine)
    requires Shaped(m) && InRange(m) && p < |m.procs| && k <= |m.procs|
    requires m.procs[p] == UpWake(s, k) || m.procs[p] == RelWake(s, k)
    requires forall i :: 0 <= i < |m.procs| ==> !OwnLock(m.procs[i])
    ensures Reach(m, es, r) && Shaped(r) && InRange(r)
    ensures r == m.(procs := WakeAll(m.procs, p, s, k)[p := if m.procs[p].UpWake? then UpAdd(s) else Idle])
    decreases |m.procs| - k
  {
    var m1 := Step(m, Go(p));
    var rest;
    if k == |m.procs| {
      rest, r := [], m1;
      assert r.procs == WakeAll(m.procs, p, s, k)[p := if m.procs[p].UpWake? then UpAdd(s) else Idle];
    } else {
      rest, r := ScanAlone(m1, p, s, k + 1);
      assert r.procs == WakeAll(m.procs, p, s, k)[p := if m.procs[p].UpWake? then UpAdd(s) else Idle];
    }
    es := [Go(p)] + rest;
    assert es[1..] == rest;
  }

  // up or release, undisturbed: one more is available, and everybody who slept
  // on s has been woken up.
  lemma UpAlone(m: Machine, init: seq<int>, p: nat, s: nat) returns (es: seq<Event>, r: Machine)
    requires Inv(m, init) && p < |m.procs| && m.procs[p] == Idle && s < |m.avail| && Free(m, s)
    requires forall i :: 0 <= i < |m.procs| ==> !OwnLock(m.procs[i])
    requires m.mutex[s] ==> m.owner[s] == p
    ensures Reach(m, es, r)
    ensures r == m.(procs := WakeAll(m.procs, p, s, 0), avail := m.avail[s := m.avail[s] + 1],
                    owner := if m.mutex[s] then m.owner[s := -1] else m.owner, ups := m.ups[s := m.ups[s] + 1])
  {
    hide WakeOk, SleepOk, Coming, Excl, Kinds, Advance, Enabled, Step;
    assert CountOk(m, init, s);
    var start := if m.mutex[s] then StartRel(p, s) else StartUp(p, s);
    var m1, m2 := Begun(m, p, s);
    var rest: seq<Event>;
    if m.mutex[s] {
      rest, r := ScanAlone(m2, p, s, 0);
    } else if m.avail[s] == 0 {
      var scan, m3 := ScanAlone(m2, p, s, 0);
      r := Added(m3, p, s);
      rest := scan + [Go(p)];
      ReachMore(m2, scan, m3, Go(p));
    } else {
      NoneAsleep(m, init, s);
      r := Added(m2, p, s);
      rest := [Go(p)];
      assert [Go(p)][1..] == [] && Reach(r, [], r);
    }
    assert Reach(m2, rest, r);
    assert r.procs == WakeAll(m.procs, p, s, 0);
    es := [start, Go(p)] + rest;
    assert es[1..] == [Go(p)] + rest && ([Go(p)] + rest)[1..] == rest;
    assert Reach(m1, [Go(p)] + rest, r);
  }

  lemma Begun(m: Machine, p: nat, s: nat) returns (m1: Machine, m2: Machine)
    requires Shaped(m) && InRange(m) && p < |m.procs| && m.procs[p] == Idle && s < |m.avail| && Free(m, s)
    requires m.mutex[s] ==> m.owner[s] == p
    ensures var e := if m.mutex[s] then StartRel(p, s) else StartUp(p, s);
      Enabled(m, e) && m1 == Step(m, e) && InRange(m1) && Enabled(m1, Go(p)) && m2 == Step(m1, Go(p))
    ensures Shaped(m2) && InRange(m2)
    ensures if m.mutex[s] then
              m2 == m.(procs := m.procs[p := RelWake(s, 0)], avail := m.avail[s := 1], owner := m.owner[s := -1],
                       ups := m.ups[s := m.ups[s] + 1])
            else m2 == m.(procs := m.procs[p := if m.avail[s] == 0 then UpWake(s, 0) else UpAdd(s)])
  {
    var e := if m.mutex[s] then StartRel(p, s) else StartUp(p, s);
    m1 := Step(m, e);
    assert Free(m1, s);
    m2 := Step(m1, Go(p));
    assert m1.procs[p := m2.procs[p]] == m.procs[p := m2.procs[p]];
  }

  lemma Added(m: Machine, p: nat, s: nat) returns (r: Machine)
    requires Shaped(m) && InRange(m) && p < |m.procs| && s < |m.avail| && m.procs[p] == UpAdd(s)
    ensures Enabled(m, Go(p)) && r == Step(m, Go(p))
    ensures r == m.(procs := m.procs[p := Idle], avail := m.avail[s := m.avail[s] + 1], ups := m.ups[s := m.ups[s] + 1])
  {
    r := Step(m, Go(p));
  }

  lemma {:induction false} ReachMore(m: Machine, es: seq<Event>, r: Machine, e: Event)
    requires Reach(m, es, r) && Enabled(r, e) && InRange(r)
    ensures Reach(m, es + [e], Step(r, e))
    decreases |es|
  {
    hide Enabled, InRange, Step;
    if es == [] {
      assert (es + [e])[1..] == [];
    } else {
      ReachMore(Step(m, es[0]), es[1..], r, e);
      assert (es + [e])[1..] == es[1..] + [e];
    }
  }
}

// The life cycle of processes (proc.c) on any number of CPUs: scheduler, yield,
// sleep, wakeup, fork, exit, wait and kill as a machine whose steps lie between
// the points where another CPU can interfere.
module Proc {
  import opened Basics

  const INIT: nat := 0

  // SleepWait is SLEEPING on the process's own address, in wait().
  datatype State = Unused | Used | Sleeping | SleepWait | Runnable | Running | Zombie

  // Where a process stands.  Off: not on a CPU.  Start, YieldHeld, SleepHeld and
  // ExitHeld hold its own p->lock; ForkHeld holds the lock of the child; the
  // Exit states before ExitHeld and WaitScan hold wait_lock.
  datatype Pc =
    | Off
    | Start
    | Run
    | YieldHeld
    | SleepHeld(inWait: bool)
    | ForkHeld(np: nat)
    | ForkLink(np: nat)
    | ForkRun(np: nat)
    | ExitRep(i: nat)
    | ExitRepWake(i: nat)
    | ExitWake
    | ExitMark
    | ExitHeld
    | WaitTake
    | WaitScan(i: nat, kids: bool)

  // A CPU in the scheduler loop at entry i, executing process p, or in the
  // scheduler again after p switched to it, still holding p's lock.
  datatype Cpu = Scan(i: nat) | Exec(p: nat) | Back(p: nat)

  // resume is where a process goes on after it has been switched in.
  datatype Machine = Machine(
    st: seq<State>,
    pc: seq<Pc>,
    resume: seq<Pc>,
    parent: seq<Option<nat>>,
    cpu: seq<Cpu>,
    exits: seq<nat>,
    reaps: seq<nat>)

  // What CPU c does next; flag settles what the code leaves to the outside: a
  // failing allocation in fork, a failing copyout or a kill seen in wait.
  datatype Event =
    | Go(c: nat, flag: bool)
    | Yield(c: nat)
    | Sleep(c: nat)
    | Fork(c: nat, np: nat)
    | Exit(c: nat)
    | Wait(c: nat)
    | Wakeup(q: nat)
    | Kill(q: nat)

  predicate Shaped(m: Machine) {
    |m.st| == |m.pc| == |m.resume| == |m.parent| == |m.exits| == |m.reaps| && INIT < |m.st|
  }

  // ------------------------------------------------------------------ locks

  predicate OwnHeld(pc: Pc) {
    pc.Start? || pc.YieldHeld? || pc.SleepHeld? || pc.ExitHeld?
  }

  // p->lock is free.
  predicate Free(m: Machine, p: nat)
    requires Shaped(m) && p < |m.st|
  {
    && !OwnHeld(m.pc[p])
    && (forall c :: 0 <= c < |m.cpu| ==> m.cpu[c] != Back(p))
    && (forall q :: 0 <= q < |m.pc| ==> m.pc[q] != ForkHeld(p))
  }

  predicate HoldsWait(pc: Pc) {
    pc.ExitRep? || pc.ExitRepWake? || pc.ExitWake? || pc.ExitMark? || pc.WaitScan?
  }

  // wait_lock is free.
  predicate WaitFree(m: Machine) {
    forall p :: 0 <= p < |m.pc| ==> !HoldsWait(m.pc[p])
  }

  // Kernel code without locks, where a timer interrupt may yield.
  predicate Unlocked(pc: Pc) {
    pc.Run? || pc.WaitTake? || pc.ForkLink? || pc.ForkRun?
  }

  // -------------------------------------------------------------------- steps

  predicate Runs(m: Machine, c: nat) {
    c < |m.cpu| && m.cpu[c].Exec? && m.cpu[c].p < |m.st|
  }

  predicate Enabled(m: Machine, e: Event) {
    && Shaped(m)
    && match e
       case Go(c, _) =>
         && c < |m.cpu|
         && (match m.cpu[c]
             case Scan(i) => i >= |m.st| || Free(m, i)
             case Back(_) => true
             case Exec(p) => p < |m.st| && CanGo(m, p))
       case Yield(c) => Runs(m, c) && Unlocked(m.pc[m.cpu[c].p]) && Free(m, m.cpu[c].p)
       case Sleep(c) => Runs(m, c) && m.pc[m.cpu[c].p].Run? && Free(m, m.cpu[c].p)
       case Fork(c, np) => Runs(m, c) && m.pc[m.cpu[c].p].Run? && np < |m.st| && m.st[np] == Unused && Free(m, np)
       case Exit(c) => Runs(m, c) && m.pc[m.cpu[c].p].Run? && m.cpu[c].p != INIT && WaitFree(m)
       case Wait(c) => Runs(m, c) && m.pc[m.cpu[c].p].Run? && WaitFree(m)
       case Wakeup(q) => q < |m.st| && Free(m, q) && m.st[q] == Sleeping
       case Kill(q) => q < |m.st| && Free(m, q) && (m.st[q] == Sleeping || m.st[q] == SleepWait)
  }

  predicate CanGo(m: Machine, p: nat)
    requires Shaped(m) && p < |m.st|
  {
    match m.pc[p]
    case Off => false
    case Run => false
    case ForkLink(_) => WaitFree(m)
    case ForkRun(np) => np < |m.st| && Free(m, np)
    case ExitRepWake(_) => Free(m, INIT)
    case ExitWake => m.parent[p].None? || (m.parent[p].value < |m.st| && Free(m, m.parent[p].value))
    case ExitMark => Free(m, p)
    case WaitTake => WaitFree(m)
    case WaitScan(i, _) => if i < |m.st| then m.parent[i] != Some(p) || Free(m, i) else Free(m, p)
    case _ => true
  }

  function At(m: Machine, p: nat, pc: Pc): Machine
    requires p < |m.pc|
  {
    m.(pc := m.pc[p := pc])
  }

  function Wake(st: seq<State>, q: nat): seq<State> {
    if q < |st| && st[q] == SleepWait then st[q := Runnable] else st
  }

  // Process p on CPU c.
  function Advance(m: Machine, c: nat, p: nat, flag: bool): Machine
    requires Shaped(m) && p < |m.st| && c < |m.cpu| && CanGo(m, p)
  {
    match m.pc[p]
    case Off => m
    case Run => m
    case Start => At(m, p, m.resume[p]).(resume := m.resume[p := Run])
    case YieldHeld => SwitchOut(m, c, p)
    case SleepHeld(inWait) => SwitchOut(m, c, p).(st := m.st[p := if inWait then SleepWait else Sleeping])
    case ForkHeld(np) =>
      if flag && np < |m.st| then At(m, p, Run).(st := m.st[np := Unused]) else At(m, p, ForkLink(np))
    case ForkLink(np) => if np < |m.st| then At(m, p, ForkRun(np)).(parent := m.parent[np := Some(p)]) else m
    case ForkRun(np) => At(m, p, Run).(st := m.st[np := Runnable])
    case ExitRep(i) =>
      if i >= |m.st| then At(m, p, ExitWake)
      else if m.parent[i] == Some(p) then At(m, p, ExitRepWake(i)).(parent := m.parent[i := Some(INIT)])
      else At(m, p, ExitRep(i + 1))
    case ExitRepWake(i) => At(m, p, ExitRep(i + 1)).(st := Wake(m.st, INIT))
    case ExitWake => At(m, p, ExitMark).(st := if m.parent[p].Some? then Wake(m.st, m.parent[p].value) else m.st)
    case ExitMark => At(m, p, ExitHeld).(st := m.st[p := Zombie], exits := m.exits[p := m.exits[p] + 1])
    case ExitHeld => SwitchOut(m, c, p)
    case WaitTake => At(m, p, WaitScan(0, false))
    case WaitScan(i, kids) =>
      if i < |m.st| then
        if m.parent[i] != Some(p) then At(m, p, WaitScan(i + 1, kids))
        else if m.st[i] != Zombie then At(m, p, WaitScan(i + 1, true))
        else if flag then At(m, p, Run)
        else At(m, p, Run).(st := m.st[i := Unused], parent := m.parent[i := None],
                            reaps := m.reaps[i := m.reaps[i] + 1])
      else if !kids || flag then At(m, p, Run)
      else At(m, p, SleepHeld(true)).(resume := m.resume[p := WaitTake])
  }

  function SwitchOut(m: Machine, c: nat, p: nat): Machine
    requires p < |m.pc| && c < |m.cpu|
  {
    At(m, p, Off).(cpu := m.cpu[c := Back(p)])
  }

  function Step(m: Machine, e: Event): Machine
    requires Enabled(m, e)
  {
    match e
    case Go(c, flag) =>
      (match m.cpu[c]
       case Scan(i) =>
         if i >= |m.st| then m.(cpu := m.cpu[c := Scan(0)])
         else if m.st[i] == Runnable then
           At(m, i, Start).(st := m.st[i := Running], cpu := m.cpu[c := Exec(i)])
         else m.(cpu := m.cpu[c := Scan(i + 1)])
       case Back(p) => m.(cpu := m.cpu[c := Scan(p + 1)])
       case Exec(p) => Advance(m, c, p, flag))
    case Yield(c) =>
      var p := m.cpu[c].p;
      At(m, p, YieldHeld).(st := m.st[p := Runnable], resume := m.resume[p := m.pc[p]])
    case Sleep(c) => At(m, m.cpu[c].p, SleepHeld(false)).(resume := m.resume[m.cpu[c].p := Run])
    case Fork(c, np) => At(m, m.cpu[c].p, ForkHeld(np)).(st := m.st[np := Used])
    case Exit(c) => At(m, m.cpu[c].p, ExitRep(0))
    case Wait(c) => At(m, m.cpu[c].p, WaitScan(0, false))
    case Wakeup(q) => m.(st := m.st[q := Runnable])
    case Kill(q) => m.(st := m.st[q := Runnable])
  }

  // -------------------------------------------------------------- invariants

  // The process a CPU works for, or is just leaving.
  predicate On(cpu: Cpu, p: nat) {
    cpu == Exec(p) || cpu == Back(p)
  }

  // No process has two CPUs.
  predicate OneCpu(m: Machine) {
    forall c, d :: 0 <= c < |m.cpu| && 0 <= d < |m.cpu| && c != d && !m.cpu[c].Scan? ==> !On(m.cpu[d], m.cpu[c].p)
  }

  // A process on a CPU is in the middle of something; one being left is not.
  predicate CpuPc(m: Machine)
    requires Shaped(m)
  {
    forall c: nat {:trigger m.cpu[c]} :: c < |m.cpu| ==> CpuOk(m, c)
  }

  // The states that go with each point of the code.
  predicate StateOk(m: Machine, p: nat)
    requires Shaped(m) && p < |m.st|
  {
    && (match m.pc[p]
        case Off => m.st[p] != Running
        case YieldHeld => m.st[p] == Runnable
        case ExitHeld => m.st[p] == Zombie
        case _ => m.st[p] == Running)
    && Unlocked(m.resume[p])
    && (m.pc[p].Off? || m.pc[p].Start? || m.pc[p].YieldHeld? || m.pc[p].SleepHeld? || m.resume[p] == Run)
    && (m.st[p] == Unused || m.st[p] == Used || m.st[p] == Zombie || m.st[p] == Sleeping ==> m.resume[p] == Run)
    && (m.st[p] == SleepWait || m.pc[p] == SleepHeld(true) ==> m.resume[p] == WaitTake)
    && (m.pc[p] == SleepHeld(false) ==> m.resume[p] == Run)
    && (p == INIT ==>
          m.parent[p] == None && m.st[p] != Zombie && m.st[p] != Unused && m.st[p] != Used && !Exiting(m.pc[p]))
    && m.exits[p] == m.reaps[p] + (if m.st[p] == Zombie then 1 else 0)
  }

  predicate Exiting(pc: Pc) {
    pc.ExitRep? || pc.ExitRepWake? || pc.ExitWake? || pc.ExitMark? || pc.ExitHeld?
  }

  predicate States(m: Machine)
    requires Shaped(m)
  {
    forall p: nat :: p < |m.st| ==> StateOk(m, p)
  }

  // The child a process is still making in fork.
  function Making(m: Machine, p: nat): Option<nat>
    requires Shaped(m) && p < |m.st|
  {
    match m.pc[p]
    case ForkHeld(np) => Some(np)
    case ForkLink(np) => Some(np)
    case ForkRun(np) => Some(np)
    case _ =>
      match m.resume[p]
      case ForkLink(np) => Some(np)
      case ForkRun(np) => Some(np)
      case _ => None
  }

  // A slot in use but not started belongs to one fork.
  predicate Forks(m: Machine)
    requires Shaped(m)
  {
    && (forall p: nat :: p < |m.st| && Making(m, p).Some? ==>
          Making(m, p).value < |m.st| && m.st[Making(m, p).value] == Used)
    && (forall p: nat, q: nat :: p < |m.st| && q < |m.st| && p != q && Making(m, p).Some? ==>
        Making(m, p) != Making(m, q))
  }

  predicate OneWait(m: Machine) {
    forall p: nat, q: nat :: p < |m.pc| && q < |m.pc| && p != q && HoldsWait(m.pc[p]) ==> !HoldsWait(m.pc[q])
  }

  predicate Alive(s: State) {
    s != Unused && s != Used && s != Zombie
  }

  // Parents are alive; a slot that is unused has none.
  predicate Parents(m: Machine)
    requires Shaped(m)
  {
    forall i: nat :: i < |m.st| ==>
      && (m.parent[i].Some? ==> m.parent[i].value < |m.st| && m.parent[i].value != i && Alive(m.st[m.parent[i].value]))
      && (m.st[i] == Unused ==> m.parent[i] == None)
      && (m.pc[i].ForkHeld? && m.pc[i].np < |m.st| ==> m.parent[m.pc[i].np] == None)
  }

  // exit has passed on the children before entry i.
  predicate HandedOver(pc: Pc, i: nat) {
    match pc
    case ExitRep(k) => i < k
    case ExitRepWake(k) => i <= k
    case ExitWake => true
    case ExitMark => true
    case _ => false
  }

  predicate Orphans(m: Machine)
    requires Shaped(m)
  {
    forall p: nat, i: nat :: p < |m.st| && i < |m.st| && HandedOver(m.pc[p], i) ==> m.parent[i] != Some(p)
  }

  // Asleep in wait(), or past the scan and on the way to sleep.
  predicate WaitAsleep(m: Machine, q: nat)
    requires Shaped(m) && q < |m.st|
  {
    m.st[q] == SleepWait || m.pc[q] == SleepHeld(true)
  }

  // init is about to be woken for the child i just handed to it.
  predicate Handing(m: Machine, i: nat)
    requires Shaped(m)
  {
    exists p: nat :: p < |m.pc| && m.pc[p] == ExitRepWake(i)
  }

  ghost predicate NoZombieMissed(m: Machine)
    requires Shaped(m) && Parents(m)
  {
    && (forall i: nat :: i < |m.st| && m.st[i] == Zombie && m.parent[i].Some? && WaitAsleep(m, m.parent[i].value) ==>
          m.parent[i].value == INIT && Handing(m, i))
    && (forall p: nat :: p < |m.st| && m.pc[p] == ExitMark && m.parent[p].Some? ==> !WaitAsleep(m, m.parent[p].value))
    && (forall q: nat, i: nat ::
          q < |m.st| && i < |m.st| && m.pc[q].WaitScan? && i < m.pc[q].i && m.parent[i] == Some(q) ==>
            m.st[i] != Zombie)
  }

  ghost predicate Inv(m: Machine) {
    && Shaped(m) && OneCpu(m) && CpuPc(m) && States(m) && Forks(m) && OneWait(m) && Parents(m) && Orphans(m)
    && NoZombieMissed(m)
  }

  // What is known of the process that moves, of the one it makes, of the entry
  // that the scheduler or wait looks at, and of init.
  lemma Facts(m: Machine, e: Event)
    requires Inv(m) && Enabled(m, e)
    ensures StateOk(m, INIT)
    ensures forall c: nat :: Runs(m, c) && c == Cpu1(e) ==> StateOk(m, m.cpu[c].p) && m.pc[m.cpu[c].p] != Off
    ensures e.Fork? ==> StateOk(m, e.np)
    ensures e.Wakeup? || e.Kill? ==> StateOk(m, e.q)
    ensures e.Go? && m.cpu[e.c].Scan? && m.cpu[e.c].i < |m.st| ==> StateOk(m, m.cpu[e.c].i)
    ensures forall c: nat :: Runs(m, c) && c == Cpu1(e) && Making(m, m.cpu[c].p).Some? ==>
      Making(m, m.cpu[c].p).value < |m.st| && m.st[Making(m, m.cpu[c].p).value] == Used
      && StateOk(m, Making(m, m.cpu[c].p).value)
    ensures forall c: nat :: Runs(m, c) && c == Cpu1(e) && m.pc[m.cpu[c].p].WaitScan? && m.pc[m.cpu[c].p].i < |m.st| ==>
      StateOk(m, m.pc[m.cpu[c].p].i)
  {
    hide OneCpu, OneWait, Parents, Orphans, NoZombieMissed, StateOk;
  }

  ghost predicate Going(m: Machine, c: nat, p: nat, flag: bool) {
    Inv(m) && c < |m.cpu| && m.cpu[c] == Exec(p) && Enabled(m, Go(c, flag))
  }

  function Cpu1(e: Event): int {
    match e
    case Go(c, _) => c
    case Yield(c) => c
    case Sleep(c) => c
    case Fork(c, _) => c
    case Exit(c) => c
    case Wait(c) => c
    case _ => -1
  }

  lemma GoFacts(m: Machine, c: nat, p: nat, flag: bool)
    requires Going(m, c, p, flag)
    ensures p < |m.st| && m.pc[p] != Off && StateOk(m, p) && StateOk(m, INIT)
    ensures Making(m, p).Some? ==>
      Making(m, p).value < |m.st| && m.st[Making(m, p).value] == Used && StateOk(m, Making(m, p).value)
    ensures m.pc[p].WaitScan? && m.pc[p].i < |m.st| ==> StateOk(m, m.pc[p].i)
  {
    hide OneCpu, OneWait, Parents, Orphans, NoZombieMissed, StateOk;
  }

  lemma StepSizes(m: Machine, e: Event)
    requires Inv(m) && Enabled(m, e)
    ensures Shaped(Step(m, e)) && |Step(m, e).st| == |m.st| && |Step(m, e).cpu| == |m.cpu|
  {
    hide OneCpu, CpuPc, States, Forks, OneWait, Parents, Orphans, NoZombieMissed, Free, CanGo, Advance;
    if e.Go? && m.cpu[e.c].Exec? {
      GoSizes(m, e.c, m.cpu[e.c].p, e.flag);
    }
  }

  lemma GoSizes(m: Machine, c: nat, p: nat, flag: bool)
    requires Shaped(m) && p < |m.st| && c < |m.cpu| && CanGo(m, p)
    ensures var r := Advance(m, c, p, flag); Shaped(r) && |r.st| == |m.st| && |r.cpu| == |m.cpu|
  {
    hide Free, Advance, CanGo;
    if HoldsWait(m.pc[p]) {
      GoSizesWait(m, c, p, flag);
    } else {
      GoSizesRest(m, c, p, flag);
    }
  }

  lemma GoSizesWait(m: Machine, c: nat, p: nat, flag: bool)
    requires Shaped(m) && p < |m.st| && c < |m.cpu| && CanGo(m, p) && HoldsWait(m.pc[p])
    ensures var r := Advance(m, c, p, flag); Shaped(r) && |r.st| == |m.st| && |r.cpu| == |m.cpu|
  {
    hide Free, CanGo;
  }

  lemma GoSizesRest(m: Machine, c: nat, p: nat, flag: bool)
    requires Shaped(m) && p < |m.st| && c < |m.cpu| && CanGo(m, p) && !HoldsWait(m.pc[p])
    ensures var r := Advance(m, c, p, flag); Shaped(r) && |r.st| == |m.st| && |r.cpu| == |m.cpu|
  {
    hide Free;
  }

  lemma StepOneCpu(m: Machine, e: Event)
    requires Inv(m) && Enabled(m, e)
    ensures OneCpu(Step(m, e))
  {
    hide Forks, OneWait, Parents, Orphans, NoZombieMissed, States, Advance, CanGo;
    Facts(m, e);
    if e.Go? && m.cpu[e.c].Exec? {
      GoCpus(m, e.c, m.cpu[e.c].p, e.flag);
    }
  }

  lemma GoCpus(m: Machine, c: nat, p: nat, flag: bool)
    requires Shaped(m) && p < |m.st| && c < |m.cpu| && CanGo(m, p)
    ensures Advance(m, c, p, flag).cpu == m.cpu || Advance(m, c, p, flag).cpu == m.cpu[c := Back(p)]
  {
    hide Free, CanGo;
  }

  predicate CpuOk(m: Machine, c: nat)
    requires Shaped(m) && c < |m.cpu|
  {
    && (m.cpu[c].Exec? ==> m.cpu[c].p < |m.st| && m.pc[m.cpu[c].p] != Off)
    && (m.cpu[c].Back? ==> m.cpu[c].p < |m.st| && m.pc[m.cpu[c].p] == Off && Started(m.st[m.cpu[c].p]))
  }

  predicate Started(s: State) {
    s != Unused && s != Used
  }

  lemma StepCpuPc(m: Machine, e: Event, c: nat)
    requires Inv(m) && Enabled(m, e) && c < |m.cpu| && Shaped(Step(m, e)) && |Step(m, e).cpu| == |m.cpu|
    ensures CpuOk(Step(m, e), c)
  {
    hide Forks, OneWait, Parents, Orphans, NoZombieMissed, States, Advance;
    Facts(m, e);
    assert CpuOk(m, c);
    if e.Go? && m.cpu[e.c].Exec? {
      GoSizes(m, e.c, m.cpu[e.c].p, e.flag);
      GoCpu(m, e.c, m.cpu[e.c].p, e.flag, c);
    }
  }

  lemma GoCpu(m: Machine, c: nat, p: nat, flag: bool, d: nat)
    requires Going(m, c, p, flag) && Shaped(Advance(m, c, p, flag)) && |Advance(m, c, p, flag).cpu| == |m.cpu|
    requires |Advance(m, c, p, flag).st| == |m.st| && d < |m.cpu| && CpuOk(m, d)
    ensures CpuOk(Advance(m, c, p, flag), d)
  {
    hide Forks, OneWait, Parents, Orphans, NoZombieMissed, States, CanGo, Free;
    GoFacts(m, c, p, flag);
    if m.cpu[d].Back? {
      StaysStarted(m, c, p, flag, d);
    }
  }

  // A process that a CPU is leaving is not freed: its lock is held.
  lemma StaysStarted(m: Machine, c: nat, p: nat, flag: bool, d: nat)
    requires Going(m, c, p, flag) && Shaped(Advance(m, c, p, flag)) && |Advance(m, c, p, flag).st| == |m.st|
    requires d < |m.cpu| && m.cpu[d].Back? && CpuOk(m, d)
    ensures Started(Advance(m, c, p, flag).st[m.cpu[d].p])
  {
    hide OneCpu, CpuPc, Forks, OneWait, Parents, Orphans, NoZombieMissed, States;
    GoFacts(m, c, p, flag);
  }

  // The process whose place in the code an event changes.
  function Mover(m: Machine, e: Event): int
    requires Enabled(m, e)
  {
    match e
    case Go(c, _) =>
      (match m.cpu[c]
       case Scan(i) => if i < |m.st| && m.st[i] == Runnable then i else -1
       case Back(_) => -1
       case Exec(p) => p)
    case Yield(c) => m.cpu[c].p
    case Sleep(c) => m.cpu[c].p
    case Fork(c, _) => m.cpu[c].p
    case Exit(c) => m.cpu[c].p
    case Wait(c) => m.cpu[c].p
    case _ => -1
  }

  lemma Frame(m: Machine, e: Event)
    requires Inv(m) && Enabled(m, e)
    ensures |Step(m, e).pc| == |m.pc| && |Step(m, e).resume| == |m.resume|
    ensures forall q :: 0 <= q < |m.pc| && q != Mover(m, e) ==>
      Step(m, e).pc[q] == m.pc[q] && Step(m, e).resume[q] == m.resume[q]
  {
    hide OneCpu, CpuPc, States, Forks, OneWait, Parents, Orphans, NoZombieMissed, Free, Advance, CanGo;
    if e.Go? && m.cpu[e.c].Exec? {
      GoFrame(m, e.c, m.cpu[e.c].p, e.flag);
    }
  }

  lemma GoFrame(m: Machine, c: nat, p: nat, flag: bool)
    requires Shaped(m) && p < |m.st| && c < |m.cpu| && CanGo(m, p)
    ensures |Advance(m, c, p, flag).pc| == |m.pc| && |Advance(m, c, p, flag).resume| == |m.resume|
    ensures forall q :: 0 <= q < |m.pc| && q != p ==>
      Advance(m, c, p, flag).pc[q] == m.pc[q] && Advance(m, c, p, flag).resume[q] == m.resume[q]
  {
    hide Free, CanGo, Advance;
    GoSame(m, c, p, flag);
  }

  lemma GoSame(m: Machine, c: nat, p: nat, flag: bool)
    requires Shaped(m) && p < |m.st| && c < |m.cpu| && CanGo(m, p)
    ensures var r := Advance(m, c, p, flag);
      && |r.pc| == |m.pc| && |r.resume| == |m.resume|
      && r.pc == m.pc[p := r.pc[p]] && r.resume == m.resume[p := r.resume[p]]
  {
    hide Free, CanGo;
  }

  // wait_lock is taken only when it is free.
  lemma MoverWaits(m: Machine, e: Event)
    requires Inv(m) && Enabled(m, e) && 0 <= Mover(m, e) < |m.pc| == |Step(m, e).pc|
    ensures HoldsWait(Step(m, e).pc[Mover(m, e)]) ==> HoldsWait(m.pc[Mover(m, e)]) || WaitFree(m)
  {
    hide OneCpu, OneWait, Parents, Orphans, NoZombieMissed, Forks, Free, CpuPc;
    Facts(m, e);
  }

  // ---------------------------------------------------------------- States

  lemma StepStates(m: Machine, e: Event, q: nat)
    requires Inv(m) && Enabled(m, e) && q < |m.st| && Shaped(Step(m, e)) && |Step(m, e).st| == |m.st|
    ensures StateOk(Step(m, e), q)
  {
    hide OneCpu, OneWait, Parents, Orphans, NoZombieMissed, Forks, CpuPc, States, Free, Advance, CanGo, StateOk;
    Facts(m, e);
    if e.Go? {
      if m.cpu[e.c].Exec? {
        if q == m.cpu[e.c].p {
          OwnState(m, e.c, q, e.flag);
        } else {
          OtherState(m, e.c, m.cpu[e.c].p, e.flag, q);
        }
      } else {
        ScanState(m, e, q);
      }
    } else {
      EventState(m, e, q);
    }
  }

  lemma ScanState(m: Machine, e: Event, q: nat)
    requires Inv(m) && Enabled(m, e) && q < |m.st| && Shaped(Step(m, e)) && |Step(m, e).st| == |m.st|
    requires e.Go? && !m.cpu[e.c].Exec?
    ensures StateOk(Step(m, e), q)
  {
    hide OneCpu, OneWait, Parents, Orphans, NoZombieMissed, Forks, CpuPc, Advance, CanGo;
    assert StateOk(m, q);
  }

  lemma EventState(m: Machine, e: Event, q: nat)
    requires Inv(m) && Enabled(m, e) && q < |m.st| && Shaped(Step(m, e)) && |Step(m, e).st| == |m.st| && !e.Go?
    ensures StateOk(Step(m, e), q)
  {
    hide OneCpu, OneWait, Parents, Orphans, NoZombieMissed, Forks, CpuPc, Advance, CanGo, StateOk, Free;
    if e.Yield? || e.Sleep? {
      SwitchState(m, e, q);
    } else {
      CallState(m, e, q);
    }
  }

  lemma SwitchState(m: Machine, e: Event, q: nat)
    requires Inv(m) && Enabled(m, e) && q < |m.st| && (e.Yield? || e.Sleep?)
    ensures Shaped(Step(m, e)) && |Step(m, e).st| == |m.st| && StateOk(Step(m, e), q)
  {
    hide OneCpu, OneWait, Parents, Orphans, NoZombieMissed, Forks, CpuPc, Advance, CanGo, Free, StateOk;
    if q == m.cpu[e.c].p {
      SwitchOwn(m, e);
    } else {
      assert StateOk(m, q);
      SameState(m, Step(m, e), q);
    }
  }

  lemma SameState(m: Machine, r: Machine, q: nat)
    requires Shaped(m) && Shaped(r) && q < |m.st| == |r.st| && StateOk(m, q)
    requires r.pc[q] == m.pc[q] && r.st[q] == m.st[q] && r.resume[q] == m.resume[q] && r.parent[q] == m.parent[q]
    requires r.exits[q] == m.exits[q] && r.reaps[q] == m.reaps[q]
    ensures StateOk(r, q)
  {
  }

  lemma SwitchOwn(m: Machine, e: Event)
    requires Inv(m) && Enabled(m, e) && (e.Yield? || e.Sleep?)
    ensures Shaped(Step(m, e)) && m.cpu[e.c].p < |Step(m, e).st| && StateOk(Step(m, e), m.cpu[e.c].p)
  {
    hide OneCpu, OneWait, Parents, Orphans, NoZombieMissed, Forks, CpuPc, Advance, CanGo, Free;
    assert StateOk(m, m.cpu[e.c].p);
  }

  lemma CallState(m: Machine, e: Event, q: nat)
    requires Inv(m) && Enabled(m, e) && q < |m.st| && !e.Go? && !e.Yield? && !e.Sleep?
    ensures Shaped(Step(m, e)) && |Step(m, e).st| == |m.st| && StateOk(Step(m, e), q)
  {
    hide OneCpu, OneWait, Parents, Orphans, NoZombieMissed, Forks, CpuPc, Advance, CanGo;
    Facts(m, e);
    assert StateOk(m, q);
  }

  lemma OwnState(m: Machine, c: nat, p: nat, flag: bool)
    requires Going(m, c, p, flag) && Shaped(Advance(m, c, p, flag)) && |Advance(m, c, p, flag).st| == |m.st|
    ensures StateOk(Advance(m, c, p, flag), p)
  {
    hide OneCpu, OneWait, Parents, Orphans, NoZombieMissed, Forks, CpuPc, Free, States, Advance, StateOk;
    if HoldsWait(m.pc[p]) {
      OwnStateWait(m, c, p, flag);
    } else {
      OwnStateRest(m, c, p, flag);
    }
  }

  lemma OwnStateWait(m: Machine, c: nat, p: nat, flag: bool)
    requires Going(m, c, p, flag) && Shaped(Advance(m, c, p, flag)) && |Advance(m, c, p, flag).st| == |m.st|
    requires HoldsWait(m.pc[p])
    ensures StateOk(Advance(m, c, p, flag), p)
  {
    hide OneCpu, OneWait, Parents, Orphans, NoZombieMissed, Forks, CpuPc, Free, States, StateOk;
    if m.pc[p].WaitScan? {
      OwnStateScan(m, c, p, flag);
    } else {
      OwnStateExit(m, c, p, flag);
    }
  }

  lemma OwnStateScan(m: Machine, c: nat, p: nat, flag: bool)
    requires Going(m, c, p, flag) && Shaped(Advance(m, c, p, flag)) && |Advance(m, c, p, flag).st| == |m.st|
    requires m.pc[p].WaitScan?
    ensures StateOk(Advance(m, c, p, flag), p)
  {
    hide OneCpu, OneWait, Parents, Orphans, NoZombieMissed, Forks, CpuPc, Free, States;
    GoFacts(m, c, p, flag);
    assert StateOk(m, p);
  }

  lemma OwnStateExit(m: Machine, c: nat, p: nat, flag: bool)
    requires Going(m, c, p, flag) && Shaped(Advance(m, c, p, flag)) && |Advance(m, c, p, flag).st| == |m.st|
    requires HoldsWait(m.pc[p]) && !m.pc[p].WaitScan?
    ensures StateOk(Advance(m, c, p, flag), p)
  {
    hide OneCpu, OneWait, Parents, Orphans, NoZombieMissed, Forks, CpuPc, Free, States;
    GoFacts(m, c, p, flag);
    assert StateOk(m, p);
  }

  lemma OwnStateRest(m: Machine, c: nat, p: nat, flag: bool)
    requires Going(m, c, p, flag) && Shaped(Advance(m, c, p, flag)) && |Advance(m, c, p, flag).st| == |m.st|
    requires !HoldsWait(m.pc[p])
    ensures StateOk(Advance(m, c, p, flag), p)
  {
    hide OneCpu, OneWait, Parents, Orphans, NoZombieMissed, Forks, CpuPc, Free, States;
    GoFacts(m, c, p, flag);
    assert StateOk(m, p);
  }

  lemma OtherState(m: Machine, c: nat, p: nat, flag: bool, q: nat)
    requires Going(m, c, p, flag) && Shaped(Advance(m, c, p, flag)) && |Advance(m, c, p, flag).st| == |m.st|
    requires q < |m.st| && q != p
    ensures StateOk(Advance(m, c, p, flag), q)
  {
    hide OneCpu, OneWait, Parents, Orphans, NoZombieMissed, Forks, CpuPc, Free, Advance, StateOk;
    assert StateOk(m, q);
    if m.pc[p].WaitScan? {
      OtherStateScan(m, c, p, flag, q);
    } else if HoldsWait(m.pc[p]) {
      OtherStateExit(m, c, p, flag, q);
    } else {
      OtherStateRest(m, c, p, flag, q);
    }
  }

  lemma OtherStateScan(m: Machine, c: nat, p: nat, flag: bool, q: nat)
    requires Going(m, c, p, flag) && Shaped(Advance(m, c, p, flag)) && |Advance(m, c, p, flag).st| == |m.st|
    requires q < |m.st| && StateOk(m, q) && q != p && m.pc[p].WaitScan?
    ensures StateOk(Advance(m, c, p, flag), q)
  {
    hide OneCpu, OneWait, Parents, Orphans, NoZombieMissed, Forks, CpuPc, States;
  }

  lemma OtherStateExit(m: Machine, c: nat, p: nat, flag: bool, q: nat)
    requires Going(m, c, p, flag) && Shaped(Advance(m, c, p, flag)) && |Advance(m, c, p, flag).st| == |m.st|
    requires q < |m.st| && StateOk(m, q) && q != p && HoldsWait(m.pc[p]) && !m.pc[p].WaitScan?
    ensures StateOk(Advance(m, c, p, flag), q)
  {
    hide OneCpu, OneWait, Parents, Orphans, NoZombieMissed, Forks, CpuPc, Free, CanGo, States;
  }

  lemma OtherStateRest(m: Machine, c: nat, p: nat, flag: bool, q: nat)
    requires Going(m, c, p, flag) && Shaped(Advance(m, c, p, flag)) && |Advance(m, c, p, flag).st| == |m.st|
    requires q < |m.st| && StateOk(m, q) && q != p && !HoldsWait(m.pc[p])
    ensures StateOk(Advance(m, c, p, flag), q)
  {
    hide OneCpu, OneWait, Parents, Orphans, NoZombieMissed, Forks, CpuPc, States;
    GoFacts(m, c, p, flag);
  }

  // ----------------------------------------------------------------- Forks

  // Only the process that moves changes what it is making.
  lemma StepMaking(m: Machine, e: Event, p: nat)
    requires Inv(m) && Enabled(m, e) && p < |m.st| && Shaped(Step(m, e)) && |Step(m, e).st| == |m.st|
    ensures Making(Step(m, e), p) == Making(m, p)
         || (Making(Step(m, e), p) == None && e.Go? && m.cpu[e.c] == Exec(p))
         || (e.Fork? && m.cpu[e.c] == Exec(p) && Making(Step(m, e), p) == Some(e.np))
  {
    hide OneCpu, OneWait, Parents, Orphans, NoZombieMissed, Forks, CpuPc, Free, Advance;
    if e.Go? && m.cpu[e.c].Exec? {
      GoMaking(m, e.c, m.cpu[e.c].p, e.flag, p);
    } else {
      EventMaking(m, e, p);
    }
  }

  lemma EventMaking(m: Machine, e: Event, p: nat)
    requires Inv(m) && Enabled(m, e) && p < |m.st| && (e.Go? ==> !m.cpu[e.c].Exec?)
    ensures Shaped(Step(m, e)) && |Step(m, e).st| == |m.st|
    ensures Making(Step(m, e), p) == Making(m, p)
         || (e.Fork? && m.cpu[e.c] == Exec(p) && Making(Step(m, e), p) == Some(e.np))
  {
    hide OneCpu, OneWait, Parents, Orphans, NoZombieMissed, Forks, CpuPc, Free, Advance, StateOk, Making, States;
    if Step(m, e).pc[p] == m.pc[p] && Step(m, e).resume[p] == m.resume[p] {
      SameMaking(m, Step(m, e), p);
    } else {
      MoverMaking(m, e, p);
    }
  }

  lemma MoverMaking(m: Machine, e: Event, p: nat)
    requires Inv(m) && Enabled(m, e) && p < |m.st| && (e.Go? ==> !m.cpu[e.c].Exec?)
    requires Shaped(Step(m, e)) && |Step(m, e).st| == |m.st|
    requires Step(m, e).pc[p] != m.pc[p] || Step(m, e).resume[p] != m.resume[p]
    ensures Making(Step(m, e), p) == Making(m, p)
         || (e.Fork? && m.cpu[e.c] == Exec(p) && Making(Step(m, e), p) == Some(e.np))
  {
    hide OneCpu, OneWait, Parents, Orphans, NoZombieMissed, Forks, CpuPc, Free, Advance;
    assert StateOk(m, p);
  }

  lemma GoMaking(m: Machine, c: nat, p: nat, flag: bool, q: nat)
    requires Going(m, c, p, flag) && Shaped(Advance(m, c, p, flag)) && |Advance(m, c, p, flag).st| == |m.st|
    requires q < |m.st|
    ensures var r := Advance(m, c, p, flag);
      Making(r, q) == Making(m, q) || (q == p && Making(r, q) == None)
  {
    hide OneCpu, OneWait, Parents, Orphans, NoZombieMissed, Forks, CpuPc, States, Free, CanGo, Advance, StateOk, Making;
    GoFacts(m, c, p, flag);
    if q != p {
      GoFrame(m, c, p, flag);
      SameMaking(m, Advance(m, c, p, flag), q);
    } else {
      assert StateOk(m, p);
      OwnMaking(m, c, p, flag);
    }
  }

  lemma SameMaking(m: Machine, r: Machine, q: nat)
    requires Shaped(m) && Shaped(r) && q < |m.st| == |r.st| && r.pc[q] == m.pc[q] && r.resume[q] == m.resume[q]
    ensures Making(r, q) == Making(m, q)
  {
  }

  lemma OwnMaking(m: Machine, c: nat, p: nat, flag: bool)
    requires Shaped(m) && p < |m.st| && c < |m.cpu| && CanGo(m, p) && StateOk(m, p) && m.pc[p] != Off
    requires Shaped(Advance(m, c, p, flag)) && |Advance(m, c, p, flag).st| == |m.st|
    ensures Making(Advance(m, c, p, flag), p) == Making(m, p) || Making(Advance(m, c, p, flag), p) == None
  {
    hide Free, CanGo;
  }

  // A slot being made stays so while its maker keeps it.
  lemma StepUsed(m: Machine, e: Event, p: nat)
    requires Inv(m) && Enabled(m, e) && p < |m.st| && Shaped(Step(m, e)) && |Step(m, e).st| == |m.st|
    requires Making(m, p).Some? && Making(Step(m, e), p) == Making(m, p)
    ensures Making(m, p).value < |m.st| && Step(m, e).st[Making(m, p).value] == Used
  {
    hide OneCpu, OneWait, Orphans, Parents, NoZombieMissed, CpuPc, Free, Advance;
    Facts(m, e);
    assert StateOk(m, p) && StateOk(m, Making(m, p).value);
    if e.Go? && m.cpu[e.c].Exec? {
      GoUsed(m, e.c, m.cpu[e.c].p, e.flag, p);
    }
  }

  lemma GoUsed(m: Machine, c: nat, p: nat, flag: bool, q: nat)
    requires Going(m, c, p, flag) && Shaped(Advance(m, c, p, flag)) && |Advance(m, c, p, flag).st| == |m.st|
    requires q < |m.st| && Making(m, q).Some? && Making(m, q).value < |m.st| && m.st[Making(m, q).value] == Used
    requires Making(Advance(m, c, p, flag), q) == Making(m, q)
    ensures Advance(m, c, p, flag).st[Making(m, q).value] == Used
  {
    hide OneCpu, OneWait, Orphans, Parents, NoZombieMissed, CpuPc, Free, States;
    GoFacts(m, c, p, flag);
    assert StateOk(m, p);
    if p != q {
      assert Making(m, p) != Making(m, q);
    }
  }

  lemma StepForks(m: Machine, e: Event)
    requires Inv(m) && Enabled(m, e) && Shaped(Step(m, e)) && |Step(m, e).st| == |m.st|
    ensures Forks(Step(m, e))
  {
    hide OneCpu, OneWait, Parents, Orphans, NoZombieMissed, CpuPc, Free, Making, Advance, StateOk;
    var r := Step(m, e);
    forall p: nat | p < |m.st| && Making(r, p).Some?
      ensures Making(r, p).value < |m.st| && r.st[Making(r, p).value] == Used
    {
      StepMaking(m, e, p);
      if Making(r, p) == Making(m, p) {
        StepUsed(m, e, p);
      }
    }
    forall p: nat, q: nat | p < |m.st| && q < |m.st| && p != q && Making(r, p).Some?
      ensures Making(r, p) != Making(r, q)
    {
      StepMaking(m, e, p);
      StepMaking(m, e, q);
    }
  }

  lemma StepOneWait(m: Machine, e: Event)
    requires Inv(m) && Enabled(m, e) && Shaped(Step(m, e)) && |Step(m, e).st| == |m.st|
    ensures OneWait(Step(m, e))
  {
    hide Forks, Parents, Orphans, NoZombieMissed, OneCpu, CpuPc, Free, States, Step, Enabled, HoldsWait;
    Frame(m, e);
    if 0 <= Mover(m, e) < |m.pc| {
      MoverWaits(m, e);
    }
  }

  // --------------------------------------------------------------- Parents

  // A parent pointer changes only in fork, when exit hands a child to init, and
  // when wait frees a zombie.
  lemma StepParent(m: Machine, e: Event, i: nat)
    requires Inv(m) && Enabled(m, e) && i < |m.st| && Shaped(Step(m, e)) && |Step(m, e).st| == |m.st|
    ensures Step(m, e).parent[i] == m.parent[i]
         || (Gone(m, e) && Step(m, e).parent[i] == None && Step(m, e).st[i] == Unused)
         || (Gone(m, e) && m.pc[Mover(m, e)] == ForkLink(i) && Step(m, e).parent[i] == Some(Mover(m, e))
             && m.st[i] == Used && WaitFree(m))
         || (Gone(m, e) && m.pc[Mover(m, e)] == ExitRep(i) && m.parent[i] == Some(Mover(m, e))
             && Step(m, e).parent[i] == Some(INIT) && Step(m, e).pc[Mover(m, e)] == ExitRepWake(i))
  {
    hide OneCpu, OneWait, Parents, Orphans, NoZombieMissed, Free, Advance, CanGo, StateOk, States, CpuPc;
    if e.Go? && m.cpu[e.c].Exec? {
      Facts(m, e);
      AdvanceParent(m, e.c, m.cpu[e.c].p, e.flag, i);
      assert m.pc[m.cpu[e.c].p] == ForkLink(i) ==> Making(m, m.cpu[e.c].p) == Some(i);
    }
  }

  lemma AdvanceParent(m: Machine, c: nat, p: nat, flag: bool, i: nat)
    requires Shaped(m) && p < |m.st| && i < |m.st| && c < |m.cpu| && CanGo(m, p)
    requires Shaped(Advance(m, c, p, flag)) && |Advance(m, c, p, flag).st| == |m.st|
    ensures var r := Advance(m, c, p, flag);
      || r.parent[i] == m.parent[i]
      || (r.parent[i] == None && r.st[i] == Unused)
      || (m.pc[p] == ForkLink(i) && r.parent[i] == Some(p) && WaitFree(m))
      || (m.pc[p] == ExitRep(i) && m.parent[i] == Some(p) && r.parent[i] == Some(INIT) && r.pc[p] == ExitRepWake(i))
  {
    hide Free, WaitFree;
    if !m.pc[p].ForkLink? && !m.pc[p].ExitRep? && !m.pc[p].WaitScan? {
      assert Advance(m, c, p, flag).parent == m.parent;
    }
  }

  // The event is a step of a process that is executing.
  predicate Gone(m: Machine, e: Event)
    requires Enabled(m, e)
  {
    e.Go? && m.cpu[e.c].Exec? && 0 <= Mover(m, e) < |m.pc|
  }

  // A process dies only at the end of exit, when it has no children left, and a
  // slot is emptied only when it had none.
  lemma StepAlive(m: Machine, e: Event, q: nat)
    requires Inv(m) && Enabled(m, e) && q < |m.st| && Shaped(Step(m, e)) && |Step(m, e).st| == |m.st|
    requires Alive(m.st[q]) && !Alive(Step(m, e).st[q])
    ensures Gone(m, e) && Mover(m, e) == q && m.pc[q] == ExitMark
    ensures forall i: nat :: i < |m.st| ==> m.parent[i] != Some(q)
  {
    hide OneCpu, OneWait, Parents, NoZombieMissed, CpuPc, Free, Advance, CanGo, Forks;
    Facts(m, e);
    if e.Go? && m.cpu[e.c].Exec? {
      GoAlive(m, e.c, m.cpu[e.c].p, e.flag, q);
      assert forall i: nat :: i < |m.st| ==> HandedOver(m.pc[q], i);
    }
  }

  lemma GoAlive(m: Machine, c: nat, p: nat, flag: bool, q: nat)
    requires Going(m, c, p, flag) && Shaped(Advance(m, c, p, flag)) && |Advance(m, c, p, flag).st| == |m.st|
    requires q < |m.st| && Alive(m.st[q]) && !Alive(Advance(m, c, p, flag).st[q])
    ensures p == q && m.pc[q] == ExitMark
  {
    hide OneCpu, OneWait, Parents, Orphans, NoZombieMissed, CpuPc, Free, CanGo, Forks, States;
    GoFacts(m, c, p, flag);
  }

  lemma StepParents(m: Machine, e: Event)
    requires Inv(m) && Enabled(m, e) && Shaped(Step(m, e)) && |Step(m, e).st| == |m.st|
    ensures Parents(Step(m, e))
  {
    hide OneCpu, OneWait, NoZombieMissed, CpuPc, Forks, Free, Advance, States, Step, Enabled;
    var r := Step(m, e);
    forall i: nat | i < |m.st|
      ensures r.parent[i].Some? ==>
                r.parent[i].value < |m.st| && r.parent[i].value != i && Alive(r.st[r.parent[i].value])
      ensures r.st[i] == Unused ==> r.parent[i] == None
      ensures r.pc[i].ForkHeld? && r.pc[i].np < |m.st| ==> r.parent[r.pc[i].np] == None
    {
      if r.parent[i].Some? {
        ParentAlive(m, e, i);
      }
      UnusedParent(m, e, i);
      if r.pc[i].ForkHeld? && r.pc[i].np < |m.st| {
        ForkParent(m, e, i);
      }
    }
  }

  lemma ParentAlive(m: Machine, e: Event, i: nat)
    requires Inv(m) && Enabled(m, e) && Shaped(Step(m, e)) && |Step(m, e).st| == |m.st| && i < |m.st|
    requires Step(m, e).parent[i].Some?
    ensures var q := Step(m, e).parent[i].value; q < |m.st| && q != i && Alive(Step(m, e).st[q])
  {
    hide OneCpu, OneWait, NoZombieMissed, CpuPc, Forks, Free, Advance, Step, Enabled;
    var r := Step(m, e);
    var q := r.parent[i].value;
    StepParent(m, e, i);
    assert StateOk(m, INIT);
    if Gone(m, e) {
      assert StateOk(m, Mover(m, e));
    }
    assert q < |m.st| && q != i && Alive(m.st[q]);
    if !Alive(r.st[q]) {
      StepAlive(m, e, q);
      assert false;
    }
  }

  // A slot is emptied only by the fork that took it or by the parent.
  lemma StepUnused(m: Machine, e: Event, i: nat)
    requires Inv(m) && Enabled(m, e) && i < |m.st| && Shaped(Step(m, e)) && |Step(m, e).st| == |m.st|
    requires Step(m, e).st[i] == Unused && m.st[i] != Unused
    ensures Step(m, e).parent[i] == None
         || (Gone(m, e) && m.pc[Mover(m, e)] == ForkHeld(i) && Step(m, e).parent[i] == m.parent[i])
  {
    hide OneCpu, OneWait, Parents, Orphans, NoZombieMissed, CpuPc, Free, States, Forks, Advance, CanGo;
    Facts(m, e);
    if e.Go? && m.cpu[e.c].Exec? {
      GoUnused(m, e.c, m.cpu[e.c].p, e.flag, i);
    }
  }

  lemma GoUnused(m: Machine, c: nat, p: nat, flag: bool, i: nat)
    requires Going(m, c, p, flag) && Shaped(Advance(m, c, p, flag)) && |Advance(m, c, p, flag).st| == |m.st|
    requires i < |m.st| && Advance(m, c, p, flag).st[i] == Unused && m.st[i] != Unused
    ensures Advance(m, c, p, flag).parent[i] == None
         || (m.pc[p] == ForkHeld(i) && Advance(m, c, p, flag).parent[i] == m.parent[i])
  {
    hide OneCpu, OneWait, Parents, Orphans, NoZombieMissed, CpuPc, Free, States, Forks, CanGo;
  }

  lemma UnusedParent(m: Machine, e: Event, i: nat)
    requires Inv(m) && Enabled(m, e) && Shaped(Step(m, e)) && |Step(m, e).st| == |m.st| && i < |m.st|
    ensures Step(m, e).st[i] == Unused ==> Step(m, e).parent[i] == None
  {
    hide OneCpu, OneWait, NoZombieMissed, CpuPc, Forks, Free, Advance, Step, Enabled, States;
    if Step(m, e).st[i] == Unused {
      if m.st[i] == Unused {
        StepParent(m, e, i);
      } else {
        StepUnused(m, e, i);
      }
    }
  }

  lemma ForkParent(m: Machine, e: Event, i: nat)
    requires Inv(m) && Enabled(m, e) && Shaped(Step(m, e)) && |Step(m, e).st| == |m.st| && i < |m.st|
    requires Step(m, e).pc[i].ForkHeld? && Step(m, e).pc[i].np < |m.st|
    ensures Step(m, e).parent[Step(m, e).pc[i].np] == None
  {
    hide OneCpu, OneWait, NoZombieMissed, CpuPc, Free, Advance, States, Orphans;
    var np := Step(m, e).pc[i].np;
    StepParent(m, e, np);
    if m.pc[i] == ForkHeld(np) {
      assert Making(m, i) == Some(np);
      if Gone(m, e) && Mover(m, e) != i {
        assert Making(m, Mover(m, e)) != Some(np);
      }
    } else {
      Frame(m, e);
      MoverForks(m, e, np);
    }
  }

  lemma MoverForks(m: Machine, e: Event, np: nat)
    requires Inv(m) && Enabled(m, e) && 0 <= Mover(m, e) < |m.pc| == |Step(m, e).pc| && np < |m.st|
    requires Step(m, e).pc[Mover(m, e)] == ForkHeld(np)
    ensures e == Fork(e.c, np) && m.st[np] == Unused && Step(m, e).parent == m.parent
  {
    hide OneCpu, OneWait, Parents, Orphans, NoZombieMissed, Forks, Free, CpuPc, CanGo, Advance, StateOk;
    Facts(m, e);
    if e.Go? && m.cpu[e.c].Exec? {
      GoNoFork(m, e.c, m.cpu[e.c].p, e.flag);
    }
  }

  lemma GoNoFork(m: Machine, c: nat, p: nat, flag: bool)
    requires Shaped(m) && p < |m.st| && c < |m.cpu| && CanGo(m, p) && StateOk(m, p)
    ensures p < |Advance(m, c, p, flag).pc| && !Advance(m, c, p, flag).pc[p].ForkHeld?
  {
    hide Free, CanGo;
  }

  // --------------------------------------------------------------- Orphans

  lemma StepOrphans(m: Machine, e: Event)
    requires Inv(m) && Enabled(m, e) && Shaped(Step(m, e)) && |Step(m, e).st| == |m.st|
    ensures Orphans(Step(m, e))
  {
    hide OneCpu, NoZombieMissed, CpuPc, Forks, Free, Advance, States, Step, Enabled, HandedOver;
    var r := Step(m, e);
    forall p: nat, i: nat | p < |m.st| && i < |m.st| && HandedOver(r.pc[p], i)
      ensures r.parent[i] != Some(p)
    {
      OrphanStays(m, e, p, i);
    }
  }

  lemma OrphanStays(m: Machine, e: Event, p: nat, i: nat)
    requires Inv(m) && Enabled(m, e) && Shaped(Step(m, e)) && |Step(m, e).st| == |m.st| && p < |m.st| && i < |m.st|
    requires HandedOver(Step(m, e).pc[p], i)
    ensures Step(m, e).parent[i] != Some(p)
  {
    hide OneCpu, NoZombieMissed, CpuPc, Forks, Free, Advance, Step, Enabled;
    StepParent(m, e, i);
    Frame(m, e);
    assert StateOk(m, INIT) && StateOk(m, p);
    if p == Mover(m, e) {
      MoverHands(m, e, i);
    }
  }

  // exit moves past an entry only after it has looked at it.
  lemma MoverHands(m: Machine, e: Event, i: nat)
    requires Inv(m) && Enabled(m, e) && 0 <= Mover(m, e) < |m.pc| == |Step(m, e).pc| && i < |m.st|
    requires |Step(m, e).parent| == |m.st|
    requires HandedOver(Step(m, e).pc[Mover(m, e)], i)
    ensures Mover(m, e) != INIT
    ensures Step(m, e).parent[i] == m.parent[i] || Step(m, e).parent[i] == Some(INIT)
    ensures HandedOver(m.pc[Mover(m, e)], i) || Step(m, e).parent[i] != Some(Mover(m, e))
  {
    hide OneCpu, OneWait, Parents, NoZombieMissed, Forks, Free, CpuPc, Orphans, Advance;
    Facts(m, e);
    if e.Go? && m.cpu[e.c].Exec? {
      GoHands(m, e.c, m.cpu[e.c].p, e.flag, i);
    }
  }

  lemma GoHands(m: Machine, c: nat, p: nat, flag: bool, i: nat)
    requires Going(m, c, p, flag) && p < |Advance(m, c, p, flag).pc| && i < |m.st| == |Advance(m, c, p, flag).parent|
    requires HandedOver(Advance(m, c, p, flag).pc[p], i)
    ensures p != INIT
    ensures Advance(m, c, p, flag).parent[i] == m.parent[i] || Advance(m, c, p, flag).parent[i] == Some(INIT)
    ensures HandedOver(m.pc[p], i) || Advance(m, c, p, flag).parent[i] != Some(p)
  {
    hide OneCpu, OneWait, Parents, NoZombieMissed, Forks, Free, CpuPc, Orphans, CanGo, States;
    GoFacts(m, c, p, flag);
  }

  // -------------------------------------------------------- no missed child

  lemma NewZombie(m: Machine, e: Event, i: nat)
    requires Inv(m) && Enabled(m, e) && Shaped(Step(m, e)) && |Step(m, e).st| == |m.st| && i < |m.st|
    requires Step(m, e).st[i] == Zombie && m.st[i] != Zombie
    ensures Gone(m, e) && Mover(m, e) == i && m.pc[i] == ExitMark && Step(m, e).parent == m.parent
    ensures forall q: nat :: q < |m.st| && q != i ==> Step(m, e).st[q] == m.st[q] && Step(m, e).pc[q] == m.pc[q]
  {
    hide OneCpu, OneWait, Parents, NoZombieMissed, CpuPc, Free, Forks, Orphans, CanGo, Advance;
    Facts(m, e);
    if e.Go? && m.cpu[e.c].Exec? {
      GoZombie(m, e.c, m.cpu[e.c].p, e.flag, i);
    }
  }

  lemma GoZombie(m: Machine, c: nat, p: nat, flag: bool, i: nat)
    requires Going(m, c, p, flag) && Shaped(Advance(m, c, p, flag)) && |Advance(m, c, p, flag).st| == |m.st|
    requires i < |m.st| && Advance(m, c, p, flag).st[i] == Zombie && m.st[i] != Zombie
    ensures p == i && m.pc[i] == ExitMark && Advance(m, c, p, flag).parent == m.parent
    ensures forall q: nat :: q < |m.st| && q != i ==>
      Advance(m, c, p, flag).st[q] == m.st[q] && Advance(m, c, p, flag).pc[q] == m.pc[q]
  {
    hide OneCpu, OneWait, Parents, NoZombieMissed, CpuPc, Free, Forks, Orphans, CanGo, States;
    GoFacts(m, c, p, flag);
  }

  lemma NewAsleep(m: Machine, e: Event, q: nat)
    requires Inv(m) && Enabled(m, e) && Shaped(Step(m, e)) && |Step(m, e).st| == |m.st| && q < |m.st|
    requires WaitAsleep(Step(m, e), q) && !WaitAsleep(m, q)
    ensures Gone(m, e) && Mover(m, e) == q && m.pc[q].WaitScan? && m.pc[q].i >= |m.st|
    ensures Step(m, e).parent == m.parent && Step(m, e).st == m.st
  {
    hide OneCpu, OneWait, Parents, NoZombieMissed, CpuPc, Free, Forks, Orphans, CanGo, Advance;
    Facts(m, e);
    if e.Go? && m.cpu[e.c].Exec? {
      GoAsleep(m, e.c, m.cpu[e.c].p, e.flag, q);
    }
  }

  lemma GoAsleep(m: Machine, c: nat, p: nat, flag: bool, q: nat)
    requires Going(m, c, p, flag) && Shaped(Advance(m, c, p, flag)) && |Advance(m, c, p, flag).st| == |m.st|
    requires q < |m.st| && WaitAsleep(Advance(m, c, p, flag), q) && !WaitAsleep(m, q)
    ensures p == q && m.pc[q].WaitScan? && m.pc[q].i >= |m.st|
    ensures Advance(m, c, p, flag).parent == m.parent && Advance(m, c, p, flag).st == m.st
  {
    hide OneCpu, OneWait, Parents, NoZombieMissed, CpuPc, Free, Forks, Orphans, CanGo, States;
    GoFacts(m, c, p, flag);
  }

  // The two wakeups of exit.
  lemma ExitWakes(m: Machine, e: Event)
    requires Inv(m) && Enabled(m, e) && Gone(m, e) && Shaped(Step(m, e)) && |Step(m, e).st| == |m.st|
    ensures m.pc[Mover(m, e)].ExitRepWake? ==> !WaitAsleep(Step(m, e), INIT)
    ensures Step(m, e).pc[Mover(m, e)] == ExitMark ==> Step(m, e).parent == m.parent
    ensures Step(m, e).pc[Mover(m, e)] == ExitMark ==>
              forall q: nat :: m.parent[Mover(m, e)] == Some(q) && q < |m.st| && q != Mover(m, e) ==>
                !WaitAsleep(Step(m, e), q)
  {
    hide OneCpu, OneWait, Parents, NoZombieMissed, CpuPc, Forks, Orphans, States, Free, CanGo, Advance, WaitAsleep,
         StateOk;
    Facts(m, e);
    GoWakes(m, e.c, m.cpu[e.c].p, e.flag);
  }

  lemma GoWakes(m: Machine, c: nat, p: nat, flag: bool)
    requires Shaped(m) && p < |m.st| && c < |m.cpu| && CanGo(m, p) && StateOk(m, p)
    requires Shaped(Advance(m, c, p, flag)) && |Advance(m, c, p, flag).st| == |m.st|
    ensures m.pc[p].ExitRepWake? ==> !WaitAsleep(Advance(m, c, p, flag), INIT)
    ensures Advance(m, c, p, flag).pc[p] == ExitMark ==> Advance(m, c, p, flag).parent == m.parent
    ensures Advance(m, c, p, flag).pc[p] == ExitMark ==>
              forall q: nat :: m.parent[p] == Some(q) && q < |m.st| && q != p ==>
                !WaitAsleep(Advance(m, c, p, flag), q)
  {
  }

  // wait moves past a child only when it is not a zombie.
  lemma ScanMoves(m: Machine, e: Event, i: nat)
    requires Inv(m) && Enabled(m, e) && 0 <= Mover(m, e) < |m.pc| && Shaped(Step(m, e)) && |Step(m, e).st| == |m.st|
    requires i < |m.st| && Step(m, e).pc[Mover(m, e)].WaitScan? && i < Step(m, e).pc[Mover(m, e)].i
    ensures Step(m, e).st == m.st && Step(m, e).parent == m.parent && m.pc[Mover(m, e)].WaitScan?
    ensures i < m.pc[Mover(m, e)].i || m.parent[i] != Some(Mover(m, e)) || m.st[i] != Zombie
  {
    hide OneCpu, OneWait, Parents, NoZombieMissed, CpuPc, Forks, Orphans, Free, StateOk, Advance, CanGo;
    if e.Go? && m.cpu[e.c].Exec? {
      AdvanceScans(m, e.c, m.cpu[e.c].p, e.flag, i);
    }
  }

  lemma AdvanceScans(m: Machine, c: nat, p: nat, flag: bool, i: nat)
    requires Shaped(m) && States(m) && p < |m.st| && i < |m.st| && c < |m.cpu| && CanGo(m, p)
    requires Shaped(Advance(m, c, p, flag)) && |Advance(m, c, p, flag).st| == |m.st|
    requires Advance(m, c, p, flag).pc[p].WaitScan? && i < Advance(m, c, p, flag).pc[p].i
    ensures Advance(m, c, p, flag).st == m.st && Advance(m, c, p, flag).parent == m.parent && m.pc[p].WaitScan?
    ensures i < m.pc[p].i || m.parent[i] != Some(p) || m.st[i] != Zombie
  {
    hide Free, WaitFree;
    assert StateOk(m, p);
  }

  lemma StepMissed(m: Machine, e: Event)
    requires Inv(m) && Enabled(m, e) && Shaped(Step(m, e)) && |Step(m, e).st| == |m.st| && Parents(Step(m, e))
    ensures NoZombieMissed(Step(m, e))
  {
    hide OneCpu, CpuPc, Forks, Orphans, Free, Advance, States, Step, Enabled, Handing, WaitAsleep, OneWait;
    var r := Step(m, e);
    forall i: nat | i < |m.st| && r.st[i] == Zombie && r.parent[i].Some? && WaitAsleep(r, r.parent[i].value)
      ensures r.parent[i].value == INIT && Handing(r, i)
    {
      MissedZombie(m, e, i, r.parent[i].value);
    }
    forall p: nat | p < |m.st| && r.pc[p] == ExitMark && r.parent[p].Some?
      ensures !WaitAsleep(r, r.parent[p].value)
    {
      MissedParent(m, e, p, r.parent[p].value);
    }
    forall q: nat, i: nat | q < |m.st| && i < |m.st| && r.pc[q].WaitScan? && i < r.pc[q].i && r.parent[i] == Some(q)
      ensures r.st[i] != Zombie
    {
      MissedScan(m, e, q, i);
    }
  }

  lemma MissedZombie(m: Machine, e: Event, i: nat, q: nat)
    requires Inv(m) && Enabled(m, e) && Shaped(Step(m, e)) && |Step(m, e).st| == |m.st| && Parents(Step(m, e))
    requires i < |m.st| && q < |m.st| && Step(m, e).st[i] == Zombie && Step(m, e).parent[i] == Some(q)
    requires WaitAsleep(Step(m, e), q)
    ensures q == INIT && Handing(Step(m, e), i)
  {
    hide OneCpu, CpuPc, Forks, Orphans, Free, Advance, States, Step, Enabled;
    var r := Step(m, e);
    StepParent(m, e, i);
    Frame(m, e);
    if m.st[i] != Zombie {
      NewZombie(m, e, i);
    } else if r.parent[i] == m.parent[i] {
      if !WaitAsleep(m, q) {
        NewAsleep(m, e, q);
      } else {
        var p: nat :| p < |m.pc| && m.pc[p] == ExitRepWake(i);
        if Mover(m, e) == p {
          MoverGoes(m, e);
          ExitWakes(m, e);
        } else {
          assert r.pc[p] == ExitRepWake(i);
        }
      }
    } else {
      var p: nat := Mover(m, e);
      assert r.pc[p] == ExitRepWake(i);
    }
  }

  lemma MoverGoes(m: Machine, e: Event)
    requires Inv(m) && Enabled(m, e) && 0 <= Mover(m, e) < |m.pc| && HoldsWait(m.pc[Mover(m, e)])
    ensures Gone(m, e)
  {
    hide OneCpu, CpuPc, Forks, Orphans, Free, Parents, NoZombieMissed, OneWait;
    Facts(m, e);
  }

  // A parent pointer is set only with wait_lock held or free to take.
  lemma ParentSet(m: Machine, e: Event, i: nat, p: nat)
    requires Inv(m) && Enabled(m, e) && Shaped(Step(m, e)) && |Step(m, e).st| == |m.st| && i < |m.st|
    requires p < |m.pc| && HoldsWait(m.pc[p]) && Mover(m, e) != p
    ensures Step(m, e).parent[i] == m.parent[i] || Step(m, e).parent[i] == None
  {
    hide OneCpu, CpuPc, Forks, Orphans, Free, Advance, States, Step, Enabled, Parents, NoZombieMissed;
    StepParent(m, e, i);
  }

  lemma MissedParent(m: Machine, e: Event, p: nat, q: nat)
    requires Inv(m) && Enabled(m, e) && Shaped(Step(m, e)) && |Step(m, e).st| == |m.st| && Parents(Step(m, e))
    requires p < |m.st| && q < |m.st| && Step(m, e).pc[p] == ExitMark && Step(m, e).parent[p] == Some(q)
    ensures !WaitAsleep(Step(m, e), q)
  {
    hide OneCpu, CpuPc, Forks, Orphans, Free, Advance, States, Step, Enabled, WaitAsleep;
    Frame(m, e);
    if Mover(m, e) == p {
      MarkMoves(m, e);
      StepParent(m, e, p);
      ExitWakes(m, e);
    } else {
      ParentSet(m, e, p, p);
      if WaitAsleep(Step(m, e), q) {
        NewAsleep(m, e, q);
      }
    }
  }

  lemma MarkMoves(m: Machine, e: Event)
    requires Inv(m) && Enabled(m, e) && 0 <= Mover(m, e) < |m.pc| == |Step(m, e).pc|
    requires Step(m, e).pc[Mover(m, e)] == ExitMark
    ensures Gone(m, e) && m.pc[Mover(m, e)] == ExitWake
  {
    hide OneCpu, CpuPc, Forks, Orphans, Free, Parents, NoZombieMissed, OneWait, Advance, CanGo, StateOk;
    Facts(m, e);
    if e.Go? && m.cpu[e.c].Exec? {
      GoMark(m, e.c, m.cpu[e.c].p, e.flag);
    }
  }

  lemma GoMark(m: Machine, c: nat, p: nat, flag: bool)
    requires Shaped(m) && p < |m.st| && c < |m.cpu| && CanGo(m, p) && StateOk(m, p)
    ensures p < |Advance(m, c, p, flag).pc| && (Advance(m, c, p, flag).pc[p] == ExitMark ==> m.pc[p] == ExitWake)
  {
    hide Free, CanGo;
  }

  lemma MissedScan(m: Machine, e: Event, q: nat, i: nat)
    requires Inv(m) && Enabled(m, e) && Shaped(Step(m, e)) && |Step(m, e).st| == |m.st| && Parents(Step(m, e))
    requires q < |m.st| && i < |m.st| && Step(m, e).pc[q].WaitScan? && i < Step(m, e).pc[q].i
    requires Step(m, e).parent[i] == Some(q)
    ensures Step(m, e).st[i] != Zombie
  {
    hide OneCpu, CpuPc, Forks, Orphans, Free, Advance, States, Step, Enabled, WaitAsleep;
    Frame(m, e);
    if Mover(m, e) == q {
      ScanMoves(m, e, i);
    } else {
      ParentSet(m, e, i, q);
      if Step(m, e).st[i] == Zombie && m.st[i] != Zombie {
        NewZombie(m, e, i);
      }
    }
  }

  // -------------------------------------------------------------- all runs

  lemma StepKeeps(m: Machine, e: Event)
    requires Inv(m) && Enabled(m, e)
    ensures Inv(Step(m, e))
  {
    hide OneCpu, CpuPc, States, Forks, OneWait, Parents, Orphans, NoZombieMissed, Step, Enabled;
    StepSizes(m, e);
    StepOneCpu(m, e);
    AllCpuPc(m, e);
    AllStates(m, e);
    StepForks(m, e);
    StepOneWait(m, e);
    StepParents(m, e);
    StepOrphans(m, e);
    StepMissed(m, e);
  }

  lemma AllCpuPc(m: Machine, e: Event)
    requires Inv(m) && Enabled(m, e) && Shaped(Step(m, e)) && |Step(m, e).st| == |m.st| && |Step(m, e).cpu| == |m.cpu|
    ensures CpuPc(Step(m, e))
  {
    hide Step, Enabled, OneCpu, States, Forks, OneWait, Parents, Orphans, NoZombieMissed;
    forall c: nat | c < |m.cpu|
      ensures CpuOk(Step(m, e), c)
    {
      StepCpuPc(m, e, c);
    }
  }

  lemma AllStates(m: Machine, e: Event)
    requires Inv(m) && Enabled(m, e) && Shaped(Step(m, e)) && |Step(m, e).st| == |m.st|
    ensures States(Step(m, e))
  {
    hide Step, Enabled, OneCpu, CpuPc, StateOk, Forks, OneWait, Parents, Orphans, NoZombieMissed;
    forall p: nat | p < |m.st|
      ensures StateOk(Step(m, e), p)
    {
      StepStates(m, e, p);
    }
  }

  // init is ready to run, every other slot is unused, every CPU is in the
  // scheduler.
  predicate Boot(m: Machine) {
    && Shaped(m)
    && (forall p :: 0 <= p < |m.st| ==>
          m.st[p] == (if p == INIT then Runnable else Unused) && m.pc[p] == Off && m.resume[p] == Run
          && m.parent[p] == None && m.exits[p] == 0 && m.reaps[p] == 0)
    && (forall c :: 0 <= c < |m.cpu| ==> m.cpu[c].Scan?)
  }

  lemma BootInv(m: Machine)
    requires Boot(m)
    ensures Inv(m)
  {
    hide Making, StateOk, Handing;
    forall p: nat | p < |m.st|
      ensures StateOk(m, p) && Making(m, p) == None
    {
      BootProc(m, p);
    }
    forall c: nat | c < |m.cpu|
      ensures CpuOk(m, c)
    {
      assert m.cpu[c].Scan?;
    }
  }

  lemma BootProc(m: Machine, p: nat)
    requires Boot(m) && p < |m.st|
    ensures StateOk(m, p) && Making(m, p) == None
  {
  }

  ghost predicate Reach(m: Machine, es: seq<Event>, r: Machine)
    decreases |es|
  {
    if es == [] then r == m else Enabled(m, es[0]) && Reach(Step(m, es[0]), es[1..], r)
  }

  lemma {:induction false} InvReach(m: Machine, es: seq<Event>, r: Machine)
    requires Inv(m) && Reach(m, es, r)
    ensures Inv(r)
    decreases |es|
  {
    hide Inv, Enabled, Step;
    if es != [] {
      StepKeeps(m, es[0]);
      InvReach(Step(m, es[0]), es[1..], r);
    }
  }

  // The CPU at c may be about to call freeproc on slot i: in wait, or in fork or
  // its allocproc when an allocation has failed.
  predicate Frees(m: Machine, c: nat, i: nat) {
    && Shaped(m) && Runs(m, c) && i < |m.st| && CanGo(m, m.cpu[c].p)
    && (m.pc[m.cpu[c].p] == ForkHeld(i)
        || (m.pc[m.cpu[c].p].WaitScan? && m.pc[m.cpu[c].p].i == i && m.parent[i] == Some(m.cpu[c].p) &&
            m.st[i] == Zombie))
  }

  // No other step makes a slot unused.
  lemma OnlyFrees(m: Machine, e: Event, i: nat)
    requires Inv(m) && Enabled(m, e) && i < |m.st| && i < |Step(m, e).st|
    requires m.st[i] != Unused && Step(m, e).st[i] == Unused
    ensures e.Go? && Frees(m, e.c, i)
  {
    hide OneCpu, Forks, OneWait, Parents, Orphans, NoZombieMissed, StateOk;
  }

  // A slot that fork is making is in use, not started, and off every CPU.
  lemma MadeOff(m: Machine, c: nat, i: nat)
    requires Inv(m) && Runs(m, c) && m.pc[m.cpu[c].p] == ForkHeld(i)
    ensures i < |m.st| && m.st[i] == Used && m.pc[i].Off? && m.parent[i] == None
  {
    hide OneCpu, CpuPc, OneWait, Orphans, NoZombieMissed;
    assert Making(m, m.cpu[c].p) == Some(i);
    assert StateOk(m, i);
  }

  // In every state of every run: a process has at most one CPU, also while it is
  // being switched out; only slots that no CPU executes or is leaving are freed,
  // whether by wait or by a failing fork; and each exit is reported by wait at
  // most once.
  lemma LifeCycle(m: Machine, es: seq<Event>, r: Machine)
    requires Boot(m) && Reach(m, es, r)
    ensures forall c, d, p :: 0 <= c < |r.cpu| && 0 <= d < |r.cpu| && On(r.cpu[c], p) && On(r.cpu[d], p) ==> c == d
    ensures forall c: nat, i: nat :: Frees(r, c, i) ==> forall d :: 0 <= d < |r.cpu| ==> !On(r.cpu[d], i)
    ensures Shaped(r) && forall p: nat :: p < |r.st| ==> r.exits[p] == r.reaps[p] + if r.st[p] == Zombie then 1 else 0
  {
    hide Forks, OneWait, Parents, Orphans, NoZombieMissed, Reach;
    BootInv(m);
    InvReach(m, es, r);
    forall c: nat, i: nat, d: nat | Frees(r, c, i) && d < |r.cpu|
      ensures !On(r.cpu[d], i)
    {
      assert StateOk(r, i);
      if r.pc[r.cpu[c].p] == ForkHeld(i) {
        MadeOff(r, c, i);
      }
      assert CpuOk(r, d);
    }
    forall p: nat | p < |r.st|
      ensures r.exits[p] == r.reaps[p] + if r.st[p] == Zombie then 1 else 0
    {
      assert StateOk(r, p);
    }
  }

  // In every state of every run with wait_lock free: every parent is alive, and
  // no process asleep in wait() has a zombie child.
  lemma NoChildMissed(m: Machine, es: seq<Event>, r: Machine, i: nat, q: nat)
    requires Boot(m) && Reach(m, es, r) && WaitFree(r)
    requires i < |r.st| && i < |r.parent| && r.parent[i] == Some(q)
    ensures q < |r.st| && r.st[q] != Zombie && r.st[q] != Unused
    ensures r.st[q] == SleepWait ==> r.st[i] != Zombie
  {
    hide OneCpu, CpuPc, Forks, OneWait, Orphans, Reach, States;
    BootInv(m);
    InvReach(m, es, r);
    assert Handing(r, i) ==> !WaitFree(r);
    assert r.st[q] == SleepWait ==> WaitAsleep(r, q);
  }
}

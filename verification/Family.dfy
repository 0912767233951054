// Parents and children on the machine of process life cycles: what fork leaves
// behind, when wait sleeps and how it ends, and what exit hands over (proc.c).
module Family {
  import opened Basics
  import opened Proc

  // A slot in use but not started is the child that some process is making.
  predicate Made(m: Machine)
    requires Shaped(m)
  {
    forall q: nat :: q < |m.st| && m.st[q] == Used ==> MadeBy(m, q)
  }

  predicate MadeBy(m: Machine, q: nat)
    requires Shaped(m)
  {
    exists p: nat :: p < |m.st| && Making(m, p) == Some(q)
  }

  // A fork that has only to start its child has made it its own.
  predicate Adopted(m: Machine)
    requires Shaped(m)
  {
    forall p: nat, q: nat :: p < |m.st| && q < |m.st| && Starting(m, p, q) ==> m.parent[q] == Some(p)
  }

  predicate Starting(m: Machine, p: nat, q: nat)
    requires Shaped(m) && p < |m.st|
  {
    m.pc[p] == ForkRun(q) || m.resume[p] == ForkRun(q)
  }

  // Process q has a child among the first n entries.
  predicate HasChild(m: Machine, q: nat, n: nat)
    requires Shaped(m)
  {
    exists j: nat :: j < n && j < |m.st| && m.parent[j] == Some(q)
  }

  // wait knows whether it has passed a child, and sleeps only with one.
  predicate Waits(m: Machine)
    requires Shaped(m)
  {
    forall q: nat :: q < |m.st| ==>
      && (m.pc[q].WaitScan? ==> (m.pc[q].kids <==> HasChild(m, q, m.pc[q].i)))
      && (WaitAsleep(m, q) ==> HasChild(m, q, |m.st|))
  }

  // Every process that has been started has a parent, but init.
  predicate Raised(m: Machine)
    requires Shaped(m)
  {
    forall i: nat :: i < |m.st| && i != INIT && m.st[i] != Unused && m.st[i] != Used ==> m.parent[i].Some?
  }

  // A fork that has not yet linked its child leaves it without a parent.
  predicate Unlinked(m: Machine)
    requires Shaped(m)
  {
    forall p: nat, q: nat :: p < |m.st| && q < |m.st| && Linking(m, p, q) ==> m.parent[q] == None
  }

  predicate Linking(m: Machine, p: nat, q: nat)
    requires Shaped(m) && p < |m.st|
  {
    m.pc[p] == ForkLink(q) || m.resume[p] == ForkLink(q)
  }

  ghost predicate Kin(m: Machine) {
    Inv(m) && Made(m) && Adopted(m) && Unlinked(m) && Waits(m) && Raised(m)
  }

  // ------------------------------------------------------------------- fork

  lemma StepMade(m: Machine, e: Event, q: nat)
    requires Kin(m) && Enabled(m, e) && Shaped(Step(m, e)) && |Step(m, e).st| == |m.st|
    requires q < |m.st| && Step(m, e).st[q] == Used
    ensures MadeBy(Step(m, e), q)
  {
    hide OneCpu, CpuPc, OneWait, Parents, Orphans, NoZombieMissed, Free, Advance, CanGo, Making, StateOk, Adopted,
         Waits, Raised;
    var r := Step(m, e);
    if m.st[q] == Used {
      var p: nat :| p < |m.st| && Making(m, p) == Some(q);
      StepMaking(m, e, p);
      if Making(r, p) != Making(m, p) {
        MakingEnds(m, e, p, q);
      }
    } else {
      NewUsed(m, e, q);
    }
  }

  // A fork ends by starting its child or by freeing it.
  lemma MakingEnds(m: Machine, e: Event, p: nat, q: nat)
    requires Inv(m) && Enabled(m, e) && Shaped(Step(m, e)) && |Step(m, e).st| == |m.st|
    requires p < |m.st| && q < |m.st| && Making(m, p) == Some(q) && Making(Step(m, e), p) != Some(q)
    ensures Step(m, e).st[q] == Runnable || Step(m, e).st[q] == Unused
  {
    hide OneCpu, CpuPc, OneWait, Parents, Orphans, NoZombieMissed, Free, Advance, States, Forks;
    Facts(m, e);
    StepMaking(m, e, p);
    assert StateOk(m, p) by { StateOf(m, p); }
    if e.Go? && m.cpu[e.c] == Exec(p) {
      GoEnds(m, e.c, p, e.flag, q);
    }
  }

  lemma StateOf(m: Machine, p: nat)
    requires Inv(m) && p < |m.st|
    ensures StateOk(m, p)
  {
  }

  lemma GoEnds(m: Machine, c: nat, p: nat, flag: bool, q: nat)
    requires Shaped(m) && p < |m.st| && c < |m.cpu| && CanGo(m, p) && StateOk(m, p) && m.pc[p] != Off
    requires Shaped(Advance(m, c, p, flag)) && |Advance(m, c, p, flag).st| == |m.st|
    requires q < |m.st| && Making(m, p) == Some(q) && Making(Advance(m, c, p, flag), p) != Some(q)
    ensures Advance(m, c, p, flag).st[q] == Runnable || Advance(m, c, p, flag).st[q] == Unused
  {
    hide Free, WaitFree;
  }

  lemma NewUsed(m: Machine, e: Event, q: nat)
    requires Inv(m) && Enabled(m, e) && Shaped(Step(m, e)) && |Step(m, e).st| == |m.st|
    requires q < |m.st| && Step(m, e).st[q] == Used && m.st[q] != Used
    ensures MadeBy(Step(m, e), q)
  {
    hide OneCpu, CpuPc, OneWait, Parents, Orphans, NoZombieMissed, Free, Advance, CanGo, Forks, StateOk, States;
    if e.Go? && m.cpu[e.c].Exec? {
      GoNotUsed(m, e.c, m.cpu[e.c].p, e.flag, q);
    } else {
      assert e == Fork(e.c, q) && Making(Step(m, e), m.cpu[e.c].p) == Some(q);
    }
  }

  lemma GoNotUsed(m: Machine, c: nat, p: nat, flag: bool, q: nat)
    requires Shaped(m) && p < |m.st| && c < |m.cpu| && CanGo(m, p) && q < |m.st| && m.st[q] != Used
    requires Shaped(Advance(m, c, p, flag)) && |Advance(m, c, p, flag).st| == |m.st|
    ensures Advance(m, c, p, flag).st[q] != Used
  {
    hide Free, CanGo, WaitFree;
  }

  // What makes a fork ready to start its child.
  lemma NewStarting(m: Machine, e: Event, p: nat, q: nat)
    requires Inv(m) && Enabled(m, e) && Shaped(Step(m, e)) && |Step(m, e).st| == |m.st|
    requires p < |m.st| && q < |m.st| && Starting(Step(m, e), p, q)
    ensures Starting(m, p, q) || (m.pc[p] == ForkLink(q) && Gone(m, e) && Mover(m, e) == p)
    ensures !Starting(m, p, q) ==> Step(m, e).parent[q] == Some(p)
  {
    hide OneCpu, CpuPc, OneWait, Parents, Orphans, NoZombieMissed, Free, Advance, CanGo, Forks, States, StateOk;
    Frame(m, e);
    StateOf(m, p);
    if e.Go? && m.cpu[e.c].Exec? && m.cpu[e.c].p == p {
      GoStarting(m, e.c, p, e.flag, q);
    }
  }

  lemma GoStarting(m: Machine, c: nat, p: nat, flag: bool, q: nat)
    requires Shaped(m) && p < |m.st| && c < |m.cpu| && CanGo(m, p) && q < |m.st|
    requires Shaped(Advance(m, c, p, flag)) && |Advance(m, c, p, flag).st| == |m.st|
    requires Starting(Advance(m, c, p, flag), p, q)
    ensures Starting(m, p, q) || (m.pc[p] == ForkLink(q) && Advance(m, c, p, flag).parent[q] == Some(p))
  {
    hide Free, WaitFree, CanGo;
  }

  lemma StepAdopted(m: Machine, e: Event, p: nat, q: nat)
    requires Kin(m) && Enabled(m, e) && Inv(Step(m, e)) && |Step(m, e).st| == |m.st|
    requires p < |m.st| && q < |m.st| && Starting(Step(m, e), p, q)
    ensures Step(m, e).parent[q] == Some(p)
  {
    hide OneCpu, CpuPc, OneWait, Parents, Orphans, NoZombieMissed, Free, Advance, CanGo, Step, Enabled, Made, Waits,
         Raised;
    var r := Step(m, e);
    NewStarting(m, e, p, q);
    if Starting(m, p, q) {
      StepParent(m, e, q);
      StartingMakes(m, p, q);
      StartingMakes(r, p, q);
      if Gone(m, e) {
        LinkMakes(m, p, Mover(m, e), q);
      }
    }
  }

  lemma StartingMakes(m: Machine, p: nat, q: nat)
    requires Inv(m) && p < |m.st| && q < |m.st| && Starting(m, p, q)
    ensures m.st[q] == Used && !m.pc[p].ExitRep?
  {
    hide OneCpu, CpuPc, OneWait, Parents, Orphans, NoZombieMissed;
    StateOf(m, p);
    assert Making(m, p) == Some(q);
  }

  lemma LinkMakes(m: Machine, p: nat, p': nat, q: nat)
    requires Inv(m) && p < |m.st| && p' < |m.st| && q < |m.st| && Starting(m, p, q)
    ensures m.pc[p'] != ForkLink(q)
  {
    hide OneCpu, CpuPc, OneWait, Parents, Orphans, NoZombieMissed;
    StateOf(m, p);
    assert Making(m, p) == Some(q);
    if p' != p {
      assert Making(m, p') != Some(q);
    }
  }

  lemma StepRaised(m: Machine, e: Event, i: nat)
    requires Kin(m) && Enabled(m, e) && Inv(Step(m, e)) && |Step(m, e).st| == |m.st|
    requires i < |m.st| && i != INIT && Step(m, e).st[i] != Unused && Step(m, e).st[i] != Used
    ensures Step(m, e).parent[i].Some?
  {
    hide OneCpu, CpuPc, OneWait, Parents, Orphans, NoZombieMissed, Free, Advance, CanGo, Step, Enabled, Made, Waits,
         Adopted;
    StepParent(m, e, i);
    if m.st[i] == Unused || m.st[i] == Used {
      NewStarted(m, e, i);
    }
  }

  // A slot is started by the last step of the fork that made it.
  lemma NewStarted(m: Machine, e: Event, i: nat)
    requires Kin(m) && Enabled(m, e) && Shaped(Step(m, e)) && |Step(m, e).st| == |m.st| && i < |m.st|
    requires m.st[i] == Unused || m.st[i] == Used
    requires Step(m, e).st[i] != Unused && Step(m, e).st[i] != Used
    ensures Gone(m, e) && m.pc[Mover(m, e)] == ForkRun(i) && m.parent[i] == Some(Mover(m, e))
    ensures Step(m, e).parent == m.parent && Step(m, e).st[i] == Runnable && Step(m, e).pc[Mover(m, e)] == Run
  {
    hide OneCpu, CpuPc, OneWait, Parents, Orphans, NoZombieMissed, Free, Advance, CanGo, Made, Waits, Forks, Raised;
    Facts(m, e);
    StateOf(m, i);
    if e.Go? && m.cpu[e.c].Exec? {
      GoStarts(m, e.c, m.cpu[e.c].p, e.flag, i);
      assert Starting(m, m.cpu[e.c].p, i);
    }
  }

  lemma GoStarts(m: Machine, c: nat, p: nat, flag: bool, i: nat)
    requires Going(m, c, p, flag) && Shaped(Advance(m, c, p, flag)) && |Advance(m, c, p, flag).st| == |m.st|
    requires i < |m.st| && (m.st[i] == Unused || m.st[i] == Used)
    requires Advance(m, c, p, flag).st[i] != Unused && Advance(m, c, p, flag).st[i] != Used
    ensures p < |m.st| && m.pc[p] == ForkRun(i) && Advance(m, c, p, flag).parent == m.parent
    ensures Advance(m, c, p, flag).st[i] == Runnable && Advance(m, c, p, flag).pc[p] == Run
  {
    hide OneCpu, CpuPc, OneWait, Parents, Orphans, NoZombieMissed, Free, CanGo, Forks, States;
    GoFacts(m, c, p, flag);
  }

  lemma NewLinking(m: Machine, e: Event, p: nat, q: nat)
    requires Inv(m) && Enabled(m, e) && Shaped(Step(m, e)) && |Step(m, e).st| == |m.st|
    requires p < |m.st| && q < |m.st| && Linking(Step(m, e), p, q)
    ensures Linking(m, p, q) || (m.pc[p] == ForkHeld(q) && Step(m, e).parent == m.parent)
  {
    hide OneCpu, CpuPc, OneWait, Parents, Orphans, NoZombieMissed, Free, Advance, CanGo, Forks, States, StateOk;
    Frame(m, e);
    StateOf(m, p);
    if e.Go? && m.cpu[e.c].Exec? && m.cpu[e.c].p == p {
      GoLinking(m, e.c, p, e.flag, q);
    }
  }

  lemma GoLinking(m: Machine, c: nat, p: nat, flag: bool, q: nat)
    requires Shaped(m) && p < |m.st| && c < |m.cpu| && CanGo(m, p) && q < |m.st|
    requires Shaped(Advance(m, c, p, flag)) && |Advance(m, c, p, flag).st| == |m.st|
    requires Linking(Advance(m, c, p, flag), p, q)
    ensures Linking(m, p, q) || (m.pc[p] == ForkHeld(q) && Advance(m, c, p, flag).parent == m.parent)
  {
    hide Free, WaitFree, CanGo;
  }

  lemma StepUnlinked(m: Machine, e: Event, p: nat, q: nat)
    requires Kin(m) && Enabled(m, e) && Inv(Step(m, e)) && |Step(m, e).st| == |m.st|
    requires p < |m.st| && q < |m.st| && Linking(Step(m, e), p, q)
    ensures Step(m, e).parent[q] == None
  {
    hide OneCpu, CpuPc, OneWait, Orphans, NoZombieMissed, Free, Advance, CanGo, Step, Enabled, Made, Waits, Raised,
         Adopted, Forks, States;
    NewLinking(m, e, p, q);
    if Linking(m, p, q) {
      StepParent(m, e, q);
      if Step(m, e).parent[q] != None {
        var p' := Mover(m, e);
        OneMaker(m, p, p', q);
        StaysLinking(m, e, p, q);
      }
    }
  }

  lemma OneMaker(m: Machine, p: nat, p': nat, q: nat)
    requires Inv(m) && p < |m.st| && p' < |m.st| && q < |m.st| && Linking(m, p, q) && m.pc[p'] == ForkLink(q)
    ensures p' == p
  {
    hide OneCpu, CpuPc, OneWait, Parents, Orphans, NoZombieMissed;
    StateOf(m, p);
    StateOf(m, p');
    assert Making(m, p) == Some(q) && Making(m, p') == Some(q);
  }

  // The step that links the child leaves that point of fork.
  lemma StaysLinking(m: Machine, e: Event, p: nat, q: nat)
    requires Inv(m) && Enabled(m, e) && Shaped(Step(m, e)) && |Step(m, e).st| == |m.st| && p < |m.st| && q < |m.st|
    requires Gone(m, e) && Mover(m, e) == p && m.pc[p] == ForkLink(q)
    ensures !Linking(Step(m, e), p, q)
  {
    hide OneCpu, CpuPc, OneWait, Parents, Orphans, NoZombieMissed, Free, Forks, States, StateOk;
    StateOf(m, p);
    assert StateOk(m, p) ==> m.resume[p] == Run by { ResumeRuns(m, p); }
  }

  lemma ResumeRuns(m: Machine, p: nat)
    requires Shaped(m) && p < |m.st| && StateOk(m, p) && m.pc[p].ForkLink?
    ensures m.resume[p] == Run
  {
  }

  // ------------------------------------------------------------------- wait

  // A parent pointer is erased only by the parent, in wait.
  lemma ParentErased(m: Machine, e: Event, j: nat)
    requires Inv(m) && Enabled(m, e) && Shaped(Step(m, e)) && |Step(m, e).st| == |m.st| && j < |m.st|
    requires m.parent[j] != None && Step(m, e).parent[j] == None
    ensures Gone(m, e) && m.pc[Mover(m, e)].WaitScan? && m.parent[j] == Some(Mover(m, e))
  {
    hide OneCpu, CpuPc, OneWait, Parents, Orphans, NoZombieMissed, Free, Advance, Forks, States, StateOk;
    if e.Go? && m.cpu[e.c].Exec? {
      GoErased(m, e.c, m.cpu[e.c].p, e.flag, j);
    }
  }

  lemma GoErased(m: Machine, c: nat, p: nat, flag: bool, j: nat)
    requires Shaped(m) && p < |m.st| && c < |m.cpu| && CanGo(m, p) && j < |m.st|
    requires Shaped(Advance(m, c, p, flag)) && |Advance(m, c, p, flag).st| == |m.st|
    requires m.parent[j] != None && Advance(m, c, p, flag).parent[j] == None
    ensures m.pc[p].WaitScan? && m.parent[j] == Some(p)
  {
    hide Free, WaitFree, CanGo;
  }

  // While a process scans in wait, or sleeps there, its children stay its own.
  lemma ChildStays(m: Machine, e: Event, q: nat, j: nat)
    requires Kin(m) && Enabled(m, e) && Shaped(Step(m, e)) && |Step(m, e).st| == |m.st| && q < |m.st| && j < |m.st|
    requires m.parent[j] == Some(q) && !m.pc[q].ExitRep? && (m.pc[q].WaitScan? ==> Mover(m, e) != q)
    ensures Step(m, e).parent[j] == Some(q)
  {
    hide OneCpu, CpuPc, OneWait, Parents, Orphans, NoZombieMissed, Free, Advance, CanGo, Step, Enabled, Made, Waits,
         Raised, Adopted, Forks, States, StateOk;
    StepParent(m, e, j);
    if Step(m, e).parent[j] == None {
      ParentErased(m, e, j);
    } else if Gone(m, e) && m.pc[Mover(m, e)] == ForkLink(j) {
      assert Linking(m, Mover(m, e), j);
    }
  }

  // With wait_lock held, nobody else becomes a parent.
  lemma NoNewChild(m: Machine, e: Event, q: nat, j: nat)
    requires Inv(m) && Enabled(m, e) && Shaped(Step(m, e)) && |Step(m, e).st| == |m.st| && q < |m.st| && j < |m.st|
    requires HoldsWait(m.pc[q]) && Mover(m, e) != q && Step(m, e).parent[j] == Some(q)
    ensures m.parent[j] == Some(q)
  {
    hide OneCpu, CpuPc, OneWait, Parents, Orphans, NoZombieMissed, Free, Advance, Step, Enabled, Forks, States;
    ParentSet(m, e, j, q);
  }

  lemma StepWaitScan(m: Machine, e: Event, q: nat)
    requires Kin(m) && Enabled(m, e) && Inv(Step(m, e)) && |Step(m, e).st| == |m.st|
    requires q < |m.st| && Step(m, e).pc[q].WaitScan?
    ensures Step(m, e).pc[q].kids <==> HasChild(Step(m, e), q, Step(m, e).pc[q].i)
  {
    hide OneCpu, CpuPc, OneWait, Parents, Orphans, NoZombieMissed, Free, Advance, CanGo, Step, Enabled, Made,
         Unlinked, Raised, Adopted, Forks, States;
    var r := Step(m, e);
    if Mover(m, e) != q {
      Frame(m, e);
      forall j: nat | j < |m.st| ensures r.parent[j] == Some(q) <==> m.parent[j] == Some(q) {
        if m.parent[j] == Some(q) {
          ChildStays(m, e, q, j);
        }
        if r.parent[j] == Some(q) {
          NoNewChild(m, e, q, j);
        }
      }
    } else {
      ScanGoes(m, e, q);
    }
  }

  lemma ScanGoes(m: Machine, e: Event, q: nat)
    requires Inv(m) && Enabled(m, e) && Shaped(Step(m, e)) && |Step(m, e).st| == |m.st|
    requires q < |m.st| && Mover(m, e) == q && Step(m, e).pc[q].WaitScan?
    ensures Step(m, e).parent == m.parent
    ensures Step(m, e).pc[q] == WaitScan(0, false) ||
            (m.pc[q].WaitScan? && m.pc[q].i < |m.st| &&
             Step(m, e).pc[q] == WaitScan(m.pc[q].i + 1, m.pc[q].kids || m.parent[m.pc[q].i] == Some(q)))
  {
    hide OneCpu, CpuPc, OneWait, Parents, Orphans, NoZombieMissed, Free, Advance, Forks, States, StateOk;
    StateOf(m, q);
    if e.Go? && m.cpu[e.c].Exec? {
      GoScans(m, e.c, q, e.flag);
    }
  }

  lemma GoScans(m: Machine, c: nat, q: nat, flag: bool)
    requires Shaped(m) && q < |m.st| && c < |m.cpu| && CanGo(m, q) && StateOk(m, q)
    requires Shaped(Advance(m, c, q, flag)) && |Advance(m, c, q, flag).st| == |m.st|
    requires Advance(m, c, q, flag).pc[q].WaitScan?
    ensures Advance(m, c, q, flag).parent == m.parent
    ensures Advance(m, c, q, flag).pc[q] == WaitScan(0, false) ||
            (m.pc[q].WaitScan? && m.pc[q].i < |m.st| &&
             Advance(m, c, q, flag).pc[q] == WaitScan(m.pc[q].i + 1, m.pc[q].kids || m.parent[m.pc[q].i] == Some(q)))
  {
    hide Free, WaitFree, CanGo;
  }

  lemma StepWaitAsleep(m: Machine, e: Event, q: nat)
    requires Kin(m) && Enabled(m, e) && Inv(Step(m, e)) && |Step(m, e).st| == |m.st|
    requires q < |m.st| && WaitAsleep(Step(m, e), q)
    ensures HasChild(Step(m, e), q, |m.st|)
  {
    hide OneCpu, CpuPc, OneWait, Parents, Orphans, NoZombieMissed, Free, Advance, CanGo, Step, Enabled, Made,
         Unlinked, Raised, Adopted, Forks, States;
    if WaitAsleep(m, q) {
      StateOf(m, q);
      var j: nat :| j < |m.st| && m.parent[j] == Some(q);
      ChildStays(m, e, q, j);
    } else {
      NewAsleep(m, e, q);
      AsleepKids(m, e, q);
      var j: nat :| j < |m.st| && m.parent[j] == Some(q);
      assert Step(m, e).parent[j] == Some(q);
    }
  }

  lemma AsleepKids(m: Machine, e: Event, q: nat)
    requires Inv(m) && Enabled(m, e) && Shaped(Step(m, e)) && |Step(m, e).st| == |m.st| && q < |m.st|
    requires Gone(m, e) && Mover(m, e) == q && m.pc[q].WaitScan? && WaitAsleep(Step(m, e), q) && !WaitAsleep(m, q)
    ensures m.pc[q].kids
  {
    hide OneCpu, CpuPc, OneWait, Parents, Orphans, NoZombieMissed, Free, Forks, CanGo;
    StateOf(m, q);
  }

  // --------------------------------------------------------------- all runs

  lemma KinStep(m: Machine, e: Event)
    requires Kin(m) && Enabled(m, e)
    ensures Kin(Step(m, e))
  {
    hide Inv, Step, Enabled, MadeBy, Starting, Linking, HasChild, WaitAsleep;
    StepKeeps(m, e);
    KinSizes(m, e);
    var r := Step(m, e);
    forall q: nat | q < |m.st| && r.st[q] == Used ensures MadeBy(r, q) {
      StepMade(m, e, q);
    }
    forall p: nat, q: nat | p < |m.st| && q < |m.st| && Starting(r, p, q) ensures r.parent[q] == Some(p) {
      StepAdopted(m, e, p, q);
    }
    forall p: nat, q: nat | p < |m.st| && q < |m.st| && Linking(r, p, q) ensures r.parent[q] == None {
      StepUnlinked(m, e, p, q);
    }
    forall i: nat | i < |m.st| && i != INIT && r.st[i] != Unused && r.st[i] != Used ensures r.parent[i].Some? {
      StepRaised(m, e, i);
    }
    forall q: nat | q < |m.st|
      ensures r.pc[q].WaitScan? ==> (r.pc[q].kids <==> HasChild(r, q, r.pc[q].i))
      ensures WaitAsleep(r, q) ==> HasChild(r, q, |m.st|)
    {
      if r.pc[q].WaitScan? {
        StepWaitScan(m, e, q);
      }
      if WaitAsleep(r, q) {
        StepWaitAsleep(m, e, q);
      }
    }
  }

  lemma KinSizes(m: Machine, e: Event)
    requires Inv(m) && Enabled(m, e)
    ensures Shaped(m) && Shaped(Step(m, e)) && |Step(m, e).st| == |m.st|
  {
    hide OneCpu, CpuPc, OneWait, Parents, Orphans, NoZombieMissed, Free, Forks, States, Step, Enabled;
    StepSizes(m, e);
  }

  lemma BootKin(m: Machine)
    requires Boot(m)
    ensures Kin(m)
  {
    hide Inv, Making;
    BootInv(m);
  }

  lemma {:induction false} KinReach(m: Machine, es: seq<Event>, r: Machine)
    requires Kin(m) && Reach(m, es, r)
    ensures Kin(r)
    decreases |es|
  {
    hide Kin, Enabled, Step;
    if es != [] {
      KinStep(m, es[0]);
      KinReach(Step(m, es[0]), es[1..], r);
    }
  }

  // In every state of every run: a slot in use but not started is the child of a
  // fork under way; every process that has been started, but init, has a parent
  // that is alive; and whoever sleeps in wait, or is on the way there, has a
  // child, and none that was a zombie when it looked.
  lemma Families(m: Machine, es: seq<Event>, r: Machine, q: nat)
    requires Boot(m) && Reach(m, es, r) && Shaped(r) && q < |r.st|
    ensures r.st[q] == Used ==> exists p: nat :: p < |r.st| && Making(r, p) == Some(q)
    ensures q != INIT && r.st[q] != Unused && r.st[q] != Used ==>
              r.parent[q].Some? && r.parent[q].value < |r.st| && Alive(r.st[r.parent[q].value])
    ensures WaitAsleep(r, q) ==> exists j: nat :: j < |r.st| && r.parent[j] == Some(q)
  {
    hide OneCpu, CpuPc, OneWait, Orphans, NoZombieMissed, Forks, States, WaitAsleep, Making, Reach;
    BootKin(m);
    KinReach(m, es, r);
    if r.st[q] == Used {
      assert MadeBy(r, q);
    }
  }

  // The last step of a fork starts the child, which is a child of the caller.
  lemma ForkStarts(m: Machine, es: seq<Event>, r: Machine, c: nat, flag: bool, p: nat, q: nat)
    requires Boot(m) && Reach(m, es, r) && Enabled(r, Go(c, flag)) && r.cpu[c] == Exec(p) && r.pc[p] == ForkRun(q)
    ensures var n := Step(r, Go(c, flag));
      && Shaped(n) && q < |n.st| && p < |n.st| && r.st[q] == Used
      && n.st[q] == Runnable && n.parent[q] == Some(p) && n.pc[p] == Run
  {
    hide OneCpu, CpuPc, OneWait, Parents, Orphans, NoZombieMissed, Raised, Made, Waits, Unlinked, Reach, Free;
    BootKin(m);
    KinReach(m, es, r);
    StateOf(r, p);
    assert Making(r, p) == Some(q);
    assert Starting(r, p, q);
  }

  // wait ends with one child less, which was a zombie; or without a child at
  // all; or because of a kill or a failing copy.
  lemma WaitEnds(m: Machine, es: seq<Event>, r: Machine, c: nat, flag: bool, p: nat)
    requires Boot(m) && Reach(m, es, r) && Enabled(r, Go(c, flag)) && r.cpu[c] == Exec(p) && r.pc[p].WaitScan?
    requires |Step(r, Go(c, flag)).pc| == |r.pc| && Step(r, Go(c, flag)).pc[p] == Run && !flag
    ensures Shaped(r) && p < |r.st|
    ensures var n := Step(r, Go(c, flag));
      || (n == r.(pc := r.pc[p := Run]) && forall j: nat :: j < |r.st| ==> r.parent[j] != Some(p))
      || exists i: nat :: i < |r.st| && r.parent[i] == Some(p) && r.st[i] == Zombie &&
           n == r.(pc := r.pc[p := Run], st := r.st[i := Unused], parent := r.parent[i := None],
                   reaps := r.reaps[i := r.reaps[i] + 1])
  {
    hide OneCpu, CpuPc, OneWait, Parents, Orphans, NoZombieMissed, Raised, Made, Adopted, Unlinked, Reach, Free,
         Forks, States;
    BootKin(m);
    KinReach(m, es, r);
    var i := r.pc[p].i;
    if i >= |r.st| {
      assert !HasChild(r, p, i);
    }
  }

  // A process goes to sleep in wait only after it has seen a child, and all the
  // children it has are alive.
  lemma WaitSleeps(m: Machine, es: seq<Event>, r: Machine, c: nat, flag: bool, p: nat)
    requires Boot(m) && Reach(m, es, r) && Enabled(r, Go(c, flag)) && r.cpu[c] == Exec(p) && r.pc[p].WaitScan?
    requires |Step(r, Go(c, flag)).pc| == |r.pc| && Step(r, Go(c, flag)).pc[p] == SleepHeld(true)
    ensures Shaped(r) && exists j: nat :: j < |r.st| && r.parent[j] == Some(p)
    ensures forall j: nat :: j < |r.st| && r.parent[j] == Some(p) ==> r.st[j] != Zombie
  {
    hide Inv, Reach, Boot, Step, Enabled, Made, Adopted, Raised, Unlinked, Waits;
    BootKin(m);
    KinReach(m, es, r);
    KidsAsleep(r, c, flag, p);
  }

  lemma SleepsAtEnd(r: Machine, c: nat, p: nat, flag: bool)
    requires Shaped(r) && c < |r.cpu| && p < |r.st| && r.pc[p].WaitScan? && CanGo(r, p)
    requires |Advance(r, c, p, flag).pc| == |r.pc| && Advance(r, c, p, flag).pc[p] == SleepHeld(true)
    ensures r.pc[p].i >= |r.st| && r.pc[p].kids
  {
    hide Free, CanGo;
  }

  lemma KidsAsleep(r: Machine, c: nat, flag: bool, p: nat)
    requires Inv(r) && Kin(r) && Enabled(r, Go(c, flag)) && r.cpu[c] == Exec(p) && r.pc[p].WaitScan?
    requires |Step(r, Go(c, flag)).pc| == |r.pc| && Step(r, Go(c, flag)).pc[p] == SleepHeld(true)
    ensures Shaped(r) && exists j: nat :: j < |r.st| && r.parent[j] == Some(p)
    ensures forall j: nat :: j < |r.st| && r.parent[j] == Some(p) ==> r.st[j] != Zombie
  {
    hide OneCpu, CpuPc, OneWait, Orphans, Raised, Made, Adopted, Unlinked, Free, Forks, States, Advance;
    SleepsAtEnd(r, c, p, flag);
    assert HasChild(r, p, r.pc[p].i);
  }

  // --------------------------------------------------------------- progress

  // A process in the middle of something is on some CPU.
  predicate Hosted(m: Machine)
    requires Shaped(m)
  {
    forall p: nat :: p < |m.st| && m.pc[p] != Off ==> HasCpu(m, p)
  }

  predicate HasCpu(m: Machine, p: nat) {
    exists c :: 0 <= c < |m.cpu| && m.cpu[c] == Exec(p)
  }

  lemma StepHosted(m: Machine, e: Event, p: nat)
    requires Inv(m) && Enabled(m, e) && Shaped(Step(m, e)) && |Step(m, e).st| == |m.st| && p < |m.st|
    requires Hosted(m) && Step(m, e).pc[p] != Off
    ensures HasCpu(Step(m, e), p)
  {
    hide OneCpu, CpuPc, OneWait, Parents, Orphans, NoZombieMissed, Forks, States, Free, CanGo, Advance, HasCpu;
    if e.Go? && m.cpu[e.c].Exec? {
      GoHosts(m, e.c, m.cpu[e.c].p, e.flag, p);
    } else if m.pc[p] != Off {
      assert HasCpu(m, p);
      StaysOn(m, Step(m, e), p);
    } else {
      NewOn(m, e, p);
    }
  }

  lemma StaysOn(m: Machine, n: Machine, p: nat)
    requires HasCpu(m, p) && |n.cpu| == |m.cpu|
    requires forall c :: 0 <= c < |m.cpu| && m.cpu[c] == Exec(p) ==> n.cpu[c] == m.cpu[c]
    ensures HasCpu(n, p)
  {
    var c :| 0 <= c < |m.cpu| && m.cpu[c] == Exec(p);
    assert n.cpu[c] == Exec(p);
  }

  // Only the scheduler takes a process off its place.
  lemma NewOn(m: Machine, e: Event, p: nat)
    requires Inv(m) && Enabled(m, e) && !(e.Go? && m.cpu[e.c].Exec?) && p < |m.st|
    requires m.pc[p] == Off && |Step(m, e).pc| == |m.st| && Step(m, e).pc[p] != Off
    ensures HasCpu(Step(m, e), p)
  {
    hide OneCpu, OneWait, Parents, Orphans, NoZombieMissed, Forks, States, Free, CanGo, Advance;
    if e.Go? {
      assert Step(m, e).cpu[e.c] == Exec(p);
    }
  }

  lemma GoHosts(m: Machine, c: nat, p: nat, flag: bool, q: nat)
    requires Going(m, c, p, flag) && q < |m.st| && |Advance(m, c, p, flag).pc| == |m.st| && Hosted(m)
    requires Advance(m, c, p, flag).pc[q] != Off
    ensures HasCpu(Advance(m, c, p, flag), q)
  {
    hide OneCpu, OneWait, Parents, Orphans, NoZombieMissed, Forks, States, Free, CanGo, CpuPc, HasCpu;
    GoFacts(m, c, p, flag);
    assert HasCpu(m, q);
    StaysOn(m, Advance(m, c, p, flag), q);
  }

  // Some CPU can take its next step.
  predicate SomeGo(m: Machine, f: bool) {
    exists c :: 0 <= c < |m.cpu| && Enabled(m, Go(c, f))
  }

  lemma HolderGoes(m: Machine, p: nat, f: bool)
    requires Inv(m) && Hosted(m) && p < |m.st| && !Free(m, p)
    ensures SomeGo(m, f)
  {
    hide OneCpu, OneWait, Parents, Orphans, NoZombieMissed, Forks, States;
    if OwnHeld(m.pc[p]) {
      HostGoes(m, p, f);
    } else if c :| 0 <= c < |m.cpu| && m.cpu[c] == Back(p) {
      assert Enabled(m, Go(c, f));
    } else {
      var q: nat :| q < |m.pc| && m.pc[q] == ForkHeld(p);
      HostGoes(m, q, f);
    }
  }

  lemma HostGoes(m: Machine, p: nat, f: bool)
    requires Inv(m) && Hosted(m) && p < |m.st| && m.pc[p] != Off && CanGo(m, p)
    ensures SomeGo(m, f)
  {
    hide OneCpu, OneWait, Parents, Orphans, NoZombieMissed, Forks, States, Free, CanGo;
    assert HasCpu(m, p);
    var c :| 0 <= c < |m.cpu| && m.cpu[c] == Exec(p);
    assert Enabled(m, Go(c, f));
  }

  lemma WaitHolderGoes(m: Machine, q: nat, f: bool)
    requires Inv(m) && Hosted(m) && q < |m.st| && HoldsWait(m.pc[q])
    ensures SomeGo(m, f)
  {
    hide OneCpu, OneWait, Orphans, NoZombieMissed, Forks, States, Free, HasCpu;
    if CanGo(m, q) {
      HostGoes(m, q, f);
    } else {
      HolderGoes(m, match m.pc[q]
                    case ExitRepWake(_) => INIT
                    case ExitWake => m.parent[q].value
                    case WaitScan(i, _) => if i < |m.st| then i else q
                    case _ => q, f);
    }
  }

  // No deadlock: in every state of every run some CPU can take its next step,
  // unless all of them run processes that are in the middle of no call.
  lemma NeverStuck(m: Machine, es: seq<Event>, r: Machine, f: bool)
    requires Boot(m) && Reach(m, es, r)
    ensures SomeGo(r, f) || forall c: nat :: c < |r.cpu| ==>
              r.cpu[c].Exec? && r.cpu[c].p < |r.pc| && r.pc[r.cpu[c].p] == Run
  {
    hide OneCpu, OneWait, Parents, Orphans, NoZombieMissed, Forks, States, Free, HasCpu, CanGo, Reach, Step;
    BootInv(m);
    HostedReach(m, es, r);
    if c: nat :| c < |r.cpu| && !(r.cpu[c].Exec? && r.cpu[c].p < |r.pc| && r.pc[r.cpu[c].p] == Run) {
      StuckOn(r, c, f);
    }
  }

  lemma StuckOn(r: Machine, c: nat, f: bool)
    requires Inv(r) && Hosted(r) && c < |r.cpu|
    requires !(r.cpu[c].Exec? && r.cpu[c].p < |r.pc| && r.pc[r.cpu[c].p] == Run)
    ensures SomeGo(r, f)
  {
    hide OneCpu, OneWait, Parents, Orphans, NoZombieMissed, Forks, States, Free, HasCpu;
    if !Enabled(r, Go(c, f)) {
      assert CpuOk(r, c);
      if r.cpu[c].Scan? {
        HolderGoes(r, r.cpu[c].i, f);
      } else {
        var p := r.cpu[c].p;
        if HoldsWait(r.pc[p]) {
          WaitHolderGoes(r, p, f);
        } else if r.pc[p].ForkRun? {
          MakesOne(r, p);
          HolderGoes(r, r.pc[p].np, f);
        } else {
          var q: nat :| q < |r.pc| && HoldsWait(r.pc[q]);
          WaitHolderGoes(r, q, f);
        }
      }
    }
  }

  lemma MakesOne(m: Machine, p: nat)
    requires Inv(m) && p < |m.st| && m.pc[p].ForkRun?
    ensures m.pc[p].np < |m.st|
  {
    hide OneCpu, OneWait, Parents, Orphans, NoZombieMissed, States, Free, CpuPc;
    assert Making(m, p) == Some(m.pc[p].np);
  }

  lemma {:induction false} HostedReach(m: Machine, es: seq<Event>, r: Machine)
    requires Inv(m) && Hosted(m) && Reach(m, es, r)
    ensures Inv(r) && Hosted(r)
    decreases |es|
  {
    hide Inv, Step, Enabled, HasCpu;
    if es != [] {
      var n := Step(m, es[0]);
      StepKeeps(m, es[0]);
      KinSizes(m, es[0]);
      forall p: nat | p < |n.st| && n.pc[p] != Off ensures HasCpu(n, p) {
        StepHosted(m, es[0], p);
      }
      HostedReach(n, es[1..], r);
    }
  }

  // ------------------------------------------------ whole calls, undisturbed

  predicate OnCpu(m: Machine, c: nat)
    requires Shaped(m)
  {
    c < |m.cpu| && m.cpu[c].Exec? && m.cpu[c].p < |m.st|
  }

  // The process on CPU c is about to make a call.
  predicate Calls(m: Machine, c: nat)
    requires Shaped(m)
  {
    OnCpu(m, c) && m.pc[m.cpu[c].p] == Run
  }

  lemma {:induction false} ReachThen(m: Machine, es: seq<Event>, mid: Machine, es': seq<Event>, r: Machine)
    requires Reach(m, es, mid) && Reach(mid, es', r)
    ensures Reach(m, es + es', r)
    decreases |es|
  {
    hide Enabled, Step;
    if es == [] {
      assert es + es' == es';
    } else {
      assert (es + es')[0] == es[0] && (es + es')[1..] == es[1..] + es';
      ReachThen(Step(m, es[0]), es[1..], mid, es', r);
    }
  }

  lemma ReachOne(m: Machine, e: Event)
    requires Enabled(m, e)
    ensures Reach(m, [e], Step(m, e))
  {
    hide Enabled, Step;
    assert [e][1..] == [];
  }

  lemma ReachTwo(m: Machine, e: Event, e': Event)
    requires Enabled(m, e) && Enabled(Step(m, e), e')
    ensures Reach(m, [e, e'], Step(Step(m, e), e'))
  {
    hide Enabled, Step;
    ReachOne(m, e);
    ReachOne(Step(m, e), e');
    ReachThen(m, [e], Step(m, e), [e'], Step(Step(m, e), e'));
  }

  // The scheduler at the entry of a runnable process takes it up where it was.
  lemma ScheduleAlone(m: Machine, c: nat, i: nat, f: bool)
    requires Inv(m) && c < |m.cpu| && m.cpu[c] == Scan(i) && i < |m.st| && Free(m, i)
    ensures Enabled(m, Go(c, f))
    ensures m.st[i] != Runnable ==> Step(m, Go(c, f)) == m.(cpu := m.cpu[c := Scan(i + 1)])
    ensures m.st[i] == Runnable ==>
      Reach(m, [Go(c, f), Go(c, f)],
            m.(st := m.st[i := Running], pc := m.pc[i := m.resume[i]], resume := m.resume[i := Run],
               cpu := m.cpu[c := Exec(i)]))
  {
    hide OneCpu, CpuPc, OneWait, Parents, Orphans, NoZombieMissed, Forks, Advance, Reach;
    if m.st[i] == Runnable {
      var n := Step(m, Go(c, f));
      ReachTwo(m, Go(c, f), Go(c, f));
      ResumeAlone(n, c, i, f);
      assert m.pc[i := Start][i := m.resume[i]] == m.pc[i := m.resume[i]];
    }
  }

  lemma ResumeAlone(n: Machine, c: nat, i: nat, f: bool)
    requires Shaped(n) && c < |n.cpu| && n.cpu[c] == Exec(i) && i < |n.st| && n.pc[i] == Start
    ensures Enabled(n, Go(c, f))
    ensures Step(n, Go(c, f)) == n.(pc := n.pc[i := n.resume[i]], resume := n.resume[i := Run])
  {
  }

  // A CPU whose scan nobody disturbs comes to a process that is ready, whatever
  // entry it starts from.
  lemma {:induction false} SchedulerFinds(m: Machine, c: nat, q: nat) returns (es: seq<Event>, r: Machine, x: nat)
    requires Shaped(m) && c < |m.cpu| && m.cpu[c].Scan? && q < |m.st| && m.st[q] == Runnable
    requires forall p: nat :: p < |m.st| ==> Free(m, p)
    ensures Reach(m, es, r) && r == m.(cpu := m.cpu[c := Scan(x)]) && x < |m.st| && m.st[x] == Runnable
    decreases ScansLeft(m.cpu[c].i, q, |m.st|)
  {
    var i := m.cpu[c].i;
    if i < |m.st| && m.st[i] == Runnable {
      es, r, x := [], m, i;
    } else {
      var n := Step(m, Go(c, false));
      assert n == m.(cpu := m.cpu[c := Scan(if i < |m.st| then i + 1 else 0)]);
      forall p: nat | p < |n.st| ensures Free(n, p) {
        ScanFree(m, n, c, p);
      }
      var rest;
      rest, r, x := SchedulerFinds(n, c, q);
      es := [Go(c, false)] + rest;
      assert es[1..] == rest;
    }
  }

  lemma ScanFree(m: Machine, n: Machine, c: nat, p: nat)
    requires Shaped(m) && c < |m.cpu| && p < |m.st| && Free(m, p)
    requires n == m.(cpu := n.cpu) && |n.cpu| == |m.cpu| && n.cpu[c].Scan?
    requires forall d :: 0 <= d < |m.cpu| && d != c ==> n.cpu[d] == m.cpu[d]
    ensures Free(n, p)
  {
  }

  function ScansLeft(i: nat, q: nat, n: nat): nat {
    if i <= q then q - i else if i < n then n - i + q + 2 else q + 1
  }

  // yield: the process is runnable again and the scheduler is past it.
  lemma YieldAlone(m: Machine, c: nat, f: bool)
    requires Inv(m) && OnCpu(m, c) && Free(m, m.cpu[c].p)
    requires var pc := m.pc[m.cpu[c].p]; pc == Run || pc == WaitTake || pc.ForkLink? || pc.ForkRun?
    ensures var p := m.cpu[c].p;
      Reach(m, [Yield(c), Go(c, f), Go(c, f)],
            m.(st := m.st[p := Runnable], pc := m.pc[p := Off], resume := m.resume[p := m.pc[p]],
               cpu := m.cpu[c := Scan(p + 1)]))
  {
    hide OneCpu, CpuPc, OneWait, Parents, Orphans, NoZombieMissed, Forks, Free, CanGo;
    var p := m.cpu[c].p;
    var m1 := Step(m, Yield(c));
    ReachOne(m, Yield(c));
    LeaveCpu(m1, c, p, f);
    ReachThen(m, [Yield(c)], m1, [Go(c, f), Go(c, f)], m1.(pc := m1.pc[p := Off], cpu := m1.cpu[c := Scan(p + 1)]));
    assert m.pc[p := YieldHeld][p := Off] == m.pc[p := Off];
    assert [Yield(c)] + [Go(c, f), Go(c, f)] == [Yield(c), Go(c, f), Go(c, f)];
  }

  // A process that gives up its CPU in yield or at the end of exit.
  lemma LeaveCpu(m: Machine, c: nat, p: nat, f: bool)
    requires Shaped(m) && c < |m.cpu| && m.cpu[c] == Exec(p) && p < |m.st| &&
             (m.pc[p] == YieldHeld || m.pc[p] == ExitHeld)
    ensures Reach(m, [Go(c, f), Go(c, f)], m.(pc := m.pc[p := Off], cpu := m.cpu[c := Scan(p + 1)]))
  {
    ReachTwo(m, Go(c, f), Go(c, f));
    assert m.cpu[c := Back(p)][c := Scan(p + 1)] == m.cpu[c := Scan(p + 1)];
  }

  // sleep, and the wakeup that ends it.
  lemma SleepAlone(m: Machine, c: nat, f: bool)
    requires Inv(m) && Calls(m, c) && Free(m, m.cpu[c].p)
    ensures var p := m.cpu[c].p;
      Reach(m, [Sleep(c), Go(c, f), Go(c, f)],
            m.(st := m.st[p := Sleeping], pc := m.pc[p := Off], resume := m.resume[p := Run],
               cpu := m.cpu[c := Scan(p + 1)]))
  {
    hide OneCpu, CpuPc, OneWait, Parents, Orphans, NoZombieMissed, Forks, Free, CanGo;
    var p := m.cpu[c].p;
    var m1 := Step(m, Sleep(c));
    ReachOne(m, Sleep(c));
    GoToSleep(m1, c, p, f, false);
    ReachThen(m, [Sleep(c)], m1, [Go(c, f), Go(c, f)],
              m1.(st := m1.st[p := Sleeping], pc := m1.pc[p := Off], cpu := m1.cpu[c := Scan(p + 1)]));
    assert m.pc[p := SleepHeld(false)][p := Off] == m.pc[p := Off];
    assert [Sleep(c)] + [Go(c, f), Go(c, f)] == [Sleep(c), Go(c, f), Go(c, f)];
  }

  lemma GoToSleep(m: Machine, c: nat, p: nat, f: bool, inWait: bool)
    requires Shaped(m) && c < |m.cpu| && m.cpu[c] == Exec(p) && p < |m.st| && m.pc[p] == SleepHeld(inWait)
    ensures Reach(m, [Go(c, f), Go(c, f)],
                  m.(st := m.st[p := if inWait then SleepWait else Sleeping], pc := m.pc[p := Off],
                     cpu := m.cpu[c := Scan(p + 1)]))
  {
    ReachTwo(m, Go(c, f), Go(c, f));
    assert m.cpu[c := Back(p)][c := Scan(p + 1)] == m.cpu[c := Scan(p + 1)];
  }

  lemma WokenRuns(m: Machine, q: nat)
    requires Inv(m) && q < |m.st| && Free(m, q)
    ensures m.st[q] == Sleeping ==> Enabled(m, Wakeup(q)) && Step(m, Wakeup(q)) == m.(st := m.st[q := Runnable])
    ensures m.st[q] == Sleeping || m.st[q] == SleepWait ==>
              Enabled(m, Kill(q)) && Step(m, Kill(q)) == m.(st := m.st[q := Runnable])
  {
  }

  // fork: a new process, ready to run, whose parent is the caller; or, when
  // memory runs out, nothing.
  lemma ForkAlone(m: Machine, c: nat, q: nat)
    requires Inv(m) && Calls(m, c) && q < |m.st| && m.st[q] == Unused && Free(m, q) && WaitFree(m)
    ensures var p := m.cpu[c].p;
      Reach(m, [Fork(c, q), Go(c, false), Go(c, false), Go(c, false)],
            m.(st := m.st[q := Runnable], parent := m.parent[q := Some(p)]))
    ensures Reach(m, [Fork(c, q), Go(c, true)], m)
  {
    hide OneCpu, CpuPc, OneWait, Parents, Orphans, NoZombieMissed, Forks;
    var p := m.cpu[c].p;
    var m1 := Step(m, Fork(c, q));
    StateOf(m, q);
    StateOf(m, p);
    ReachTwo(m, Fork(c, q), Go(c, true));
    assert Step(m1, Go(c, true)) == m by {
      assert m.st[q := Used][q := Unused] == m.st && m.pc[p := ForkHeld(q)][p := Run] == m.pc;
    }
    ReachTwo(m, Fork(c, q), Go(c, false));
    var m2 := Step(m1, Go(c, false));
    ForkFinish(m, m2, c, p, q);
    ReachThen(m, [Fork(c, q), Go(c, false)], m2, [Go(c, false), Go(c, false)],
              m.(st := m.st[q := Runnable], parent := m.parent[q := Some(p)]));
    assert [Fork(c, q), Go(c, false)] + [Go(c, false), Go(c, false)] ==
      [Fork(c, q), Go(c, false), Go(c, false), Go(c, false)];
  }

  lemma ForkFinish(m: Machine, m2: Machine, c: nat, p: nat, q: nat)
    requires Shaped(m) && c < |m.cpu| && m.cpu[c] == Exec(p) && p < |m.st| && q < |m.st| && p != q && m.pc[p] == Run
    requires WaitFree(m) && Free(m, q) && m.pc[q] == Off
    requires m2 == m.(pc := m.pc[p := ForkLink(q)], st := m.st[q := Used])
    ensures Reach(m2, [Go(c, false), Go(c, false)], m.(st := m.st[q := Runnable], parent := m.parent[q := Some(p)]))
  {
    assert WaitFree(m2);
    var m3 := Step(m2, Go(c, false));
    assert m3 == m.(pc := m.pc[p := ForkRun(q)], st := m.st[q := Used], parent := m.parent[q := Some(p)]) by {
      assert m.pc[p := ForkLink(q)][p := ForkRun(q)] == m.pc[p := ForkRun(q)];
    }
    assert Free(m3, q);
    ReachTwo(m2, Go(c, false), Go(c, false));
    assert m.pc[p := ForkRun(q)][p := Run] == m.pc && m.st[q := Used][q := Runnable] == m.st[q := Runnable];
  }

  function Steps(c: nat, k: nat): seq<Event> {
    seq(k, _ => Go(c, false))
  }

  // wait passes k entries without a zombie child.
  lemma {:induction false} ScanAlone(m: Machine, c: nat, p: nat, i: nat, kids: bool, k: nat, kids': bool)
    requires Shaped(m) && c < |m.cpu| && m.cpu[c] == Exec(p) && p < |m.st| && m.pc[p] == WaitScan(i, kids)
    requires i + k <= |m.st| && (kids' <==> kids || exists j: nat :: i <= j < i + k && m.parent[j] == Some(p))
    requires forall j: nat :: i <= j < i + k && m.parent[j] == Some(p) ==> Free(m, j) && m.st[j] != Zombie
    ensures Reach(m, Steps(c, k), m.(pc := m.pc[p := WaitScan(i + k, kids')]))
    decreases k
  {
    if k == 0 {
      assert m.pc[p := WaitScan(i, kids)] == m.pc;
    } else {
      var e, saw := Go(c, false), kids || m.parent[i] == Some(p);
      var n := m.(pc := m.pc[p := WaitScan(i + 1, saw)]);
      assert Step(m, e) == n;
      forall j: nat | i < j < i + k && m.parent[j] == Some(p) ensures Free(n, j) {
        StillFree(m, n, p, j);
      }
      ScanAlone(n, c, p, i + 1, saw, k - 1, kids');
      ReachOne(m, e);
      assert n.pc[p := WaitScan(i + k, kids')] == m.pc[p := WaitScan(i + k, kids')];
      ReachThen(m, [e], n, Steps(c, k - 1), m.(pc := m.pc[p := WaitScan(i + k, kids')]));
      assert [e] + Steps(c, k - 1) == Steps(c, k);
    }
  }

  // Locks stay free while one process goes on without taking any.
  lemma StillFree(m: Machine, n: Machine, p: nat, j: nat)
    requires Shaped(m) && Shaped(n) && |n.st| == |m.st| && p < |m.st| && j < |m.st| && Free(m, j)
    requires n.pc == m.pc[p := n.pc[p]] && n.cpu == m.cpu && !OwnHeld(n.pc[p]) && !n.pc[p].ForkHeld?
    ensures Free(n, j)
  {
  }

  // wait with a zombie child: the first in the table is freed, and nothing else
  // changes.
  lemma WaitReaps(m: Machine, c: nat, i: nat)
    requires Inv(m) && Calls(m, c) && WaitFree(m) && i < |m.st| && m.parent[i] == Some(m.cpu[c].p) && m.st[i] == Zombie
    requires forall j: nat :: j <= i && m.parent[j] == Some(m.cpu[c].p) ==> Free(m, j) && (j < i ==> m.st[j] != Zombie)
    ensures Reach(m, [Wait(c)] + Steps(c, i) + [Go(c, false)],
                  m.(st := m.st[i := Unused], parent := m.parent[i := None], reaps := m.reaps[i := m.reaps[i] + 1]))
  {
    hide OneCpu, CpuPc, OneWait, Parents, Orphans, NoZombieMissed, Forks, Free, States, Reach, Step;
    var p := m.cpu[c].p;
    var kids := exists j: nat :: j < i && m.parent[j] == Some(p);
    var n := Scanned(m, c, i, kids);
    StillFree(m, n, p, i);
    var r := m.(st := m.st[i := Unused], parent := m.parent[i := None], reaps := m.reaps[i := m.reaps[i] + 1]);
    assert n.pc[p := Run] == m.pc;
    ScanReaps(n, c, p, i);
    ReachThen(m, [Wait(c)] + Steps(c, i), n, [Go(c, false)], r);
  }

  lemma ScanReaps(n: Machine, c: nat, p: nat, i: nat)
    requires Shaped(n) && c < |n.cpu| && n.cpu[c] == Exec(p) && p < |n.st| && i < |n.st| && n.pc[p].WaitScan?
    requires n.pc[p].i == i && n.parent[i] == Some(p) && n.st[i] == Zombie && Free(n, i)
    ensures Reach(n, [Go(c, false)],
                  n.(pc := n.pc[p := Run], st := n.st[i := Unused], parent := n.parent[i := None],
                     reaps := n.reaps[i := n.reaps[i] + 1]))
  {
    hide Free, Advance, Reach;
    AdvanceReaps(n, c, p, i);
    ReachOne(n, Go(c, false));
  }

  lemma AdvanceReaps(n: Machine, c: nat, p: nat, i: nat)
    requires Shaped(n) && c < |n.cpu| && p < |n.st| && i < |n.st| && n.pc[p].WaitScan? && n.pc[p].i == i
    requires n.parent[i] == Some(p) && n.st[i] == Zombie && CanGo(n, p)
    ensures Advance(n, c, p, false) ==
            n.(pc := n.pc[p := Run], st := n.st[i := Unused], parent := n.parent[i := None],
               reaps := n.reaps[i := n.reaps[i] + 1])
  {
    hide Free, CanGo;
  }

  // The state in which wait has passed k entries.
  lemma Scanned(m: Machine, c: nat, k: nat, kids: bool) returns (n: Machine)
    requires Inv(m) && Calls(m, c) && WaitFree(m) && k <= |m.st|
    requires kids <==> exists j: nat :: j < k && m.parent[j] == Some(m.cpu[c].p)
    requires forall j: nat :: j < k && m.parent[j] == Some(m.cpu[c].p) ==> Free(m, j) && m.st[j] != Zombie
    ensures var p := m.cpu[c].p; n == m.(pc := m.pc[p := WaitScan(k, kids)]) && m.pc[p] == Run
    ensures Reach(m, [Wait(c)] + Steps(c, k), n)
  {
    hide OneCpu, CpuPc, OneWait, Parents, Orphans, NoZombieMissed, Forks, Free;
    var p := m.cpu[c].p;
    var m1 := Step(m, Wait(c));
    forall j: nat | j < k && m.parent[j] == Some(p) ensures Free(m1, j) {
      StillFree(m, m1, p, j);
    }
    ScanAlone(m1, c, p, 0, false, k, kids);
    n := m.(pc := m.pc[p := WaitScan(k, kids)]);
    assert m1.pc[p := WaitScan(k, kids)] == n.pc;
    ReachOne(m, Wait(c));
    ReachThen(m, [Wait(c)], m1, Steps(c, k), n);
  }

  // A process woken in wait scans the table again from its start, as when it
  // called wait.
  lemma WaitAgain(m: Machine, c: nat, f: bool)
    requires Inv(m) && OnCpu(m, c) && m.pc[m.cpu[c].p] == WaitTake && WaitFree(m)
    ensures var n := m.(pc := m.pc[m.cpu[c].p := Run]);
      Enabled(m, Go(c, f)) && Enabled(n, Wait(c)) && Step(m, Go(c, f)) == Step(n, Wait(c))
  {
    hide OneCpu, CpuPc, OneWait, Parents, Orphans, NoZombieMissed, Forks, States, Free;
    var p := m.cpu[c].p;
    assert m.pc[p := Run][p := WaitScan(0, false)] == m.pc[p := WaitScan(0, false)];
  }

  // wait without a zombie child: it returns if there is no child, and sleeps if
  // there is one.
  lemma WaitFinds(m: Machine, c: nat)
    requires Inv(m) && Calls(m, c) && WaitFree(m) && Free(m, m.cpu[c].p)
    requires forall j: nat :: j < |m.st| && m.parent[j] == Some(m.cpu[c].p) ==> Free(m, j) && m.st[j] != Zombie
    ensures var p, es := m.cpu[c].p, [Wait(c)] + Steps(c, |m.st|) + [Go(c, false)];
      if exists j: nat :: j < |m.st| && m.parent[j] == Some(p)
      then Reach(m, es + [Go(c, false), Go(c, false)],
                 m.(st := m.st[p := SleepWait], pc := m.pc[p := Off], resume := m.resume[p := WaitTake],
                    cpu := m.cpu[c := Scan(p + 1)]))
      else Reach(m, es, m)
  {
    hide OneCpu, CpuPc, OneWait, Parents, Orphans, NoZombieMissed, Forks, Free, States, Reach;
    var p := m.cpu[c].p;
    var es, e := [Wait(c)] + Steps(c, |m.st|), Go(c, false);
    var kids := exists j: nat :: j < |m.st| && m.parent[j] == Some(p);
    var n := Scanned(m, c, |m.st|, kids);
    StillFree(m, n, p, p);
    assert n.pc[p := Off] == m.pc[p := Off] && n.pc[p := Run] == m.pc;
    if kids {
      ScanSleeps(n, c, p);
      var r := m.(st := m.st[p := SleepWait], pc := m.pc[p := Off], resume := m.resume[p := WaitTake],
                  cpu := m.cpu[c := Scan(p + 1)]);
      ReachThen(m, es, n, [e, e, e], r);
      assert es + [e, e, e] == es + [e] + [e, e];
    } else {
      ScanReturns(n, c, p);
      ReachThen(m, es, n, [e], m);
    }
  }

  lemma ScanReturns(n: Machine, c: nat, p: nat)
    requires Shaped(n) && c < |n.cpu| && n.cpu[c] == Exec(p) && p < |n.st| && n.pc[p] == WaitScan(|n.st|, false)
    requires Free(n, p)
    ensures Reach(n, [Go(c, false)], n.(pc := n.pc[p := Run]))
  {
    hide Free, Reach;
    ReachOne(n, Go(c, false));
  }

  lemma ScanSleeps(n: Machine, c: nat, p: nat)
    requires Shaped(n) && c < |n.cpu| && n.cpu[c] == Exec(p) && p < |n.st| && n.pc[p] == WaitScan(|n.st|, true)
    requires Free(n, p)
    ensures Reach(n, [Go(c, false), Go(c, false), Go(c, false)],
                  n.(st := n.st[p := SleepWait], pc := n.pc[p := Off], resume := n.resume[p := WaitTake],
                     cpu := n.cpu[c := Scan(p + 1)]))
  {
    hide Free, Reach;
    var e := Go(c, false);
    var n1 := Step(n, e);
    ReachOne(n, e);
    GoToSleep(n1, c, p, false, true);
    assert n1.pc[p := Off] == n.pc[p := Off];
    var r := n.(st := n.st[p := SleepWait], pc := n.pc[p := Off], resume := n.resume[p := WaitTake],
                cpu := n.cpu[c := Scan(p + 1)]);
    ReachThen(n, [e], n1, [e, e], r);
    assert [e] + [e, e] == [e, e, e];
    assert r == n1.(st := n1.st[p := SleepWait], pc := n1.pc[p := Off], cpu := n1.cpu[c := Scan(p + 1)]);
  }

  // The children that process p has from entry i on are given to init.
  function GivenAway(parent: seq<Option<nat>>, p: nat, i: nat): (r: seq<Option<nat>>)
    ensures |r| == |parent|
  {
    seq(|parent|, j requires 0 <= j < |parent| => if j >= i && parent[j] == Some(p) then Some(INIT) else parent[j])
  }

  // The loop of reparent.
  lemma {:induction false} HandOver(m: Machine, c: nat, p: nat, i: nat) returns (es: seq<Event>, r: Machine)
    requires Shaped(m) && c < |m.cpu| && m.cpu[c] == Exec(p) && p < |m.st| && p != INIT && m.pc[p] == ExitRep(i)
    requires i <= |m.st| && Free(m, INIT)
    ensures Reach(m, es, r)
    ensures r == m.(pc := m.pc[p := ExitWake], parent := GivenAway(m.parent, p, i),
                    st := if HasChildFrom(m, p, i) then Wake(m.st, INIT) else m.st)
    decreases |m.st| - i
  {
    hide Free, Step, Enabled, Advance, CanGo, Reach;
    if i == |m.st| {
      es, r := HandEnd(m, c, p);
    } else {
      var es1, n := HandOne(m, c, p, i);
      var es2;
      es2, r := HandOver(n, c, p, i + 1);
      es := es1 + es2;
      ReachThen(m, es1, n, es2, r);
      assert n.pc[p := ExitWake] == m.pc[p := ExitWake];
      assert GivenAway(m.parent, p, i) == GivenAway(n.parent, p, i + 1);
      ChildrenFrom(m, n, p, i);
    }
  }

  lemma ChildrenFrom(m: Machine, n: Machine, p: nat, i: nat)
    requires Shaped(m) && Shaped(n) && i < |m.st| == |n.st| && p != INIT
    requires n.parent == if m.parent[i] == Some(p) then m.parent[i := Some(INIT)] else m.parent
    requires n.st == if m.parent[i] == Some(p) then Wake(m.st, INIT) else m.st
    ensures (if HasChildFrom(n, p, i + 1) then Wake(n.st, INIT) else n.st)
         == (if HasChildFrom(m, p, i) then Wake(m.st, INIT) else m.st)
  {
    assert Wake(Wake(m.st, INIT), INIT) == Wake(m.st, INIT);
    if HasChildFrom(n, p, i + 1) {
      var j: nat :| i + 1 <= j < |n.st| && n.parent[j] == Some(p);
      assert m.parent[j] == Some(p);
    }
    if HasChildFrom(m, p, i) && m.parent[i] != Some(p) {
      var j: nat :| i <= j < |m.st| && m.parent[j] == Some(p);
      assert n.parent[j] == Some(p);
    }
  }

  lemma HandEnd(m: Machine, c: nat, p: nat) returns (es: seq<Event>, r: Machine)
    requires Shaped(m) && c < |m.cpu| && m.cpu[c] == Exec(p) && p < |m.st| && m.pc[p] == ExitRep(|m.st|)
    ensures Reach(m, es, r)
    ensures r == m.(pc := m.pc[p := ExitWake], parent := GivenAway(m.parent, p, |m.st|)) && !HasChildFrom(m, p, |m.st|)
  {
    hide Free, Reach;
    es, r := [Go(c, false)], m.(pc := m.pc[p := ExitWake]);
    assert Step(m, Go(c, false)) == r;
    ReachOne(m, Go(c, false));
    assert GivenAway(m.parent, p, |m.st|) == m.parent;
  }

  predicate HasChildFrom(m: Machine, p: nat, i: nat)
    requires Shaped(m)
  {
    exists j: nat :: i <= j < |m.st| && m.parent[j] == Some(p)
  }

  lemma HandOne(m: Machine, c: nat, p: nat, i: nat) returns (es: seq<Event>, n: Machine)
    requires Shaped(m) && c < |m.cpu| && m.cpu[c] == Exec(p) && p < |m.st| && p != INIT && m.pc[p] == ExitRep(i)
    requires i < |m.st| && Free(m, INIT)
    ensures n.cpu == m.cpu && n.pc == m.pc[p := ExitRep(i + 1)] && n.resume == m.resume
    ensures n.exits == m.exits && n.reaps == m.reaps
    ensures n.parent == if m.parent[i] == Some(p) then m.parent[i := Some(INIT)] else m.parent
    ensures n.st == if m.parent[i] == Some(p) then Wake(m.st, INIT) else m.st
    ensures Reach(m, es, n) && Shaped(n) && Free(n, INIT)
  {
    hide Free, Reach;
    var e := Go(c, false);
    var n1 := Step(m, e);
    StillFree(m, n1, p, INIT);
    if m.parent[i] != Some(p) {
      es, n := [e], n1;
      ReachOne(m, e);
    } else {
      es, n := [e, e], Step(n1, e);
      ReachTwo(m, e, e);
      assert m.pc[p := ExitRepWake(i)][p := ExitRep(i + 1)] == m.pc[p := ExitRep(i + 1)];
      StillFree(n1, n, p, INIT);
    }
  }

  // After exit: the process is a zombie and off its CPU, its children are init's,
  // and its parent is awake, as is init if it has been given a child.
  function Exited(m: Machine, c: nat): Machine
    requires Shaped(m) && OnCpu(m, c)
  {
    var p := m.cpu[c].p;
    var st := if HasChildFrom(m, p, 0) then Wake(m.st, INIT) else m.st;
    var st' := if m.parent[p].Some? then Wake(st, m.parent[p].value) else st;
    m.(st := st'[p := Zombie], pc := m.pc[p := Off], parent := GivenAway(m.parent, p, 0),
       cpu := m.cpu[c := Scan(p + 1)], exits := m.exits[p := m.exits[p] + 1])
  }

  // Its first part: the children handed over.
  lemma ExitHands(m: Machine, c: nat) returns (es: seq<Event>, n: Machine)
    requires Inv(m) && Calls(m, c) && m.cpu[c].p != INIT && WaitFree(m) && forall q: nat :: q < |m.st| ==> Free(m, q)
    ensures Reach(m, es, n) && Shaped(n) && |n.st| == |m.st|
    ensures var p := m.cpu[c].p;
      n == m.(st := if HasChildFrom(m, p, 0) then Wake(m.st, INIT) else m.st, pc := m.pc[p := ExitWake],
              parent := GivenAway(m.parent, p, 0))
  {
    hide OneCpu, CpuPc, OneWait, Orphans, NoZombieMissed, Forks, Free, Reach, HasChildFrom, GivenAway;
    var p := m.cpu[c].p;
    var m1 := m.(pc := m.pc[p := ExitRep(0)]);
    assert Step(m, Exit(c)) == m1;
    ReachOne(m, Exit(c));
    StillFree(m, m1, p, INIT);
    var es1;
    es1, n := HandOver(m1, c, p, 0);
    ReachThen(m, [Exit(c)], m1, es1, n);
    assert n.pc == m.pc[p := ExitWake];
    SameChildren(m, m1, p);
    es := [Exit(c)] + es1;
  }

  // exit, undisturbed.
  lemma ExitAlone(m: Machine, c: nat) returns (es: seq<Event>, r: Machine)
    requires Inv(m) && Calls(m, c) && m.cpu[c].p != INIT && WaitFree(m) && forall q: nat :: q < |m.st| ==> Free(m, q)
    ensures Reach(m, es, r)
    ensures r == Exited(m, c)
  {
    hide OneCpu, CpuPc, OneWait, Orphans, NoZombieMissed, Forks, Free, Reach, HasChildFrom, GivenAway, States;
    var p := m.cpu[c].p;
    var es1, n := ExitHands(m, c);
    GivenNone(m.parent, p);
    if m.parent[p].Some? {
      StillFree(m, n, p, m.parent[p].value);
    }
    StillFree(m, n, p, p);
    var es2;
    es2, r := ExitFinish(n, c, p);
    assert r.pc == m.pc[p := Off];
    es := es1 + es2;
    ReachThen(m, es1, n, es2, r);
  }

  lemma SameChildren(m: Machine, n: Machine, p: nat)
    requires Shaped(m) && Shaped(n) && n.parent == m.parent && |n.st| == |m.st|
    ensures HasChildFrom(n, p, 0) <==> HasChildFrom(m, p, 0)
  {
  }

  // From the wakeup of the parent to the scheduler.
  lemma ExitFinish(m: Machine, c: nat, p: nat) returns (es: seq<Event>, r: Machine)
    requires Shaped(m) && c < |m.cpu| && m.cpu[c] == Exec(p) && p < |m.st| && m.pc[p] == ExitWake && Free(m, p)
    requires m.parent[p].Some? ==> m.parent[p].value < |m.st| && Free(m, m.parent[p].value)
    ensures Reach(m, es, r)
    ensures r == m.(st := (if m.parent[p].Some? then Wake(m.st, m.parent[p].value) else m.st)[p := Zombie],
                    pc := m.pc[p := Off], cpu := m.cpu[c := Scan(p + 1)], exits := m.exits[p := m.exits[p] + 1])
  {
    hide Free, Reach;
    var e := Go(c, false);
    var m1 := Step(m, e);
    StillFree(m, m1, p, p);
    assert m1.pc == m.pc[p := ExitMark];
    ReachTwo(m, e, e);
    var m2 := Step(m1, e);
    assert m2.pc == m.pc[p := ExitHeld];
    LeaveCpu(m2, c, p, false);
    r := m2.(pc := m2.pc[p := Off], cpu := m2.cpu[c := Scan(p + 1)]);
    assert r.pc == m.pc[p := Off];
    es := [e, e] + [e, e];
    ReachThen(m, [e, e], m2, [e, e], r);
  }

  lemma GivenNone(parent: seq<Option<nat>>, p: nat)
    requires p < |parent| && parent[p] != Some(p)
    ensures GivenAway(parent, p, 0)[p] == parent[p]
  {
  }
}

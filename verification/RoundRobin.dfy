// The instrumented scheduler of lab3 (lab3/kernel/proc.c) on one CPU: it scans
// the process table round and round and counts in select_counter how often it
// has run each process.
module RoundRobin {

  datatype State = Unused | Used | Sleeping | Runnable | Running | Zombie

  // next is the table entry the scan comes to next; running says that the entry
  // before it is being run.  scans and picks count entries looked at and
  // processes run.
  datatype Sched = Sched(procs: seq<State>, counter: seq<nat>, next: nat, running: bool, scans: nat, picks: nat)

  // The scheduler looks at one entry, or the running process gives up the CPU in
  // the given state, or something else happens to process i.
  datatype Event = Scan | Back(to: State) | Change(i: nat, to: State)

  predicate Shaped(s: Sched) {
    |s.procs| == |s.counter| > s.next
  }

  // p++, and back to the start of the table.
  function Next(a: nat, n: nat): (r: nat)
    requires a < n
    ensures r < n
  {
    if a + 1 < n then a + 1 else 0
  }

  function Current(s: Sched): nat
    requires Shaped(s)
  {
    if s.next == 0 then |s.procs| - 1 else s.next - 1
  }

  // wakeup, kill, fork, allocproc, freeproc and wait act on processes that are
  // not running; only the running process can sleep or exit.
  predicate Allowed(a: State, b: State) {
    match a
    case Unused => b == Used
    case Used => b == Runnable || b == Unused
    case Sleeping => b == Runnable
    case Zombie => b == Unused
    case _ => false
  }

  predicate Enabled(s: Sched, e: Event) {
    && Shaped(s)
    && match e
       case Scan => !s.running
       case Back(to) => s.running && (to == Runnable || to == Sleeping || to == Zombie)
       case Change(i, to) => i < |s.procs| && Allowed(s.procs[i], to)
  }

  function Step(s: Sched, e: Event): Sched
    requires Enabled(s, e)
  {
    match e
    case Scan =>
      var p := s.next;
      var n := Next(p, |s.procs|);
      if s.procs[p] == Runnable then
        s.(procs := s.procs[p := Running], counter := s.counter[p := s.counter[p] + 1], running := true,
           next := n, scans := s.scans + 1, picks := s.picks + 1)
      else s.(next := n, scans := s.scans + 1)
    case Back(to) => s.(procs := s.procs[Current(s) := to], running := false)
    case Change(i, to) =>
      s.(procs := s.procs[i := to], counter := if to == Unused || to == Used then s.counter[i := 0] else s.counter)
  }

  // At most the entry before next is running, and an entry that no process has
  // started from has not been selected.
  predicate Valid(s: Sched) {
    && Shaped(s)
    && (forall i :: 0 <= i < |s.procs| ==> (s.procs[i] == Running <==> s.running && i == Current(s)))
    && (forall i :: 0 <= i < |s.procs| && (s.procs[i] == Unused || s.procs[i] == Used) ==> s.counter[i] == 0)
  }

  lemma StepKeeps(s: Sched, e: Event)
    requires Valid(s) && Enabled(s, e)
    ensures Valid(Step(s, e)) && |Step(s, e).procs| == |s.procs|
  {
  }

  // How an entry of the table can change: the edges of a process's life, RUNNABLE
  // to RUNNING only when the scan is there and nobody runs.
  lemma Edges(s: Sched, i: nat, b: State)
    requires Valid(s) && i < |s.procs| && b != s.procs[i]
    ensures (exists e :: Enabled(s, e) && i < |Step(s, e).procs| && Step(s, e).procs[i] == b)
            <==> match s.procs[i]
                 case Unused => b == Used
                 case Used => b == Runnable || b == Unused
                 case Runnable => b == Running && !s.running && s.next == i
                 case Running => b == Runnable || b == Sleeping || b == Zombie
                 case Sleeping => b == Runnable
                 case Zombie => b == Unused
  {
    var e := if s.procs[i] == Runnable then Scan else if s.procs[i] == Running then Back(b) else Change(i, b);
    if Enabled(s, e) {
      assert |Step(s, e).procs| == |s.procs|;
    }
  }

  // A process that neither sleeps nor exits.
  predicate Ready(s: Sched, p: nat) {
    p < |s.procs| && (s.procs[p] == Runnable || s.procs[p] == Running)
  }

  // A stretch of a run from s to r throughout which p is ready.
  ghost predicate Stretch(s: Sched, es: seq<Event>, r: Sched, p: nat)
    decreases |es|
  {
    Ready(s, p) && if es == [] then r == s else Enabled(s, es[0]) && Stretch(Step(s, es[0]), es[1..], r, p)
  }

  // ------------------------------------------------------ counting the visits

  // How often a scan of t entries of a table of n from entry a on comes to p.
  function Visits(a: nat, t: nat, p: nat, n: nat): nat
    requires a < n
    decreases t
  {
    if t == 0 then 0 else (if a == p then 1 else 0) + Visits(Next(a, n), t - 1, p, n)
  }

  // The scans before the first visit.
  function Dist(a: nat, p: nat, n: nat): nat
    requires a < n && p < n
  {
    if a <= p then p - a else p - a + n
  }

  // The visits to p exceed those to q by one at most, and not at all when q comes
  // first.
  lemma {:induction false} VisitsBalance(a: nat, t: nat, p: nat, q: nat, n: nat)
    requires a < n && p < n && q < n
    ensures Visits(a, t, p, n) <= Visits(a, t, q, n) + if Dist(a, p, n) < Dist(a, q, n) then 1 else 0
    decreases t
  {
    if t > 0 {
      VisitsBalance(Next(a, n), t - 1, p, q, n);
    }
  }

  lemma {:induction false} NoVisits(a: nat, t: nat, p: nat, n: nat)
    requires a < n && p < n && Visits(a, t, p, n) == 0
    ensures t <= Dist(a, p, n)
    decreases t
  {
    if t > 0 {
      NoVisits(Next(a, n), t - 1, p, n);
    }
  }

  // A ready process is run at every visit.
  lemma {:induction false} CountsVisits(s: Sched, es: seq<Event>, r: Sched, p: nat)
    requires Valid(s) && Stretch(s, es, r, p)
    ensures Valid(r) && |r.procs| == |s.procs| && r.scans >= s.scans && r.picks - s.picks <= r.scans - s.scans
    ensures p < |r.procs| && r.counter[p] == s.counter[p] + Visits(s.next, r.scans - s.scans, p, |s.procs|)
    decreases |es|
  {
    if es != [] {
      var m := Step(s, es[0]);
      StepKeeps(s, es[0]);
      CountsVisits(m, es[1..], r, p);
    }
  }

  // Over any stretch in which p and q neither sleep nor exit, their counters
  // grow by amounts that differ by at most one.
  lemma Fair(s: Sched, es: seq<Event>, r: Sched, p: nat, q: nat)
    requires Valid(s) && Stretch(s, es, r, p) && Stretch(s, es, r, q)
    ensures p < |r.counter| == |s.counter| && q < |r.counter|
    ensures r.counter[p] + s.counter[q] <= r.counter[q] + s.counter[p] + 1
    ensures r.counter[q] + s.counter[p] <= r.counter[p] + s.counter[q] + 1
  {
    CountsVisits(s, es, r, p);
    CountsVisits(s, es, r, q);
    VisitsBalance(s.next, r.scans - s.scans, p, q, |s.procs|);
    VisitsBalance(s.next, r.scans - s.scans, q, p, |s.procs|);
  }

  // While a ready process is not selected, at most NPROC - 1 others are.
  lemma BoundedWait(s: Sched, es: seq<Event>, r: Sched, p: nat)
    requires Valid(s) && Stretch(s, es, r, p) && p < |s.counter| && p < |r.counter| && r.counter[p] == s.counter[p]
    ensures r.picks - s.picks <= |s.procs| - 1
  {
    CountsVisits(s, es, r, p);
    NoVisits(s.next, r.scans - s.scans, p, |s.procs|);
  }

  // From any state the scan gets to a process that stays RUNNABLE and runs it,
  // when every process run before gives up the CPU.
  lemma {:induction false} Served(s: Sched, p: nat) returns (es: seq<Event>, r: Sched)
    requires Valid(s) && !s.running && p < |s.procs| && s.procs[p] == Runnable
    ensures Stretch(s, es, r, p) && Valid(r) && r.running && p < |r.procs| && Current(r) == p && r.procs[p] == Running
    ensures forall i :: 0 <= i < |es| ==> es[i] == Scan || es[i] == Back(Runnable)
    ensures |r.counter| == |s.counter| && r.counter[p] == s.counter[p] + 1
    ensures r.scans - s.scans == Dist(s.next, p, |s.procs|) + 1
    decreases Dist(s.next, p, |s.procs|)
  {
    var m := Step(s, Scan);
    StepKeeps(s, Scan);
    var rest;
    if s.next == p {
      es, r, rest := [Scan], m, [];
    } else if m.running {
      var b := Step(m, Back(Runnable));
      StepKeeps(m, Back(Runnable));
      rest, r := Served(b, p);
      es := [Scan] + ([Back(Runnable)] + rest);
      assert ([Back(Runnable)] + rest)[1..] == rest;
      rest := [Back(Runnable)] + rest;
    } else {
      rest, r := Served(m, p);
      es := [Scan] + rest;
    }
    assert es[1..] == rest;
  }
}

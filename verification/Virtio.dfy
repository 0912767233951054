// The virtio disk driver (virtio_disk.c): eight descriptors lent to the device
// in chains of three, two rings with 16-bit indices, and the completion
// interrupt.  Each method is one stretch under vdisk_lock, or one step of a
// device that completes each request it has been given once, with status 0
// (sections 2.6 and 5.2 of Virtio 1.1).
module Virtio {
  import opened Basics
  import opened Disk

  const NUM: nat := 8
  const WRAP: nat := 0x1_0000

  // What a descriptor points at: a request header, the data of a buffer, or the
  // status byte of a request.
  datatype Addr = Null | Header(i: nat) | Data(b: nat) | Status(i: nat)

  datatype Desc = Desc(addr: Addr, len: nat, nextFlag: bool, writeFlag: bool, next: nat)

  const Cleared: Desc := Desc(Null, 0, false, false, 0)

  datatype Op = Op(write: bool, sector: nat)

  datatype Info = Info(b: Option<nat>, status: nat)

  // A request: posted by the driver, taken by the device, completed by the
  // device, and seen complete by the interrupt handler.
  datatype Phase = Posted | Taken | Completed(k: nat) | Seen

  // The chain under head h also holds descriptors d1 and d2; at is its position
  // among all the heads ever posted.
  datatype Chain = Chain(d1: nat, d2: nat, b: nat, op: Op, at: nat, phase: Phase)

  datatype Request = Request(op: Op, b: nat, status: nat)

  // A set of numbers below n has at most n members.
  lemma {:induction false} Bounded(s: set<nat>, n: nat)
    requires forall x <- s :: x < n
    ensures |s| <= n
  {
    if n == 0 {
      assert s == {};
    } else {
      Bounded(s - {n - 1}, n - 1);
    }
  }

  function Elements(s: seq<nat>): set<nat> {
    set x | x in s
  }

  lemma {:induction false} DistinctCard(s: seq<nat>)
    requires forall i, j :: 0 <= i < j < |s| ==> s[i] != s[j]
    ensures |Elements(s)| == |s|
  {
    if s != [] {
      var m := |s| - 1;
      DistinctCard(s[..m]);
      assert Elements(s) == Elements(s[..m]) + {s[m]};
      assert s[m] !in Elements(s[..m]);
    } else {
      assert Elements(s) == {};
    }
  }

  predicate Distinct(s: seq<nat>) {
    forall i, j :: 0 <= i < j < |s| ==> s[i] != s[j]
  }

  lemma DistinctBound(s: seq<nat>, n: nat)
    requires forall i, j :: 0 <= i < j < |s| ==> s[i] != s[j]
    requires forall i :: 0 <= i < |s| ==> s[i] < n
    ensures |s| <= n
  {
    DistinctCard(s);
    Bounded(Elements(s), n);
  }

  // Each descriptor is free or in exactly one chain of three.
  ghost predicate Partition(free: seq<bool>, own: seq<Option<nat>>, flight: map<nat, Chain>) {
    && |free| == |own| == NUM
    && (forall i :: 0 <= i < NUM ==> (free[i] <==> own[i].None?))
    && (forall h <- flight :: InPlace(own, h, flight[h]))
    && (forall i :: 0 <= i < NUM && own[i].Some? ==>
          own[i].value in flight && (i == own[i].value || i == flight[own[i].value].d1 || i == flight[own[i].value].d2))
  }

  predicate InPlace(own: seq<Option<nat>>, h: nat, c: Chain)
    requires |own| == NUM
  {
    && h < NUM && c.d1 < NUM && c.d2 < NUM && h != c.d1 && h != c.d2 && c.d1 != c.d2
    && own[h] == Some(h) && own[c.d1] == Some(h) && own[c.d2] == Some(h)
  }

  // The chain of a request says what was asked for, until it is freed.
  predicate Formatted(desc: seq<Desc>, ops: seq<Op>, info: seq<Info>, busy: map<nat, bool>, h: nat, c: Chain)
    requires |desc| == |ops| == |info| == NUM
  {
    && h < NUM && c.d1 < NUM && c.d2 < NUM
    && desc[h] == Desc(Header(h), 16, true, false, c.d1)
    && desc[c.d1] == Desc(Data(c.b), BSIZE, true, !c.op.write, c.d2)
    && desc[c.d2] == Desc(Status(h), 1, false, true, 0)
    && ops[h] == c.op
    && info[h] == Info(Some(c.b), if c.phase.Posted? || c.phase.Taken? then 0xff else 0)
    && c.b in busy && busy[c.b] == !c.phase.Seen?
  }

  // No two requests in flight are for the same buffer.
  ghost predicate Chains(desc: seq<Desc>, ops: seq<Op>, info: seq<Info>, busy: map<nat, bool>,
                         flight: map<nat, Chain>) {
    && |desc| == |ops| == |info| == NUM
    && (forall h <- flight :: Formatted(desc, ops, info, busy, h, flight[h]))
    && (forall h, h' :: h in flight && h' in flight && flight[h].b == flight[h'].b ==> h == h')
  }

  // The entries of the avail ring that the device has not taken.
  ghost predicate AvailRing(avail: seq<nat>, availIdx: nat, posted: seq<nat>, taken: nat, flight: map<nat, Chain>) {
    && |avail| == NUM && availIdx == |posted| % WRAP && taken <= |posted|
    && (forall k :: taken <= k < |posted| ==>
          posted[k] in flight && flight[posted[k]].at == k && avail[k % NUM] == posted[k])
    && (forall h <- flight ::
          flight[h].at < |posted| && posted[flight[h].at] == h && (flight[h].phase.Posted? <==> flight[h].at >= taken))
  }

  // The entries of the used ring that the driver has not seen.
  ghost predicate UsedRing(used: seq<nat>, usedDev: nat, usedIdx: nat, done: seq<nat>, seen: nat,
                           flight: map<nat, Chain>) {
    && |used| == NUM && usedDev == |done| % WRAP && usedIdx == seen % WRAP && seen <= |done|
    && (forall k :: seen <= k < |done| ==>
          done[k] in flight && flight[done[k]].phase == Completed(k) && used[k % NUM] == done[k])
    && (forall h <- flight :: flight[h].phase.Completed? ==>
          seen <= flight[h].phase.k < |done| && done[flight[h].phase.k] == h)
  }

  // No entry of either ring is overwritten before it is used.
  lemma AvailFits(free: seq<bool>, own: seq<Option<nat>>, avail: seq<nat>, availIdx: nat, posted: seq<nat>,
                  taken: nat, flight: map<nat, Chain>)
    requires Partition(free, own, flight) && AvailRing(avail, availIdx, posted, taken, flight)
    ensures |posted| - taken <= NUM
    ensures (exists h: nat :: h < NUM && h !in flight) ==> |posted| - taken < NUM
  {
    var w := posted[taken..];
    assert forall i :: 0 <= i < |w| ==> w[i] == posted[taken + i];
    DistinctBound(w, NUM);
    if h: nat :| h < NUM && h !in flight {
      DistinctBound(w + [h], NUM);
    }
  }

  lemma UsedFits(free: seq<bool>, own: seq<Option<nat>>, used: seq<nat>, usedDev: nat, usedIdx: nat, done: seq<nat>,
                 seen: nat, flight: map<nat, Chain>)
    requires Partition(free, own, flight) && UsedRing(used, usedDev, usedIdx, done, seen, flight)
    ensures |done| - seen <= NUM
    ensures (exists h: nat :: h < NUM && !(h in flight && flight[h].phase.Completed?)) ==> |done| - seen < NUM
  {
    var u := done[seen..];
    assert forall i :: 0 <= i < |u| ==> u[i] == done[seen + i];
    DistinctBound(u, NUM);
    if h: nat :| h < NUM && !(h in flight && flight[h].phase.Completed?) {
      DistinctBound(u + [h], NUM);
    }
  }

  // ------------------------------------------------------------- new request

  lemma PartitionAdds(free: seq<bool>, free': seq<bool>, own: seq<Option<nat>>, flight: map<nat, Chain>, h: nat,
                      c: Chain)
    requires Partition(free, own, flight) && |free'| == NUM
    requires h < NUM && c.d1 < NUM && c.d2 < NUM && h != c.d1 && h != c.d2 && c.d1 != c.d2
    requires free[h] && free[c.d1] && free[c.d2]
    requires forall i :: 0 <= i < NUM ==> (free'[i] <==> free[i] && i != h && i != c.d1 && i != c.d2)
    ensures h !in flight
    ensures Partition(free', own[h := Some(h)][c.d1 := Some(h)][c.d2 := Some(h)], flight[h := c])
  {
  }

  lemma ChainsAdds(desc: seq<Desc>, ops: seq<Op>, info: seq<Info>, busy: map<nat, bool>, flight: map<nat, Chain>,
                   free: seq<bool>, own: seq<Option<nat>>, h: nat, c: Chain)
    requires Chains(desc, ops, info, busy, flight) && Partition(free, own, flight)
    requires h < NUM && c.d1 < NUM && c.d2 < NUM && h != c.d1 && h != c.d2 && c.d1 != c.d2 && c.phase == Posted
    requires free[h] && free[c.d1] && free[c.d2] && forall g <- flight :: flight[g].b != c.b
    ensures Chains(desc[h := Desc(Header(h), 16, true, false, c.d1)][c.d1 := Desc(Data(c.b), BSIZE, true, !c.op.write,
        c.d2)]
                       [c.d2 := Desc(Status(h), 1, false, true, 0)],
                   ops[h := c.op], info[h := Info(Some(c.b), 0xff)], busy[c.b := true], flight[h := c])
  {
    forall g <- flight
      ensures InPlace(own, g, flight[g]) && Formatted(desc, ops, info, busy, g, flight[g])
    {
    }
  }

  lemma AvailAdds(avail: seq<nat>, availIdx: nat, posted: seq<nat>, taken: nat, flight: map<nat, Chain>, h: nat,
                  c: Chain)
    requires AvailRing(avail, availIdx, posted, taken, flight) && |posted| - taken < NUM
    requires h !in flight && c.at == |posted| && c.phase == Posted
    ensures availIdx % NUM == |posted| % NUM
    ensures AvailRing(avail[availIdx % NUM := h], (availIdx + 1) % WRAP, posted + [h], taken, flight[h := c])
  {
    WrapSlot(|posted|);
    WrapNext(|posted|);
    forall k | taken <= k < |posted|
      ensures k % NUM != |posted| % NUM
    {
      SlotApart(k, |posted|);
    }
  }

  lemma UsedAdds(used: seq<nat>, usedDev: nat, usedIdx: nat, done: seq<nat>, seen: nat, flight: map<nat, Chain>,
                 h: nat, c: Chain)
    requires UsedRing(used, usedDev, usedIdx, done, seen, flight) && h !in flight && !c.phase.Completed?
    ensures UsedRing(used, usedDev, usedIdx, done, seen, flight[h := c])
  {
  }

  // Changes to free descriptors disturb no chain.
  lemma ChainsKeep(free: seq<bool>, own: seq<Option<nat>>, flight: map<nat, Chain>, desc: seq<Desc>, desc': seq<Desc>,
                   ops: seq<Op>, info: seq<Info>, busy: map<nat, bool>)
    requires Partition(free, own, flight) && Chains(desc, ops, info, busy, flight) && |desc'| == NUM
    requires forall i :: 0 <= i < NUM && !free[i] ==> desc'[i] == desc[i]
    ensures Chains(desc', ops, info, busy, flight)
  {
    forall g <- flight
      ensures InPlace(own, g, flight[g]) && Formatted(desc, ops, info, busy, g, flight[g])
    {
    }
  }

  // With fewer than 2^16 entries outstanding the wrapped indices differ exactly
  // when something is.
  lemma IndexTells(n: nat, k: nat)
    requires k <= n <= k + NUM
    ensures n % WRAP == k % WRAP <==> n == k
    ensures k % WRAP % NUM == k % NUM
  {
    WrapSlot(k);
    if n != k {
      assert n == n / WRAP * WRAP + n % WRAP && k == k / WRAP * WRAP + k % WRAP;
    }
  }

  lemma SlotApart(k: nat, n: nat)
    requires k < n < k + NUM
    ensures k % NUM != n % NUM
  {
  }

  lemma WrapNext(k: nat)
    ensures (k % WRAP + 1) % WRAP == (k + 1) % WRAP
  {
  }

  lemma WrapSlot(k: nat)
    ensures k % WRAP % NUM == k % NUM
  {
    SameRemainder(8192 * (k / WRAP), k % WRAP);
  }

  lemma SameRemainder(q: nat, r: nat)
    ensures (8 * q + r) % 8 == r % 8
  {
  }

  // ------------------------------------------------------- change of phase

  lemma InFlight(free: seq<bool>, own: seq<Option<nat>>, flight: map<nat, Chain>, h: nat)
    requires Partition(free, own, flight) && h in flight
    ensures InPlace(own, h, flight[h])
  {
  }

  lemma PartitionPhase(free: seq<bool>, own: seq<Option<nat>>, flight: map<nat, Chain>, h: nat, c: Chain)
    requires Partition(free, own, flight) && h in flight && c == flight[h].(phase := c.phase)
    ensures Partition(free, own, flight[h := c])
  {
  }

  lemma ChainsPhase(desc: seq<Desc>, ops: seq<Op>, info: seq<Info>, busy: map<nat, bool>, flight: map<nat, Chain>,
                    h: nat, c: Chain, status: nat, on: bool)
    requires Chains(desc, ops, info, busy, flight) && h in flight && c == flight[h].(phase := c.phase)
    requires status == (if c.phase.Posted? || c.phase.Taken? then 0xff else 0) && on == !c.phase.Seen?
    ensures h < NUM && Chains(desc, ops, info[h := info[h].(status := status)], busy[c.b := on], flight[h := c])
  {
    assert Formatted(desc, ops, info, busy, h, flight[h]);
  }

  lemma AvailPhase(avail: seq<nat>, availIdx: nat, posted: seq<nat>, taken: nat, flight: map<nat, Chain>, h: nat,
                   c: Chain)
    requires AvailRing(avail, availIdx, posted, taken, flight) && h in flight && c == flight[h].(phase := c.phase)
    requires !flight[h].phase.Posted? && !c.phase.Posted?
    ensures AvailRing(avail, availIdx, posted, taken, flight[h := c])
  {
  }

  lemma AvailTakes(avail: seq<nat>, availIdx: nat, posted: seq<nat>, taken: nat, flight: map<nat, Chain>, c: Chain)
    requires AvailRing(avail, availIdx, posted, taken, flight) && taken < |posted| && posted[taken] in flight
    requires c == flight[posted[taken]].(phase := Taken)
    ensures avail[taken % NUM] == posted[taken] && flight[posted[taken]].phase == Posted
    ensures AvailRing(avail, availIdx, posted, taken + 1, flight[posted[taken] := c])
  {
  }

  lemma NextPosted(avail: seq<nat>, availIdx: nat, posted: seq<nat>, taken: nat, flight: map<nat, Chain>)
    requires AvailRing(avail, availIdx, posted, taken, flight)
    ensures |avail| == NUM && availIdx == |posted| % WRAP && taken <= |posted|
    ensures taken < |posted| ==> posted[taken] in flight && avail[taken % NUM] == posted[taken]
  {
  }

  lemma NextDone(used: seq<nat>, usedDev: nat, usedIdx: nat, done: seq<nat>, seen: nat, flight: map<nat, Chain>)
    requires UsedRing(used, usedDev, usedIdx, done, seen, flight) && seen < |done|
    ensures |used| == NUM && usedIdx == seen % WRAP && used[usedIdx % NUM] == done[seen]
    ensures done[seen] in flight && flight[done[seen]].phase == Completed(seen)
  {
    WrapSlot(seen);
  }

  lemma UsedPhase(used: seq<nat>, usedDev: nat, usedIdx: nat, done: seq<nat>, seen: nat, flight: map<nat, Chain>,
                  h: nat, c: Chain)
    requires UsedRing(used, usedDev, usedIdx, done, seen, flight) && h in flight && !flight[h].phase.Completed?
    requires !c.phase.Completed?
    ensures UsedRing(used, usedDev, usedIdx, done, seen, flight[h := c])
  {
  }

  lemma UsedCompletes(used: seq<nat>, usedDev: nat, usedIdx: nat, done: seq<nat>, seen: nat, flight: map<nat, Chain>,
                      h: nat, c: Chain)
    requires UsedRing(used, usedDev, usedIdx, done, seen, flight) && h in flight && !flight[h].phase.Completed?
    requires c.phase == Completed(|done|) && |done| - seen < NUM
    ensures UsedRing(used[usedDev % NUM := h], (usedDev + 1) % WRAP, usedIdx, done + [h], seen, flight[h := c])
  {
    WrapSlot(|done|);
    WrapNext(|done|);
    forall k | seen <= k < |done|
      ensures k % NUM != |done| % NUM
    {
      SlotApart(k, |done|);
    }
  }

  lemma UsedSees(used: seq<nat>, usedDev: nat, usedIdx: nat, done: seq<nat>, seen: nat, flight: map<nat, Chain>,
                 h: nat, c: Chain)
    requires UsedRing(used, usedDev, usedIdx, done, seen, flight) && seen < |done| && h == done[seen]
    requires h in flight && c == flight[h].(phase := Seen)
    ensures UsedRing(used, usedDev, (usedIdx + 1) % WRAP, done, seen + 1, flight[h := c])
  {
    WrapNext(seen);
    var f := flight[h := c];
    forall k | seen + 1 <= k < |done|
      ensures done[k] in f && f[done[k]].phase == Completed(k) && used[k % NUM] == done[k]
    {
    }
    assert forall g <- f :: g != h ==> f[g] == flight[g];
  }

  lemma ChainInfo(desc: seq<Desc>, ops: seq<Op>, info: seq<Info>, busy: map<nat, bool>, flight: map<nat, Chain>, h: nat)
    requires Chains(desc, ops, info, busy, flight) && h in flight
    ensures Formatted(desc, ops, info, busy, h, flight[h])
  {
  }

  // ------------------------------------------------------ end of a request

  lemma NotFree(free: seq<bool>, own: seq<Option<nat>>, flight: map<nat, Chain>, h: nat)
    requires Partition(free, own, flight) && h in flight && InPlace(own, h, flight[h])
    ensures !free[h] && !free[flight[h].d1] && !free[flight[h].d2]
  {
  }

  lemma PartitionDrops(free: seq<bool>, own: seq<Option<nat>>, flight: map<nat, Chain>, h: nat)
    requires Partition(free, own, flight) && h in flight && InPlace(own, h, flight[h])
    ensures var c := flight[h];
      Partition(free[h := true][c.d1 := true][c.d2 := true], own[h := None][c.d1 := None][c.d2 := None], flight - {h})
  {
  }

  lemma ChainsDrops(desc: seq<Desc>, ops: seq<Op>, info: seq<Info>, busy: map<nat, bool>, flight: map<nat, Chain>,
                    free: seq<bool>, own: seq<Option<nat>>, h: nat)
    requires Chains(desc, ops, info, busy, flight) && Partition(free, own, flight)
    requires h in flight && InPlace(own, h, flight[h])
    ensures var c := flight[h];
      Chains(desc[h := Cleared][c.d1 := Cleared][c.d2 := Cleared], ops, info[h := info[h].(b := None)], busy,
             flight - {h})
  {
    forall g <- flight
      ensures InPlace(own, g, flight[g]) && Formatted(desc, ops, info, busy, g, flight[g])
    {
    }
  }

  lemma AvailDrops(avail: seq<nat>, availIdx: nat, posted: seq<nat>, taken: nat, flight: map<nat, Chain>, h: nat)
    requires AvailRing(avail, availIdx, posted, taken, flight) && h in flight && !flight[h].phase.Posted?
    ensures AvailRing(avail, availIdx, posted, taken, flight - {h})
  {
  }

  lemma UsedDrops(used: seq<nat>, usedDev: nat, usedIdx: nat, done: seq<nat>, seen: nat, flight: map<nat, Chain>,
                  h: nat)
    requires UsedRing(used, usedDev, usedIdx, done, seen, flight) && h in flight && !flight[h].phase.Completed?
    ensures UsedRing(used, usedDev, usedIdx, done, seen, flight - {h})
  {
  }

  lemma RingsAdd(free: seq<bool>, own: seq<Option<nat>>, avail: seq<nat>, availIdx: nat, posted: seq<nat>, taken: nat,
                 used: seq<nat>, usedDev: nat, usedIdx: nat, done: seq<nat>, seen: nat, flight: map<nat, Chain>,
                 h: nat, c: Chain)
    requires Partition(free, own, flight) && AvailRing(avail, availIdx, posted, taken, flight)
    requires UsedRing(used, usedDev, usedIdx, done, seen, flight)
    requires h < NUM && h !in flight && c.at == |posted| && c.phase == Posted
    ensures AvailRing(avail[availIdx % NUM := h], (availIdx + 1) % WRAP, posted + [h], taken, flight[h := c])
    ensures UsedRing(used, usedDev, usedIdx, done, seen, flight[h := c])
  {
    AvailFits(free, own, avail, availIdx, posted, taken, flight);
    AvailAdds(avail, availIdx, posted, taken, flight, h, c);
    UsedAdds(used, usedDev, usedIdx, done, seen, flight, h, c);
  }

  // Fewer than three descriptors are free.
  predicate Scarce(free: seq<bool>)
    requires |free| == NUM
  {
    forall a, b, c :: 0 <= a < b < c < NUM ==> !(free[a] && free[b] && free[c])
  }

  lemma ScarceStays(free: seq<bool>, free': seq<bool>)
    requires |free| == |free'| == NUM && Scarce(free) && forall i :: 0 <= i < NUM && free'[i] ==> free[i]
    ensures Scarce(free')
  {
  }

  // Three descriptors in use, linked by their next flags.
  predicate InUse(desc: seq<Desc>, free: seq<bool>, h: nat, c: Chain) {
    && |desc| == |free| == NUM && h < NUM && c.d1 < NUM && c.d2 < NUM
    && h != c.d1 && h != c.d2 && c.d1 != c.d2 && !free[h] && !free[c.d1] && !free[c.d2]
    && desc[h].nextFlag && desc[h].next == c.d1 && desc[c.d1].nextFlag && desc[c.d1].next == c.d2
    && !desc[c.d2].nextFlag
  }

  // Everything the driver and the device know; see the fields of Driver.
  datatype State = State(
    desc: seq<Desc>, avail: seq<nat>, availIdx: nat, used: seq<nat>, usedDev: nat, info: seq<Info>, ops: seq<Op>,
    devIdx: nat, free: seq<bool>, usedIdx: nat, busy: map<nat, bool>, asleep: nat,
    posted: seq<nat>, taken: nat, done: seq<nat>, seen: nat, flight: map<nat, Chain>, own: seq<Option<nat>>)

  ghost predicate Sound(s: State) {
    && |s.desc| == |s.avail| == |s.used| == |s.info| == |s.ops| == |s.free| == |s.own| == NUM
    && Partition(s.free, s.own, s.flight) && Chains(s.desc, s.ops, s.info, s.busy, s.flight)
    && AvailRing(s.avail, s.availIdx, s.posted, s.taken, s.flight) && s.devIdx == s.taken % WRAP
    && UsedRing(s.used, s.usedDev, s.usedIdx, s.done, s.seen, s.flight)
    && (s.asleep > 0 ==> Scarce(s.free))
  }

  // What the driver can tell from the wrapped indices and the format of a chain.
  lemma SoundFacts(s: State)
    requires Sound(s)
    ensures |s.desc| == |s.avail| == |s.used| == |s.info| == |s.ops| == |s.free| == |s.own| == NUM
    ensures s.taken <= |s.posted| && (s.devIdx == s.availIdx <==> s.taken == |s.posted|)
    ensures s.seen <= |s.done| && (s.usedIdx == s.usedDev <==> s.seen == |s.done|)
    ensures forall h <- s.flight :: Formatted(s.desc, s.ops, s.info, s.busy, h, s.flight[h])
  {
    hide Partition, Scarce;
    AvailFits(s.free, s.own, s.avail, s.availIdx, s.posted, s.taken, s.flight);
    UsedFits(s.free, s.own, s.used, s.usedDev, s.usedIdx, s.done, s.seen, s.flight);
    IndexTells(|s.posted|, s.taken);
    IndexTells(|s.done|, s.seen);
  }

  // The device takes the next request.
  lemma SoundTakes(s: State) returns (h: nat, t: State)
    requires Sound(s) && s.taken < |s.posted|
    ensures h == s.posted[s.taken] && h in s.flight && |s.avail| == NUM && h == s.avail[s.devIdx % NUM]
    ensures t == s.(devIdx := (s.devIdx + 1) % WRAP, taken := s.taken + 1,
                    flight := s.flight[h := s.flight[h].(phase := Taken)])
    ensures Sound(t)
  {
    hide Partition, Chains, AvailRing, UsedRing, Scarce;
    h := s.posted[s.taken];
    NextPosted(s.avail, s.availIdx, s.posted, s.taken, s.flight);
    WrapNext(s.taken);
    WrapSlot(s.taken);
    var c := s.flight[h].(phase := Taken);
    ChainInfo(s.desc, s.ops, s.info, s.busy, s.flight, h);
    AvailTakes(s.avail, s.availIdx, s.posted, s.taken, s.flight, c);
    PartitionPhase(s.free, s.own, s.flight, h, c);
    ChainsPhase(s.desc, s.ops, s.info, s.busy, s.flight, h, c, 0xff, true);
    assert s.info[h := s.info[h].(status := 0xff)] == s.info && s.busy[c.b := true] == s.busy;
    UsedPhase(s.used, s.usedDev, s.usedIdx, s.done, s.seen, s.flight, h, c);
    t := s.(devIdx := (s.devIdx + 1) % WRAP, taken := s.taken + 1, flight := s.flight[h := c]);
  }

  // It completes one it has taken.
  lemma SoundCompletes(s: State, h: nat) returns (t: State)
    requires Sound(s) && h in s.flight && s.flight[h].phase == Taken
    ensures h < NUM == |s.info| == |s.used|
    ensures t == s.(info := s.info[h := s.info[h].(status := 0)], used := s.used[s.usedDev % NUM := h],
                    usedDev := (s.usedDev + 1) % WRAP, done := s.done + [h],
                    flight := s.flight[h := s.flight[h].(phase := Completed(|s.done|))])
    ensures Sound(t)
  {
    hide Partition, Chains, AvailRing, UsedRing, Scarce;
    var c := s.flight[h].(phase := Completed(|s.done|));
    InFlight(s.free, s.own, s.flight, h);
    PartitionPhase(s.free, s.own, s.flight, h, c);
    ChainInfo(s.desc, s.ops, s.info, s.busy, s.flight, h);
    ChainsPhase(s.desc, s.ops, s.info, s.busy, s.flight, h, c, 0, true);
    assert s.busy[c.b := true] == s.busy;
    AvailPhase(s.avail, s.availIdx, s.posted, s.taken, s.flight, h, c);
    UsedFits(s.free, s.own, s.used, s.usedDev, s.usedIdx, s.done, s.seen, s.flight);
    UsedCompletes(s.used, s.usedDev, s.usedIdx, s.done, s.seen, s.flight, h, c);
    t := s.(info := s.info[h := s.info[h].(status := 0)], used := s.used[s.usedDev % NUM := h],
            usedDev := (s.usedDev + 1) % WRAP, done := s.done + [h], flight := s.flight[h := c]);
  }

  // The driver sees the next completion.
  lemma SoundSees(s: State) returns (h: nat, t: State)
    requires Sound(s) && s.seen < |s.done|
    ensures h == s.done[s.seen] && h in s.flight && s.flight[h].phase == Completed(s.seen)
    ensures |s.used| == |s.info| == NUM && h == s.used[s.usedIdx % NUM] < NUM
    ensures s.info[h] == Info(Some(s.flight[h].b), 0) && s.flight[h].b in s.busy
    ensures t == s.(busy := s.busy[s.flight[h].b := false], usedIdx := (s.usedIdx + 1) % WRAP, seen := s.seen + 1,
                    flight := s.flight[h := s.flight[h].(phase := Seen)])
    ensures Sound(t)
  {
    hide Partition, Chains, AvailRing, UsedRing, Scarce;
    NextDone(s.used, s.usedDev, s.usedIdx, s.done, s.seen, s.flight);
    h := s.done[s.seen];
    var c := s.flight[h].(phase := Seen);
    PartitionPhase(s.free, s.own, s.flight, h, c);
    ChainInfo(s.desc, s.ops, s.info, s.busy, s.flight, h);
    ChainsPhase(s.desc, s.ops, s.info, s.busy, s.flight, h, c, 0, false);
    assert s.info[h := s.info[h].(status := 0)] == s.info;
    AvailPhase(s.avail, s.availIdx, s.posted, s.taken, s.flight, h, c);
    UsedSees(s.used, s.usedDev, s.usedIdx, s.done, s.seen, s.flight, h, c);
    t := s.(busy := s.busy[c.b := false], usedIdx := (s.usedIdx + 1) % WRAP, seen := s.seen + 1,
            flight := s.flight[h := c]);
  }

  lemma Outstanding(s: State)
    requires Sound(s)
    ensures forall h <- s.flight :: s.flight[h].phase.Completed? ==>
              s.seen <= s.flight[h].phase.k < |s.done| && s.done[s.flight[h].phase.k] == h
  {
    hide Partition, Chains, AvailRing;
  }

  // Of the requests f0 the first n completions have been seen.
  predicate SeenAll(f0: map<nat, Chain>, f: map<nat, Chain>, n: nat) {
    f.Keys == f0.Keys && forall h <- f :: f[h] == SeenUpTo(f0[h], n)
  }

  // Only buffers of the requests f have changed.
  predicate OthersBusy(f: map<nat, Chain>, busy0: map<nat, bool>, busy: map<nat, bool>) {
    busy.Keys == busy0.Keys && forall b <- busy :: (forall h <- f :: f[h].b != b) ==> busy[b] == busy0[b]
  }

  lemma SeenNone(s: State)
    requires Sound(s)
    ensures SeenAll(s.flight, s.flight, s.seen) && OthersBusy(s.flight, s.busy, s.busy)
  {
    hide Sound;
    Outstanding(s);
  }

  lemma SeenStep(s: State, f0: map<nat, Chain>, busy0: map<nat, bool>)
    requires Sound(s) && s.seen < |s.done| && s.done[s.seen] in s.flight && s.flight[s.done[s.seen]].b in s.busy
    requires s.flight[s.done[s.seen]].phase == Completed(s.seen)
    requires SeenAll(f0, s.flight, s.seen) && OthersBusy(f0, busy0, s.busy)
    ensures var h := s.done[s.seen];
            && SeenAll(f0, s.flight[h := s.flight[h].(phase := Seen)], s.seen + 1)
            && OthersBusy(f0, busy0, s.busy[s.flight[h].b := false])
  {
    hide Sound;
    Outstanding(s);
    assert f0[s.done[s.seen]].b == s.flight[s.done[s.seen]].b;
  }

  lemma KeysSame(f0: map<nat, Chain>, f: map<nat, Chain>, n: nat, busy0: map<nat, bool>, busy: map<nat, bool>)
    requires SeenAll(f0, f, n) && OthersBusy(f0, busy0, busy)
    ensures f.Keys == f0.Keys && busy.Keys == busy0.Keys
  {
  }

  lemma SeenEnd(s: State, f0: map<nat, Chain>, busy0: map<nat, bool>)
    requires Sound(s) && s.seen == |s.done| && SeenAll(f0, s.flight, s.seen) && OthersBusy(f0, busy0, s.busy)
    ensures forall h <- s.flight :: s.flight[h] == AfterSeen(f0[h])
    ensures forall b <- s.busy :: (forall h <- s.flight :: s.flight[h].b != b) ==> s.busy[b] == busy0[b]
  {
    hide Sound;
    Outstanding(s);
  }

  // A request that has been seen complete is dropped.
  lemma SoundDrops(s: State, h: nat) returns (c: Chain, t: State)
    requires Sound(s) && h in s.flight && s.flight[h].b in s.busy && !s.busy[s.flight[h].b]
    ensures c == s.flight[h] && c.phase == Seen && |s.desc| == |s.info| == |s.free| == |s.own| == |s.ops| == NUM
    ensures InUse(s.desc, s.free, h, c)
    ensures t == s.(info := s.info[h := s.info[h].(b := None)],
                    desc := s.desc[h := Cleared][c.d1 := Cleared][c.d2 := Cleared],
                    free := s.free[h := true][c.d1 := true][c.d2 := true], asleep := 0,
                    flight := s.flight - {h}, own := s.own[h := None][c.d1 := None][c.d2 := None])
    ensures Sound(t)
  {
    hide Partition, Chains, AvailRing, UsedRing, Scarce;
    c := s.flight[h];
    InFlight(s.free, s.own, s.flight, h);
    NotFree(s.free, s.own, s.flight, h);
    ChainInfo(s.desc, s.ops, s.info, s.busy, s.flight, h);
    PartitionDrops(s.free, s.own, s.flight, h);
    ChainsDrops(s.desc, s.ops, s.info, s.busy, s.flight, s.free, s.own, h);
    AvailDrops(s.avail, s.availIdx, s.posted, s.taken, s.flight, h);
    UsedDrops(s.used, s.usedDev, s.usedIdx, s.done, s.seen, s.flight, h);
    t := s.(info := s.info[h := s.info[h].(b := None)],
            desc := s.desc[h := Cleared][c.d1 := Cleared][c.d2 := Cleared],
            free := s.free[h := true][c.d1 := true][c.d2 := true], asleep := 0,
            flight := s.flight - {h}, own := s.own[h := None][c.d1 := None][c.d2 := None]);
  }

  class Driver {
    // Shared with the device.
    var desc: seq<Desc>
    var avail: seq<nat>
    var availIdx: nat
    var used: seq<nat>
    var usedDev: nat
    var info: seq<Info>
    var ops: seq<Op>
    // The device's own position in the avail ring.
    var devIdx: nat
    // The driver's own.
    var free: seq<bool>
    var usedIdx: nat
    var busy: map<nat, bool>
    // The processes asleep on &disk.free[0] until descriptors are free.
    var asleep: nat
    // All heads posted and all heads completed, how many of them the device has
    // taken and the driver has seen, and the chains in flight.
    ghost var posted: seq<nat>
    ghost var taken: nat
    ghost var done: seq<nat>
    ghost var seen: nat
    ghost var flight: map<nat, Chain>
    ghost var own: seq<Option<nat>>

    ghost function Now(): State
      reads this
    {
      State(desc, avail, availIdx, used, usedDev, info, ops, devIdx, free, usedIdx, busy, asleep,
            posted, taken, done, seen, flight, own)
    }

    ghost predicate Valid()
      reads this
    {
      Sound(Now())
    }

    constructor ()
      ensures Valid() && flight == map[] && posted == [] && done == [] && busy == map[]
    {
      desc := seq(NUM, _ => Cleared);
      avail, used := seq(NUM, _ => 0), seq(NUM, _ => 0);
      availIdx, devIdx, usedDev, usedIdx := 0, 0, 0, 0;
      info := seq(NUM, _ => Info(None, 0));
      ops := seq(NUM, _ => Op(false, 0));
      free := seq(NUM, _ => true);
      busy, asleep := map[], 0;
      posted, done, taken, seen, flight := [], [], 0, 0, map[];
      own := seq(NUM, _ => None);
    }

    // Nobody sleeps for descriptors while three are free, and whoever does waits
    // for a request in flight, whose end wakes it (Finish).
    lemma NoLostWakeup()
      requires Valid() && asleep > 0
      ensures Scarce(free) && flight != map[]
      ensures forall a, b, c :: 0 <= a < b < c < 8 ==> !free[a] || !free[b] || !free[c]
    {
      hide Chains, AvailRing, UsedRing;
      var i := if !free[0] then 0 else if !free[1] then 1 else 2;
      assert own[i].Some? && own[i].value in flight;
    }

    // ------------------------------------------------------- descriptors

    // -1 is None.
    method AllocDesc() returns (r: Option<nat>)
      requires |free| == NUM
      modifies this`free
      ensures r.Some? ==> r.value < NUM && old(free)[r.value] && free == old(free)[r.value := false]
      ensures r.None? ==> free == old(free) && forall i :: 0 <= i < NUM ==> !free[i]
    {
      var i: nat := 0;
      while i < NUM
        invariant i <= NUM && free == old(free) && forall j :: 0 <= j < i ==> !free[j]
      {
        if free[i] {
          free := free[i := false];
          return Some(i);
        }
        i := i + 1;
      }
      return None;
    }

    // ok == false is one of the panics "free_desc 1" and "free_desc 2".
    method FreeDesc(i: nat) returns (ok: bool)
      requires |free| == NUM && |desc| == NUM
      modifies this`free, this`desc, this`asleep
      ensures ok <==> i < NUM && !old(free)[i]
      ensures asleep == if ok then 0 else old(asleep)
      ensures ok ==> free == old(free)[i := true] && desc == old(desc)[i := Cleared]
      ensures ok ==> desc[i] == Desc(Null, 0, false, false, 0)
      ensures !ok ==> free == old(free) && desc == old(desc)
    {
      if i >= NUM || free[i] {
        return false;
      }
      desc := desc[i := Cleared];
      free := free[i := true];
      asleep := 0;
      return true;
    }

    // Three distinct free descriptors, or none taken at all, when fewer are free.
    method Alloc3() returns (r: Option<seq<nat>>)
      requires |free| == NUM && |desc| == NUM
      modifies this`free, this`desc, this`asleep
      ensures |free| == NUM && |desc| == NUM && (asleep == 0 || asleep == old(asleep))
      ensures r.Some? ==> |r.value| == 3 && Distinct(r.value) && desc == old(desc)
      ensures r.Some? ==> forall i :: 0 <= i < NUM ==> (free[i] <==> old(free)[i] && i !in r.value)
      ensures r.Some? ==> forall i <- r.value :: i < NUM && old(free)[i]
      ensures r.None? ==> free == old(free) && forall i :: 0 <= i < NUM && !free[i] ==> desc[i] == old(desc)[i]
      ensures r.None? ==> Scarce(free) && forall a, b, c :: 0 <= a < b < c < 8 ==> !free[a] || !free[b] || !free[c]
    {
      var idx: seq<nat> := [];
      while |idx| < 3
        invariant |idx| <= 3 && Distinct(idx) && desc == old(desc) && |free| == NUM && asleep == old(asleep)
        invariant forall i <- idx :: i < NUM && old(free)[i]
        invariant forall i :: 0 <= i < NUM ==> (free[i] <==> old(free)[i] && i !in idx)
      {
        var d := AllocDesc();
        if d.None? {
          var j := 0;
          while j < |idx|
            invariant 0 <= j <= |idx| && |free| == NUM && |desc| == NUM && (asleep == 0 || asleep == old(asleep))
            invariant forall i :: 0 <= i < NUM ==> (free[i] <==> old(free)[i] && i !in idx[j..])
            invariant forall i :: 0 <= i < NUM && !old(free)[i] ==> desc[i] == old(desc)[i]
          {
            var ok := FreeDesc(idx[j]);
            j := j + 1;
          }
          return None;
        }
        idx := idx + [d.value];
      }
      return Some(idx);
    }

    // The chain of three that the device is told: what to do, the 1024 bytes of
    // the buffer, which the device writes exactly when it reads the disk, and
    // the status byte.
    predicate AsTold(d0: nat, d1: nat, d2: nat, b: nat, blockno: nat, write: bool)
      requires d0 < 8 && d1 < 8 && d2 < 8
      reads this`desc, this`ops, this`info
    {
      && |desc| == |ops| == |info| == 8 && ops[d0] == Op(write, blockno * 2) && info[d0] == Info(Some(b), 0xff)
      && desc[d0] == Desc(Header(d0), 16, true, false, d1)
      && desc[d1] == Desc(Data(b), 1024, true, !write, d2)
      && desc[d2] == Desc(Status(d0), 1, false, true, 0)
    }

    // virtio_disk_rw up to its wait for the device; None is the sleep on an
    // exhausted descriptor table.
    method Submit(b: nat, blockno: nat, write: bool) returns (head: Option<nat>)
      requires Valid() && forall h <- flight :: flight[h].b != b
      modifies this
      ensures Valid() && taken == old(taken) && done == old(done) && seen == old(seen)
      ensures head.None? ==> asleep > 0
      ensures head.None? ==> flight == old(flight) && posted == old(posted) && busy == old(busy)
      ensures head.Some? ==> head.value !in old(flight) && posted == old(posted) + [head.value]
      ensures head.Some? ==> head.value in flight && flight == old(flight)[head.value := flight[head.value]]
      ensures head.Some? ==> flight[head.value].b == b && flight[head.value].phase == Posted
      ensures head.Some? ==> flight[head.value].op == Op(write, blockno * 2) && busy == old(busy)[b := true]
      ensures head.None? ==> asleep == old(asleep) + 1 || asleep == 1
      ensures head.None? ==> forall x, y, z :: 0 <= x < y < z < 8 ==> !free[x] || !free[y] || !free[z]
      ensures head.Some? ==> head.value < 8 && flight[head.value].d1 < 8 && flight[head.value].d2 < 8
      ensures head.Some? ==> AsTold(head.value, flight[head.value].d1, flight[head.value].d2, b, blockno, write)
      ensures head.Some? ==> avail[old(availIdx) % 8] == head.value && availIdx == (old(availIdx) + 1) % 65536
    {
      hide Partition, Chains, AvailRing, UsedRing, Scarce;
      ghost var free0 := free;
      var idx := Alloc3();
      if idx.None? {
        ChainsKeep(free, own, flight, old(desc), desc, ops, info, busy);
        asleep := asleep + 1;
        return None;
      }
      var d0, d1, d2 := idx.value[0], idx.value[1], idx.value[2];
      assert d0 in idx.value && d1 in idx.value && d2 in idx.value;
      if asleep > 0 {
        ScarceStays(free0, free);
      }
      Post(d0, d1, d2, b, blockno, write, free0);
      return Some(d0);
    }

    method Format(d0: nat, d1: nat, d2: nat, b: nat, blockno: nat, write: bool)
      requires |desc| == |info| == |ops| == NUM && d0 < NUM && d1 < NUM && d2 < NUM
      modifies this`ops, this`desc, this`busy, this`info
      ensures ops == old(ops)[d0 := Op(write, blockno * 2)] && busy == old(busy)[b := true]
      ensures desc == old(desc)[d0 := Desc(Header(d0), 16, true, false, d1)][d1 := Desc(Data(b), BSIZE, true, !write,
          d2)]
                               [d2 := Desc(Status(d0), 1, false, true, 0)]
      ensures info == old(info)[d0 := Info(Some(b), 0xff)]
    {
      ops := ops[d0 := Op(write, blockno * (BSIZE / 512))];
      desc := desc[d0 := Desc(Header(d0), 16, true, false, d1)];
      desc := desc[d1 := Desc(Data(b), BSIZE, true, !write, d2)];
      desc := desc[d2 := Desc(Status(d0), 1, false, true, 0)];
      busy := busy[b := true];
      info := info[d0 := Info(Some(b), 0xff)];
    }

    // Formats the three descriptors and hands the chain to the device.
    method Post(d0: nat, d1: nat, d2: nat, b: nat, blockno: nat, write: bool, ghost free0: seq<bool>)
      requires |desc| == |avail| == |used| == |info| == |ops| == |free| == |own| == |free0| == NUM
      requires Partition(free0, own, flight) && Chains(desc, ops, info, busy, flight)
      requires AvailRing(avail, availIdx, posted, taken, flight) && UsedRing(used, usedDev, usedIdx, done, seen, flight)
      requires devIdx == taken % WRAP && forall h <- flight :: flight[h].b != b
      requires d0 < NUM && d1 < NUM && d2 < NUM && d0 != d1 && d0 != d2 && d1 != d2
      requires free0[d0] && free0[d1] && free0[d2]
      requires forall i :: 0 <= i < NUM ==> (free[i] <==> free0[i] && i != d0 && i != d1 && i != d2)
      requires asleep > 0 ==> Scarce(free)
      modifies this`ops, this`desc, this`busy, this`info, this`avail, this`availIdx, this`flight, this`posted, this`own
      ensures Valid() && d0 !in old(flight) && posted == old(posted) + [d0] && busy == old(busy)[b := true]
      ensures flight == old(flight)[d0 := Chain(d1, d2, b, Op(write, blockno * 2), |old(posted)|, Posted)]
      ensures AsTold(d0, d1, d2, b, blockno, write)
      ensures avail[old(availIdx) % 8] == d0 && availIdx == (old(availIdx) + 1) % 65536
    {
      hide Partition, Chains, AvailRing, UsedRing, Scarce;
      ghost var c := Chain(d1, d2, b, Op(write, blockno * 2), |posted|, Posted);
      PartitionAdds(free0, free, own, flight, d0, c);
      ChainsAdds(desc, ops, info, busy, flight, free0, own, d0, c);
      Format(d0, d1, d2, b, blockno, write);
      Enqueue(d0, free0, c);
    }

    method Enqueue(d0: nat, ghost free0: seq<bool>, ghost c: Chain)
      requires |desc| == |info| == |ops| == |own| == NUM && d0 < NUM && d0 !in flight && c.d1 < NUM && c.d2 < NUM
      requires c.at == |posted| && c.phase == Posted && Partition(free0, own, flight)
      requires Partition(free, own[d0 := Some(d0)][c.d1 := Some(d0)][c.d2 := Some(d0)], flight[d0 := c])
      requires Chains(desc, ops, info, busy, flight[d0 := c])
      requires AvailRing(avail, availIdx, posted, taken, flight) && UsedRing(used, usedDev, usedIdx, done, seen, flight)
      requires devIdx == taken % WRAP && |avail| == |used| == |free| == NUM && (asleep > 0 ==> Scarce(free))
      modifies this`avail, this`availIdx, this`flight, this`posted, this`own
      ensures Valid() && posted == old(posted) + [d0] && flight == old(flight)[d0 := c]
      ensures avail[old(availIdx) % 8] == d0 && availIdx == (old(availIdx) + 1) % 65536
    {
      hide Partition, Chains, AvailRing, UsedRing, Scarce;
      RingsAdd(free0, own, avail, availIdx, posted, taken, used, usedDev, usedIdx, done, seen, flight, d0, c);
      avail := avail[availIdx % NUM := d0];
      availIdx := (availIdx + 1) % WRAP;
      flight, posted, own := flight[d0 := c], posted + [d0], own[d0 := Some(d0)][c.d1 := Some(d0)][c.d2 := Some(d0)];
    }

    // -------------------------------------------------------- the device

    // The device reads the next entry of the avail ring and follows its chain.
    // None is an empty ring, which the device tells from the 16-bit index.
    method DeviceTakes() returns (r: Option<Request>, h: nat)
      requires Valid()
      modifies this`devIdx, this`taken, this`flight
      ensures Valid()
      ensures r.None? <==> old(taken) == |posted|
      ensures r.None? ==> flight == old(flight) && taken == old(taken)
      ensures r.Some? ==> h == posted[old(taken)] && h in old(flight) && taken == old(taken) + 1
      ensures r.Some? ==> flight == old(flight)[h := old(flight)[h].(phase := Taken)]
      ensures r.Some? ==> r.value == Request(old(flight)[h].op, old(flight)[h].b, h)
    {
      hide Sound, Formatted;
      SoundFacts(Now());
      h := 0;
      if devIdx == availIdx {
        return None, h;
      }
      ghost var g, t := SoundTakes(Now());
      h := avail[devIdx % NUM];
      assert g == h;
      r := ReadChain(h);
      devIdx := (devIdx + 1) % WRAP;
      taken := taken + 1;
      flight := flight[h := flight[h].(phase := Taken)];
      assert Now() == t;
    }

    // Three descriptors linked by their next flags.
    method ReadChain(h: nat) returns (r: Option<Request>)
      requires |desc| == |ops| == |info| == NUM && h in flight && Formatted(desc, ops, info, busy, h, flight[h])
      ensures r == Some(Request(flight[h].op, flight[h].b, h))
    {
      var d1 := desc[h].next;
      var d2 := desc[d1].next;
      if desc[h].nextFlag && desc[d1].nextFlag && !desc[d2].nextFlag
         && desc[h].addr.Header? && desc[d1].addr.Data? && desc[d2].addr.Status? && desc[h].addr.i < NUM {
        return Some(Request(ops[desc[h].addr.i], desc[d1].addr.b, desc[d2].addr.i));
      }
      return None;
    }

    // The device finishes a request it has taken: status 0, and the head in the
    // used ring.
    method DeviceCompletes(h: nat)
      requires Valid() && h in flight && flight[h].phase == Taken
      modifies this`info, this`used, this`usedDev, this`done, this`flight
      ensures Valid() && done == old(done) + [h]
      ensures flight == old(flight)[h := old(flight)[h].(phase := Completed(|old(done)|))]
      ensures used[old(usedDev) % 8] == h && usedDev == (old(usedDev) + 1) % 65536 && info[h].status == 0
    {
      hide Sound;
      ghost var t := SoundCompletes(Now(), h);
      info := info[h := info[h].(status := 0)];
      used := used[usedDev % NUM := h];
      usedDev := (usedDev + 1) % WRAP;
      flight := flight[h := flight[h].(phase := Completed(|done|))];
      done := done + [h];
      assert Now() == t;
    }

    // ------------------------------------------------------- the interrupt

    // One entry of the used ring: exactly its own buffer is released.  ok == false
    // is panic "virtio_disk_intr status".
    method SeeOne() returns (ok: bool)
      requires Valid() && seen < |done|
      modifies this`busy, this`usedIdx, this`seen, this`flight
      ensures ok && Valid() && seen == old(seen) + 1 && done[old(seen)] in old(flight)
      ensures var h := done[old(seen)];
        && old(flight)[h].phase == Completed(old(seen))
        && flight == old(flight)[h := old(flight)[h].(phase := Seen)] && busy == old(busy)[flight[h].b := false]
    {
      hide Sound;
      ghost var h, t := SoundSees(Now());
      var id := used[usedIdx % NUM];
      if info[id].status != 0 {
        return false;
      }
      busy := busy[info[id].b.value := false];
      usedIdx := (usedIdx + 1) % WRAP;
      seen := seen + 1;
      flight := flight[id := flight[id].(phase := Seen)];
      assert Now() == t;
      ok := true;
    }

    // virtio_disk_intr: the requests completed so far are seen, their buffers
    // and no others are released.
    method Interrupt() returns (ok: bool)
      requires Valid()
      modifies this`busy, this`usedIdx, this`seen, this`flight
      ensures ok && Valid() && seen == |done|
      ensures flight.Keys == old(flight).Keys && forall h <- flight :: flight[h] == AfterSeen(old(flight)[h])
      ensures busy.Keys == old(busy).Keys
      ensures forall b <- busy :: (forall h <- flight :: flight[h].b != b) ==> busy[b] == old(busy)[b]
    {
      hide Sound, Formatted, SeenAll, OthersBusy;
      SeenNone(Now());
      while true
        invariant Valid() && SeenAll(old(flight), flight, seen) && OthersBusy(old(flight), old(busy), busy)
        decreases |done| - seen
      {
        SoundFacts(Now());
        if usedIdx == usedDev {
          SeenEnd(Now(), old(flight), old(busy));
          KeysSame(old(flight), flight, seen, old(busy), busy);
          return true;
        }
        ghost var _, _ := SoundSees(Now());
        SeenStep(Now(), old(flight), old(busy));
        ok := SeeOne();
        if !ok {
          return;
        }
      }
    }

    // ------------------------------------------------------------ completion

    // Frees the three descriptors of a chain; ok == false is a panic of free_desc.
    method FreeChain(h: nat, ghost c: Chain) returns (ok: bool)
      requires InUse(desc, free, h, c)
      modifies this`free, this`desc, this`asleep
      ensures ok && asleep == 0 && free == old(free)[h := true][c.d1 := true][c.d2 := true]
      ensures desc == old(desc)[h := Cleared][c.d1 := Cleared][c.d2 := Cleared]
    {
      var i := h;
      ghost var n := 0;
      while true
        invariant n <= 2 && |desc| == |free| == NUM && (n > 0 ==> asleep == 0)
        invariant n == 0 ==> i == h && free == old(free) && desc == old(desc)
        invariant n == 1 ==> i == c.d1 && free == old(free)[h := true] && desc == old(desc)[h := Cleared]
        invariant n == 2 ==> i == c.d2 && free == old(free)[h := true][c.d1 := true]
                             && desc == old(desc)[h := Cleared][c.d1 := Cleared]
        decreases 2 - n
      {
        var flag, nxt := desc[i].nextFlag, desc[i].next;
        ok := FreeDesc(i);
        if !ok {
          return;
        }
        if flag {
          i := nxt;
          n := n + 1;
        } else {
          break;
        }
      }
    }

    // The end of virtio_disk_rw, once its buffer is no longer busy: the device
    // has completed the request, and its descriptors are free again.
    method Finish(h: nat) returns (ok: bool)
      requires Valid() && h in flight && flight[h].b in busy && !busy[flight[h].b]
      modifies this`info, this`free, this`desc, this`flight, this`own, this`asleep
      ensures ok && asleep == 0 && Valid() && old(flight)[h].phase == Seen && flight == old(flight) - {h}
      ensures forall i :: 0 <= i < NUM ==> (free[i] <==>
                                            old(free)[i] || i == h || i == old(flight)[h].d1 || i == old(flight)[h].d2)
    {
      hide Sound;
      ghost var c, t := SoundDrops(Now(), h);
      info := info[h := info[h].(b := None)];
      ok := FreeChain(h, c);
      flight := flight - {h};
      own := own[h := None][c.d1 := None][c.d2 := None];
      assert Now() == t;
    }
  }

  function SeenUpTo(c: Chain, n: nat): Chain {
    if c.phase.Completed? && c.phase.k < n then c.(phase := Seen) else c
  }

  function AfterSeen(c: Chain): Chain {
    if c.phase.Completed? then c.(phase := Seen) else c
  }
}

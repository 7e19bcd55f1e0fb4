/**
 The protocol gets done: the driver's loop, run as it is coded, catches up in a bounded number of steps, and from every
 reachable state all outstanding records can be finalized and handed to the driver.
 */
module CplLiveness {
  import opened Arith
  import opened CplQueueManager
  import F = CplFifo
  import S = CplSimulation
  import opened CplProtocol
  import opened CplTheorems

  // ---- the driver's loop as it is coded ----

  // The next step of the driver: the loop goes on while the phase test succeeds and the budget lasts.
  ghost function DriverStep(d: Side, q: nat, budget: nat): Step {
    match d.pc
    case Idle => Wake(q)
    case Scan(done) => if done < budget && |d.buf| > 0 && Available(d) then Poll(q) else Stop(q)
    case Update(_) => WriteBack(q)
    case Arm => Rearm(q)
  }

  // A driver that is not waiting for an event.
  ghost predicate Active(s: Sys, q: nat) { Open(s, q) && (s.sides[q].pc.Idle? ==> s.sides[q].pending) }

  lemma DriverCan(s: Sys, q: nat, budget: nat)
    requires Valid(s) && Active(s, q)
    ensures CanStep(s, DriverStep(s.sides[q], q, budget), budget)
  {
  }

  // Each state of ss after the first follows from the one before it by the driver's next step.
  ghost predicate LoopRuns(ss: seq<Sys>, q: nat, budget: nat, cplSize: nat)
    requires cplSize > 0
  {
    ss != [] && forall k :: 0 < k < |ss| ==> StepsTo(ss, k, q, budget, cplSize)
  }

  ghost predicate StepsTo(ss: seq<Sys>, k: nat, q: nat, budget: nat, cplSize: nat)
    requires cplSize > 0 && 0 < k < |ss|
  {
    var s := ss[k - 1];
    Active(s, q) && Leads(s, DriverStep(s.sides[q], q, budget), ss[k], budget, cplSize)
  }

  // A run of the driver from s to r.
  ghost predicate LoopRun(s: Sys, ss: seq<Sys>, r: Sys, q: nat, budget: nat, cplSize: nat)
    requires cplSize > 0
  {
    LoopRuns(ss, q, budget, cplSize) && ss[0] == s && ss[|ss| - 1] == r
  }

  // What a driver step leaves alone: the operations, the records written, the finalized count, other queues.
  ghost predicate Beside(s: Sys, r: Sys, q: nat) {
    && q < |s.sides| == |r.sides| == |s.a.queues| == |r.a.queues|
    && r.a.ops == s.a.ops && r.jobs == s.jobs && r.a.entries == s.a.entries
    && r.sides[q].written == s.sides[q].written && r.a.queues[q].fin == s.a.queues[q].fin
    && forall p :: 0 <= p < |s.sides| && p != q ==> r.sides[p] == s.sides[p] && r.a.queues[p] == s.a.queues[p]
  }

  lemma BesideTwice(s: Sys, m: Sys, r: Sys, q: nat)
    requires Beside(s, m, q) && Beside(m, r, q)
    ensures Beside(s, r, q)
  {
  }

  // The loop counter never exceeds the budget.
  ghost predicate Counts(d: Side, budget: nat) {
    (d.pc.Scan? ==> d.pc.done <= budget) && (d.pc.Update? ==> d.pc.done <= budget)
  }

  // Whether the loop will test the phase of the next record before it arms.
  ghost predicate WillLook(d: Side, budget: nat) {
    d.pc.Idle? || d.pc.Scan? || (d.pc.Update? && d.pc.done == budget)
  }

  // How many steps without a record the driver is away from waiting.
  function Away(pc: Pc, budget: nat): nat {
    match pc
    case Idle => 4
    case Scan(done) => if done < budget then 3 else 5
    case Update(done) => if done < budget then 2 else 4
    case Arm => 1
  }

  // The driver after one of its steps, and whether the queue is then armed.
  ghost predicate Moves(s: Sys, r: Sys, q: nat, budget: nat)
    requires q < |s.sides| && q < |r.sides| && q < |s.a.queues| && q < |r.a.queues|
  {
    var d, e, w := s.sides[q], r.sides[q], s.a.queues[q];
    match d.pc
    case Idle => e.pc == Scan(0) && !e.pending && e.consumed == d.consumed
    case Scan(done) =>
      e.pending == d.pending &&
      if done < budget && d.consumed in d.written then e.pc == Scan(done + 1) && e.consumed == d.consumed + 1
      else e.pc == Update(done) && e.consumed == d.consumed
    case Update(done) =>
      e.pending == d.pending && e.consumed == d.consumed && e.pc == if done == budget then Scan(0) else Arm
    case Arm =>
      e.pc == Idle && e.consumed == d.consumed
      && (r.a.queues[q].flags.armed <==> w.fin == d.consumed) && (e.pending <==> d.pending || w.fin != d.consumed)
  }

  lemma DriverMoves(s: Sys, q: nat, budget: nat, cplSize: nat) returns (r: Sys)
    requires Inv(s) && Active(s, q) && 0 < cplSize <= 0x1_0000_0000
    ensures Leads(s, DriverStep(s.sides[q], q, budget), r, budget, cplSize) && Inv(r) && Open(r, q)
    ensures Beside(s, r, q) && Moves(s, r, q, budget)
  {
    DriverCan(s, q, budget);
    StepKeepsInv(s, DriverStep(s.sides[q], q, budget), budget, cplSize);
    r := Next(s, DriverStep(s.sides[q], q, budget), budget, cplSize);
    MovesTo(s, q, r, budget, cplSize);
  }

  lemma MovesTo(s: Sys, q: nat, r: Sys, budget: nat, cplSize: nat)
    requires Inv(s) && Active(s, q) && cplSize > 0 && CanStep(s, DriverStep(s.sides[q], q, budget), budget)
    requires r == Next(s, DriverStep(s.sides[q], q, budget), budget, cplSize)
    ensures Beside(s, r, q) && Open(r, q) && Moves(s, r, q, budget)
  {
    if s.sides[q].pc.Scan? { PhaseAgrees(s, q); }
    if s.sides[q].pc.Arm? { RearmMoves(s, q, cplSize); }
  }

  lemma RearmMoves(s: Sys, q: nat, cplSize: nat)
    requires Inv(s) && Open(s, q) && s.sides[q].pc.Arm? && cplSize > 0
    ensures
      var r, w, d := NextRearm(s, q, cplSize), s.a.queues[q], s.sides[q];
      && r.a == F.Program(s.a, q, F.SetArm(true)) && (r.a.queues[q].flags.armed <==> w.fin == d.consumed)
      && r.sides == s.sides[q := d.(pc := Idle, pending := d.pending || w.fin != d.consumed)]
  {
    S.CommandSimulates(s.m, s.a, q, F.SetArm(true), 2, ALL_LANES, cplSize);
    assert QueueInv(s, q);
  }

  lemma LoopMore(s: Sys, ss: seq<Sys>, m: Sys, r: Sys, q: nat, budget: nat, cplSize: nat)
    requires cplSize > 0 && LoopRun(s, ss, m, q, budget, cplSize)
    requires Active(m, q) && Leads(m, DriverStep(m.sides[q], q, budget), r, budget, cplSize)
    ensures LoopRun(s, ss + [r], r, q, budget, cplSize)
  {
    forall k | 0 < k < |ss + [r]|
      ensures StepsTo(ss + [r], k, q, budget, cplSize)
    {
      if k < |ss| { assert StepsTo(ss, k, q, budget, cplSize); }
    }
  }

  // Records started and not consumed.
  ghost function Left(s: Sys, q: nat): int
    requires Open(s, q)
  {
    s.a.Started(q) - s.sides[q].consumed
  }

  lemma LeftIsNat(s: Sys, q: nat)
    requires Inv(s) && Open(s, q)
    ensures 0 <= Left(s, q) && (s.sides[q].consumed in s.sides[q].written ==> Left(s, q) > 0)
    ensures s.a.queues[q].fin <= s.sides[q].consumed || s.sides[q].consumed in s.sides[q].written
  {
    assert QueueInv(s, q);
  }

  // A step without a record brings waiting nearer.
  lemma Nearer(s: Sys, m: Sys, q: nat, budget: nat)
    requires Active(s, q) && Open(m, q) && Beside(s, m, q) && Moves(s, m, q, budget)
    requires Counts(s.sides[q], budget) && budget > 0
    ensures Counts(m.sides[q], budget) && (Active(m, q) || m.sides[q].pc.Idle?)
    ensures 3 * Left(m, q) + Away(m.sides[q].pc, budget) < 3 * Left(s, q) + Away(s.sides[q].pc, budget) || m.sides[q].pc.Idle?
  {
  }

  // What the driver has when it is about to wait again.
  ghost predicate BackToIdle(s: Sys, r: Sys, q: nat, budget: nat)
    requires q < |s.sides| && q < |r.sides| && q < |s.a.queues| && q < |r.a.queues|
  {
    var d, e, w := s.sides[q], r.sides[q], r.a.queues[q];
    && e.pc.Idle? && d.consumed <= e.consumed
    && (WillLook(d, budget) || d.consumed !in d.written ==> e.consumed !in e.written)
    && (w.flags.armed <==> w.fin == e.consumed)
    && (e.pending <==> (d.pending && !d.pc.Idle?) || w.fin != e.consumed)
  }

  lemma BackAtOnce(s: Sys, r: Sys, q: nat, budget: nat)
    requires Active(s, q) && Open(r, q) && Beside(s, r, q) && Moves(s, r, q, budget) && r.sides[q].pc.Idle?
    ensures BackToIdle(s, r, q, budget)
  {
  }

  lemma BackLater(s: Sys, m: Sys, r: Sys, q: nat, budget: nat)
    requires Active(s, q) && Beside(s, m, q) && Moves(s, m, q, budget) && !m.sides[q].pc.Idle? && Counts(s.sides[q], budget)
    requires Beside(m, r, q) && BackToIdle(m, r, q, budget) && budget > 0
    ensures BackToIdle(s, r, q, budget)
  {
  }

  // At most so many steps away from waiting.
  ghost predicate Within(s: Sys, q: nat, budget: nat, bound: int) {
    Open(s, q) && 3 * Left(s, q) + Away(s.sides[q].pc, budget) <= bound
  }

  // One step of an active driver: it brings waiting nearer.
  lemma StepsNearer(s: Sys, ss: seq<Sys>, m: Sys, q: nat, budget: nat, cplSize: nat, bound: nat) returns (r: Sys)
    requires 0 < cplSize <= 0x1_0000_0000 && LoopRun(s, ss, m, q, budget, cplSize)
    requires Inv(m) && Active(m, q) && Counts(m.sides[q], budget) && budget > 0 && Within(m, q, budget, bound)
    ensures LoopRun(s, ss + [r], r, q, budget, cplSize) && Inv(r) && Open(r, q)
    ensures Beside(m, r, q) && Moves(m, r, q, budget) && Counts(r.sides[q], budget) && bound > 0
    ensures r.sides[q].pc.Idle? || (Active(r, q) && Within(r, q, budget, bound - 1))
  {
    r := DriverMoves(m, q, budget, cplSize);
    LoopMore(s, ss, m, r, q, budget, cplSize);
    LeftIsNat(m, q);
    LeftIsNat(r, q);
    Nearer(m, r, q, budget);
  }

  // The run ss has led to m; so many more steps end the loop.
  lemma {:induction false} EndsWithin(s: Sys, ss: seq<Sys>, m: Sys, q: nat, budget: nat, cplSize: nat, bound: nat)
      returns (tt: seq<Sys>, r: Sys)
    requires 0 < cplSize <= 0x1_0000_0000 && LoopRun(s, ss, m, q, budget, cplSize)
    requires Inv(m) && Active(m, q) && Counts(m.sides[q], budget) && budget > 0
    requires Within(m, q, budget, bound)
    ensures LoopRun(s, tt, r, q, budget, cplSize) && Inv(r) && Open(r, q) && Beside(m, r, q)
    ensures |ss| < |tt| <= |ss| + bound && BackToIdle(m, r, q, budget)
    decreases bound, 0
  {
    var next := StepsNearer(s, ss, m, q, budget, cplSize, bound);
    if next.sides[q].pc.Idle? {
      tt, r := ss + [next], next;
      BackAtOnce(m, next, q, budget);
    } else {
      tt, r := EndsWithin(s, ss + [next], next, q, budget, cplSize, bound - 1);
      BesideTwice(m, next, r, q);
      BackLater(m, next, r, q, budget);
    }
  }

  /** The driver's loop ends: from every state, at most three steps for each record it has not consumed, and five more,
      lead it back to waiting. It has then taken every written record up to the first gap, unless it was past its last
      look already; the queue is armed exactly when it has consumed just what is finalized, and otherwise an event is on
      its way. */
  lemma LoopEnds(s: Sys, q: nat, budget: nat, cplSize: nat) returns (ss: seq<Sys>, r: Sys)
    requires Inv(s) && Active(s, q) && Counts(s.sides[q], budget) && budget > 0 && 0 < cplSize <= 0x1_0000_0000
    ensures LoopRun(s, ss, r, q, budget, cplSize) && Inv(r) && Open(r, q) && Beside(s, r, q)
    ensures 1 < |ss| <= 3 * Left(s, q) + Away(s.sides[q].pc, budget) + 1
    ensures BackToIdle(s, r, q, budget)
  {
    LeftIsNat(s, q);
    ss, r := EndsWithin(s, [s], s, q, budget, cplSize, 3 * Left(s, q) + Away(s.sides[q].pc, budget));
  }

  // ---- the loop counter over whole runs ----

  ghost predicate KeepsCount(s: Sys, r: Sys, q: nat, budget: nat) {
    (Open(s, q) ==> Counts(s.sides[q], budget)) ==> (Open(r, q) ==> Counts(r.sides[q], budget))
  }

  lemma HardwareCounts(s: Sys, x: Step, q: nat, budget: nat, cplSize: nat)
    requires Valid(s) && CanStep(s, x, budget) && cplSize > 0 && (OfHardware(x) || x.HwFinalize?)
    ensures KeepsCount(s, Next(s, x, budget, cplSize), q, budget)
  {
  }

  lemma LoopCounts(s: Sys, x: Step, q: nat, budget: nat, cplSize: nat)
    requires Valid(s) && CanStep(s, x, budget) && cplSize > 0 && (OfLoop(x) || x.Rearm?)
    ensures KeepsCount(s, Next(s, x, budget, cplSize), q, budget)
  {
  }

  lemma RegistersCount(s: Sys, x: Step, q: nat, budget: nat, cplSize: nat)
    requires Valid(s) && CanStep(s, x, budget) && cplSize > 0
    requires !OfHardware(x) && !x.HwFinalize? && !OfLoop(x) && !x.Rearm?
    ensures KeepsCount(s, Next(s, x, budget, cplSize), q, budget)
  {
  }

  lemma StepCounts(s: Sys, x: Step, q: nat, budget: nat, cplSize: nat)
    requires Valid(s) && CanStep(s, x, budget) && cplSize > 0
    ensures KeepsCount(s, Next(s, x, budget, cplSize), q, budget)
  {
    if OfHardware(x) || x.HwFinalize? {
      HardwareCounts(s, x, q, budget, cplSize);
    } else if OfLoop(x) || x.Rearm? {
      LoopCounts(s, x, q, budget, cplSize);
    } else {
      RegistersCount(s, x, q, budget, cplSize);
    }
  }

  lemma {:induction false} RunCounts(s: Sys, xs: seq<Step>, r: Sys, q: nat, budget: nat, cplSize: nat)
    requires cplSize > 0 && Runs(s, xs, r, budget, cplSize) && (Open(s, q) ==> Counts(s.sides[q], budget))
    ensures Open(r, q) ==> Counts(r.sides[q], budget)
    decreases |xs|
  {
    if xs != [] {
      StepCounts(s, xs[0], q, budget, cplSize);
      RunCounts(Next(s, xs[0], budget, cplSize), xs[1..], r, q, budget, cplSize);
    }
  }

  // ---- catching up ----

  // The driver waits, has everything that is finalized, and the queue is armed if it has no more than that.
  ghost predicate CaughtUp(r: Sys, q: nat) {
    Open(r, q) && r.sides[q].pc.Idle? && r.a.queues[q].fin <= r.sides[q].consumed
    && (r.a.queues[q].flags.armed <==> r.a.queues[q].fin == r.sides[q].consumed)
  }

  // A pass that ends with finalized records left has an event on its way, and the next one gets them.
  lemma SecondPass(s: Sys, ss: seq<Sys>, m: Sys, q: nat, budget: nat, cplSize: nat) returns (tt: seq<Sys>, r: Sys)
    requires Inv(m) && Open(m, q) && BackToIdleOf(s, m, q, budget) && m.a.queues[q].fin > m.sides[q].consumed
    requires budget > 0 && 0 < cplSize <= 0x1_0000_0000 && LoopRun(s, ss, m, q, budget, cplSize)
    ensures LoopRun(s, tt, r, q, budget, cplSize) && Inv(r) && Beside(m, r, q) && CaughtUp(r, q)
    ensures |tt| <= |ss| + 3 * Left(m, q) + 4
  {
    LeftIsNat(m, q);
    tt, r := EndsWithin(s, ss, m, q, budget, cplSize, 3 * Left(m, q) + 4);
    LeftIsNat(r, q);
  }

  ghost predicate BackToIdleOf(s: Sys, r: Sys, q: nat, budget: nat) { Beside(s, r, q) && BackToIdle(s, r, q, budget) }

  lemma LeftShrinks(s: Sys, m: Sys, q: nat, budget: nat)
    requires Open(s, q) && Open(m, q) && BackToIdleOf(s, m, q, budget)
    ensures Left(m, q) <= Left(s, q)
  {
  }

  /** An active driver is caught up after at most two passes of its loop. */
  lemma CatchesUp(s: Sys, q: nat, budget: nat, cplSize: nat) returns (ss: seq<Sys>, r: Sys)
    requires Inv(s) && Active(s, q) && Counts(s.sides[q], budget) && budget > 0 && 0 < cplSize <= 0x1_0000_0000
    ensures LoopRun(s, ss, r, q, budget, cplSize) && Inv(r) && Beside(s, r, q) && CaughtUp(r, q)
    ensures |ss| <= 6 * Left(s, q) + 10
  {
    ss, r := LoopEnds(s, q, budget, cplSize);
    LeftIsNat(s, q);
    if r.a.queues[q].fin > r.sides[q].consumed {
      var m := r;
      ss, r := SecondPass(s, ss, m, q, budget, cplSize);
      LeftShrinks(s, m, q, budget);
      BesideTwice(s, m, r, q);
    }
  }

  // ---- the hardware ----

  // A record starts: one more operation, whose job stands for the next position.
  ghost predicate StartsRecord(s: Sys, r: Sys, q: nat) {
    && q < |s.a.queues| == |r.a.queues| && r.a.Started(q) == s.a.Started(q) + 1 && r.sides == s.sides
    && |r.jobs| == |s.jobs| + 1 && r.jobs[..|s.jobs|] == s.jobs && r.jobs[|s.jobs|].queue == q
    && r.jobs[|s.jobs|].index == s.a.Started(q)
  }

  /** A request is accepted exactly while the table is not full, and starts a record exactly while the ring has room. */
  lemma RequestTaken(s: Sys, q: nat, tag: nat, budget: nat, cplSize: nat)
    requires Inv(s) && Open(s, q) && 0 < cplSize <= 0x1_0000_0000
    ensures CanStep(s, HwRequest(q, tag), budget) <==> |s.a.ops| < s.a.entries
    ensures CanStep(s, HwRequest(q, tag), budget) ==>
      var r := Next(s, HwRequest(q, tag), budget, cplSize);
      if s.a.Started(q) < s.a.queues[q].cons + |s.sides[q].buf| then StartsRecord(s, r, q) else r == s
  {
    assert S.HoldsSlot(s.m, s.a, s.m.table.start);
    if CanStep(s, HwRequest(q, tag), budget) { TakenIs(s, q, tag, cplSize); }
  }

  lemma TakenIs(s: Sys, q: nat, tag: nat, cplSize: nat)
    requires Inv(s) && Open(s, q) && Enabled(s.m, Request(q, tag)) && 0 < cplSize <= 0x1_0000_0000
    ensures
      var r := NextRequest(s, q, tag, cplSize);
      if s.a.Started(q) < s.a.queues[q].cons + |s.sides[q].buf| then StartsRecord(s, r, q) else r == s
  {
    assert QueueInv(s, q);
    ResponseIsJob(s, q, tag, cplSize);
    if Starts(s.a, q) {
      F.CountAppend(s.a.ops, F.Op(q, s.a.Started(q) + 1, false), q);
    } else {
      RefusedChangesNothing(s.m, s.a, q, tag, cplSize);
    }
  }

  lemma RefusedChangesNothing(m: Manager, a: F.Fifo, q: nat, tag: nat, cplSize: nat)
    requires S.Simulates(m, a) && q < |m.ram| && Enabled(m, Request(q, tag)) && !Starts(a, q)
    ensures Apply(m, Request(q, tag), cplSize) == m
  {
    S.RequestAnswers(m, a, q, tag, cplSize);
    var w, e := m.ram[q], EffectOf(m, Request(q, tag), cplSize);
    assert Merge(w, e.data, e.be) == w;
  }

  // The hardware's steps on the oldest operation leave the driver's position alone, and what was started.
  ghost predicate SameDriver(s: Sys, r: Sys) {
    && |r.sides| == |s.sides| == |s.a.queues| == |r.a.queues| && |r.m.ram| == |s.m.ram|
    && forall q :: 0 <= q < |s.sides| ==>
      && r.sides[q].pc == s.sides[q].pc && r.sides[q].consumed == s.sides[q].consumed
      && r.a.Started(q) == s.a.Started(q) && r.a.queues[q].flags.enable == s.a.queues[q].flags.enable
  }

  lemma SameDriverTwice(s: Sys, m: Sys, r: Sys)
    requires SameDriver(s, m) && SameDriver(m, r)
    ensures SameDriver(s, r)
  {
  }

  // The commits among the steps, in their order.
  function CommitsOf(xs: seq<Step>): seq<nat> {
    if xs == [] then [] else CommitsOf(xs[..|xs| - 1]) + match xs[|xs| - 1] case HwCommit(i) => [i] case _ => []
  }

  lemma CommitsMore(xs: seq<Step>, x: Step)
    ensures CommitsOf(xs + [x]) == CommitsOf(xs) + match x case HwCommit(i) => [i] case _ => []
  {
    assert (xs + [x])[..|xs|] == xs;
  }

  // Writing the record of an outstanding operation, unless it is written.
  lemma WriteJob(o: Sys, xs: seq<Step>, s: Sys, i: nat, budget: nat, cplSize: nat) returns (ys: seq<Step>, r: Sys)
    requires cplSize > 0 && Runs(o, xs, s, budget, cplSize) && Inv(s) && i < |s.jobs|
    ensures Runs(o, ys, r, budget, cplSize) && |ys| <= |xs| + 1 && Inv(r) && SameDriver(s, r) && r.a == s.a && r.jobs == s.jobs
    ensures r.jobs[i].queue < |r.sides| && r.jobs[i].index in r.sides[r.jobs[i].queue].written
    ensures CommitsOf(ys) == CommitsOf(xs)
  {
    assert JobInv(s, i);
    var j := s.jobs[i];
    if j.index in s.sides[j.queue].written {
      ys, r := xs, s;
    } else {
      WriteKeepsInv(s, i, 0);
      ys, r := xs + [WriteRecord(i, 0)], NextWrite(s, i, 0);
      RunsThen(o, xs, s, WriteRecord(i, 0), r, budget, cplSize);
      CommitsMore(xs, WriteRecord(i, 0));
    }
  }

  lemma CommitCounts(a: F.Fifo, i: nat, q: nat)
    requires i < |a.ops| && q < |a.queues|
    ensures F.Commit(a, i).Started(q) == a.Started(q)
  {
    F.CountIgnoresCommit(a.ops, i, q);
  }

  lemma CommitJob(s: Sys, i: nat, budget: nat, cplSize: nat) returns (r: Sys)
    requires Inv(s) && i < |s.jobs| && cplSize > 0
    requires s.jobs[i].queue < |s.sides| && s.jobs[i].index in s.sides[s.jobs[i].queue].written
    ensures Leads(s, HwCommit(i), r, budget, cplSize) && Inv(r) && SameDriver(s, r) && r.jobs == s.jobs
    ensures i < |s.a.ops| && r.a.ops == s.a.ops[i := s.a.ops[i].(committed := true)]
  {
    r := Next(s, HwCommit(i), budget, cplSize);
    CommitKeepsInv(s, i, r);
    forall q | 0 <= q < |s.sides|
      ensures r.a.Started(q) == s.a.Started(q)
    {
      CommitCounts(s.a, i, q);
    }
  }

  // Writing, if need be, and committing one operation.
  lemma FinishJob(o: Sys, xs: seq<Step>, s: Sys, i: nat, budget: nat, cplSize: nat) returns (ys: seq<Step>, r: Sys)
    requires cplSize > 0 && Runs(o, xs, s, budget, cplSize) && Inv(s) && i < |s.jobs|
    ensures Runs(o, ys, r, budget, cplSize) && |ys| <= |xs| + 2 && Inv(r) && SameDriver(s, r) && r.jobs == s.jobs
    ensures i < |s.a.ops| && r.a.ops == s.a.ops[i := s.a.ops[i].(committed := true)]
    ensures CommitsOf(ys) == CommitsOf(xs) + [i]
  {
    var m;
    ys, m := WriteJob(o, xs, s, i, budget, cplSize);
    r := CommitJob(m, i, budget, cplSize);
    RunsThen(o, ys, m, HwCommit(i), r, budget, cplSize);
    CommitsMore(ys, HwCommit(i));
    SameDriverTwice(s, m, r);
    ys := ys + [HwCommit(i)];
  }

  // Of the operations before, those in order are committed as well.
  ghost predicate Marked(before: seq<F.Op>, after: seq<F.Op>, order: seq<nat>) {
    && |after| == |before|
    && forall i :: 0 <= i < |before| ==> (after[i].committed <==> before[i].committed || i in order)
  }

  lemma MarkedMore(before: seq<F.Op>, after: seq<F.Op>, order: seq<nat>, i: nat)
    requires Marked(before, after, order) && i < |before|
    ensures Marked(before, after[i := after[i].(committed := true)], order + [i])
  {
  }

  // The first n of order are done: xs has led from o to s.
  ghost predicate Ordered(o: Sys, xs: seq<Step>, s: Sys, order: seq<nat>, n: nat, budget: nat, cplSize: nat)
    requires cplSize > 0
  {
    && n <= |order| && (forall k :: 0 <= k < |order| ==> order[k] < |o.a.ops|)
    && Runs(o, xs, s, budget, cplSize) && CommitsOf(xs) == order[..n] && |xs| <= 2 * n && s.jobs == o.jobs
    && Marked(o.a.ops, s.a.ops, order[..n])
  }

  lemma CommitNext(o: Sys, xs: seq<Step>, s: Sys, order: seq<nat>, n: nat, budget: nat, cplSize: nat) returns (ys: seq<Step>, r: Sys)
    requires cplSize > 0 && Inv(s) && n < |order| && Ordered(o, xs, s, order, n, budget, cplSize)
    ensures Inv(r) && Ordered(o, ys, r, order, n + 1, budget, cplSize)
  {
    MarkedMore(o.a.ops, s.a.ops, order[..n], order[n]);
    assert order[..n + 1] == order[..n] + [order[n]];
    ys, r := FinishJob(o, xs, s, order[n], budget, cplSize);
  }

  lemma {:induction false} CommitRest(o: Sys, xs: seq<Step>, s: Sys, order: seq<nat>, n: nat, budget: nat, cplSize: nat)
      returns (ys: seq<Step>, r: Sys)
    requires cplSize > 0 && Inv(s) && Ordered(o, xs, s, order, n, budget, cplSize)
    ensures Inv(r) && Ordered(o, ys, r, order, |order|, budget, cplSize)
    decreases |order| - n, 0
  {
    ys, r := xs, s;
    if n < |order| {
      ys, r := CommitNext(o, xs, s, order, n, budget, cplSize);
      ys, r := CommitRest(o, ys, r, order, n + 1, budget, cplSize);
    }
  }

  /** Outstanding operations can be written and committed in any order, also some of them twice. */
  lemma AnyOrder(s: Sys, order: seq<nat>, budget: nat, cplSize: nat) returns (xs: seq<Step>, r: Sys)
    requires cplSize > 0 && Inv(s) && forall k :: 0 <= k < |order| ==> order[k] < |s.a.ops|
    ensures Runs(s, xs, r, budget, cplSize) && CommitsOf(xs) == order && |xs| <= 2 * |order| && Inv(r) && r.jobs == s.jobs
    ensures Marked(s.a.ops, r.a.ops, order)
  {
    assert order[..0] == [];
    xs, r := CommitRest(s, [], s, order, 0, budget, cplSize);
    assert order[..|order|] == order;
  }

  lemma FinalizeHead(s: Sys, budget: nat, cplSize: nat) returns (r: Sys)
    requires Inv(s) && s.a.ops != [] && s.a.ops[0].committed && cplSize > 0
    ensures Leads(s, HwFinalize, r, budget, cplSize) && Inv(r) && SameDriver(s, r)
    ensures |r.a.ops| == |s.a.ops| - 1
  {
    var op := s.a.ops[0];
    S.FinalizeGuard(s.m, s.a, op.queue, op.ptr % PTR);
    HeadIsOldest(s.m, s.a);
    FinalizeKeepsInv(s, cplSize);
    F.FinalizeKeepsValid(s.a);
    r := NextFinalize(s, cplSize);
  }

  lemma HeadIsOldest(m: Manager, a: F.Fifo)
    requires S.Simulates(m, a) && a.ops != []
    ensures Head(m) == Finalize(a.ops[0].queue, a.ops[0].ptr % PTR)
  {
    assert S.HoldsSlot(m, a, a.first);
  }

  lemma FinishHead(o: Sys, xs: seq<Step>, s: Sys, budget: nat, cplSize: nat) returns (ys: seq<Step>, r: Sys)
    requires cplSize > 0 && Runs(o, xs, s, budget, cplSize) && Inv(s) && s.a.ops != []
    ensures Runs(o, ys, r, budget, cplSize) && |ys| <= |xs| + 3 && Inv(r) && SameDriver(s, r)
    ensures |r.a.ops| == |s.a.ops| - 1
  {
    var c;
    ys, c := FinishJob(o, xs, s, 0, budget, cplSize);
    r := FinalizeHead(c, budget, cplSize);
    RunsThen(o, ys, c, HwFinalize, r, budget, cplSize);
    SameDriverTwice(s, c, r);
    ys := ys + [HwFinalize];
  }

  // Every outstanding operation can be written, committed and finalized, oldest first.
  lemma {:induction false} HardwareFinishes(o: Sys, xs: seq<Step>, s: Sys, n: nat, budget: nat, cplSize: nat)
      returns (ys: seq<Step>, r: Sys)
    requires cplSize > 0 && Runs(o, xs, s, budget, cplSize) && Inv(s) && n == |s.a.ops|
    ensures Runs(o, ys, r, budget, cplSize) && |ys| <= |xs| + 3 * n && Inv(r) && SameDriver(s, r) && r.a.ops == []
    decreases n, 0
  {
    if n == 0 {
      ys, r := xs, s;
    } else {
      var m;
      ys, m := FinishHead(o, xs, s, budget, cplSize);
      ys, r := HardwareFinishes(o, ys, m, n - 1, budget, cplSize);
      SameDriverTwice(s, m, r);
    }
  }

  lemma AllFinalized(r: Sys, q: nat)
    requires Inv(r) && Open(r, q) && r.a.ops == []
    ensures r.a.queues[q].fin == r.a.Started(q) && r.sides[q].consumed <= r.a.queues[q].fin
    ensures !Active(r, q) ==> CaughtUp(r, q)
  {
    assert QueueInv(r, q);
  }

  lemma CanFinish(s: Sys, q: nat, budget: nat, cplSize: nat) returns (xs: seq<Step>, m: Sys, ss: seq<Sys>, r: Sys)
    requires Inv(s) && Open(s, q) && Counts(s.sides[q], budget) && budget > 0 && 0 < cplSize <= 0x1_0000_0000
    ensures Runs(s, xs, m, budget, cplSize) && |xs| <= 3 * |s.a.ops|
    ensures LoopRun(m, ss, r, q, budget, cplSize) && |ss| <= 6 * Left(s, q) + 10
    ensures Inv(r) && Open(r, q) && r.a.ops == [] && r.sides[q].pc.Idle? && r.m.ram[q].flags.armed
    ensures r.sides[q].consumed == |r.sides[q].got| == s.a.Started(q)
  {
    xs, m := HardwareFinishes(s, [], s, |s.a.ops|, budget, cplSize);
    AllFinalized(m, q);
    LeftIsNat(s, q);
    if Active(m, q) {
      ss, r := CatchesUp(m, q, budget, cplSize);
    } else {
      ss, r := [m], m;
    }
    AllFinalized(r, q);
    assert QueueInv(r, q) && S.HoldsWord(r.m.ram[q], r.a.queues[q]);
  }

  /** Nothing is stuck: from every reachable state, at most three hardware steps for each outstanding operation, and then
      the driver's loop as it is coded, lead to a state in which the driver waits with every record that was started, the
      queue is armed and the table is empty. */
  lemma NothingIsStuck(o: Sys, ys: seq<Step>, s: Sys, q: nat, budget: nat, cplSize: nat)
      returns (xs: seq<Step>, m: Sys, ss: seq<Sys>, r: Sys)
    requires Opened(o) && budget > 0 && 0 < cplSize <= 0x1_0000_0000 && Runs(o, ys, s, budget, cplSize) && Open(s, q)
    ensures Runs(s, xs, m, budget, cplSize) && |xs| <= 3 * |s.a.ops|
    ensures LoopRun(m, ss, r, q, budget, cplSize) && |ss| <= 6 * Left(s, q) + 10
    ensures Inv(r) && Open(r, q) && r.a.ops == [] && r.sides[q].pc.Idle? && r.m.ram[q].flags.armed
    ensures r.sides[q].consumed == |r.sides[q].got| == s.a.Started(q)
  {
    OpenedInv(o);
    RunKeepsInv(o, ys, s, budget, cplSize);
    assert Open(o, q) ==> OpenedQueue(o.a.queues[q], o.sides[q]);
    RunCounts(o, ys, s, q, budget, cplSize);
    xs, m, ss, r := CanFinish(s, q, budget, cplSize);
  }
}

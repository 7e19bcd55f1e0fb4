/**
 Arms, events and wakes of a queue, counted over whole runs: each arm yields at most one event, each event at most one
 wake of the driver.
 */
module CplArms {
  import opened Arith
  import opened CplQueueManager
  import F = CplFifo
  import S = CplSimulation
  import opened CplRefinement
  import opened CplProtocol
  import opened CplTheorems
  import C = CplClocked

  // The event that the hardware rings at a step.
  ghost function EventOf(s: Sys, x: Step, budget: nat, cplSize: nat): Option<Event>
    requires Inv(s) && CanStep(s, x, budget)
  {
    C.StepAllowed(s, x, budget);
    var ops := C.OpsOf(s, x, budget);
    if ops != [] && ops[0].Do? then EffectOf(s.m, ops[0].op, cplSize).event else None
  }

  ghost predicate Rings(s: Sys, x: Step, q: nat, budget: nat, cplSize: nat)
    requires Inv(s) && CanStep(s, x, budget)
  {
    var e := EventOf(s, x, budget, cplSize);
    e.Some? && e.value.source == q
  }

  // A command that sets the arm bit, also that of a queue that is not enabled.
  predicate Arms(x: Step, q: nat) {
    x == Rearm(q) || (x.Program? && x.queue == q && (x.command == F.SetArm(true) || x.command.SetConsArm?))
  }

  // Arm commands, events rung, wakes of the driver, and events rung while one was on its way already.
  datatype Tally = Tally(arms: nat, rung: nat, wakes: nat, merged: nat)

  ghost function TallyOf(s: Sys, xs: seq<Step>, q: nat, budget: nat, cplSize: nat): Tally
    requires cplSize > 0
    decreases |xs|
  {
    if xs == [] || !Inv(s) || !CanStep(s, xs[0], budget) || q >= |s.sides| then Tally(0, 0, 0, 0)
    else
      var t := TallyOf(Next(s, xs[0], budget, cplSize), xs[1..], q, budget, cplSize);
      var ring := Rings(s, xs[0], q, budget, cplSize);
      Tally(Bit(Arms(xs[0], q), 1) + t.arms, Bit(ring, 1) + t.rung, Bit(xs[0] == Wake(q), 1) + t.wakes,
            Bit(ring && s.sides[q].pending, 1) + t.merged)
  }

  // ---- one step ----

  // What a step that rings for q or not does to its arm bit and to the event on its way.
  ghost predicate Accounts(s: Sys, x: Step, r: Sys, q: nat, ring: bool)
    requires q < |s.sides| && q < |s.a.queues|
  {
    && q < |r.sides| && q < |r.a.queues|
    && (ring ==> s.a.queues[q].flags.armed || Arms(x, q))
    && (r.a.queues[q].flags.armed ==> !ring && (s.a.queues[q].flags.armed || Arms(x, q)))
    && (x == Wake(q) ==> s.sides[q].pending && !ring)
    && (r.sides[q].pending <==> ring || (s.sides[q].pending && x != Wake(q)))
  }

  lemma FinalizeAccounts(s: Sys, q: nat, cplSize: nat)
    requires Inv(s) && Enabled(s.m, Head(s.m)) && cplSize > 0 && q < |s.sides|
    ensures Head(s.m).Valid(|s.m.ram|)
    ensures
      var e := EffectOf(s.m, Head(s.m), cplSize).event;
      Accounts(s, HwFinalize, NextFinalize(s, cplSize), q, e.Some? && e.value.source == q)
  {
    S.FinalizeSimulates(s.m, s.a, Head(s.m).queue, Head(s.m).ptr, cplSize);
  }

  lemma RearmAccounts(s: Sys, p: nat, q: nat, cplSize: nat)
    requires Inv(s) && Open(s, p) && s.sides[p].pc.Arm? && q < |s.sides| && cplSize > 0
    ensures
      var e := EffectOf(s.m, RegisterWrite(p, F.SetArm(true)), cplSize).event;
      Accounts(s, Rearm(p), NextRearm(s, p, cplSize), q, e.Some? && e.value.source == q)
  {
    S.CommandSimulates(s.m, s.a, p, F.SetArm(true), 2, ALL_LANES, cplSize);
  }

  // No other command rings.
  lemma CommandIsQuiet(s: Sys, q: nat, c: F.Command, cplSize: nat)
    requires Inv(s) && q < |s.m.ram| && F.Legal(s.a, q, c) && cplSize > 0
    requires c.SetCons? || c.SetEnable? || !s.a.queues[q].flags.enable
    ensures EffectOf(s.m, RegisterWrite(q, c), cplSize).event == None
  {
    S.CommandSimulates(s.m, s.a, q, c, 2, ALL_LANES, cplSize);
  }

  lemma WriteBackIsQuiet(s: Sys, q: nat, cplSize: nat)
    requires Inv(s) && Open(s, q) && s.sides[q].pc.Update? && cplSize > 0
    ensures EffectOf(s.m, RegisterWrite(q, F.SetCons(s.sides[q].cons32)), cplSize).event == None
  {
    assert QueueInv(s, q);
    MaskedPointer(s.sides[q].consumed);
    CommandIsQuiet(s, q, F.SetCons(s.sides[q].consumed), cplSize);
  }

  lemma OthersAreQuiet(s: Sys, x: Step, budget: nat, cplSize: nat)
    requires Inv(s) && CanStep(s, x, budget) && cplSize > 0 && !x.HwFinalize? && !x.Rearm?
    ensures EventOf(s, x, budget, cplSize) == None
  {
    match x
    case HwRequest(q, tag) => S.RequestAnswers(s.m, s.a, q, tag, cplSize);
    case WriteBack(q) => WriteBackIsQuiet(s, q, cplSize);
    case Program(q, c) => CommandIsQuiet(s, q, c, cplSize);
    case SetBase(q, reg, d) => S.BaseSimulates(s.m, s.a, q, reg, d, ALL_LANES, cplSize);
    case EnableQueue(q) => CommandIsQuiet(s, q, F.SetEnable(true), cplSize);
    case CloseQueue(q) => CommandIsQuiet(s, q, F.SetEnable(false), cplSize);
    case ReadRegister(_, _) =>
    case _ =>
  }

  lemma HardwareAccounts(s: Sys, x: Step, q: nat, budget: nat, cplSize: nat)
    requires Valid(s) && CanStep(s, x, budget) && cplSize > 0 && q < |s.sides| && OfHardware(x)
    ensures Accounts(s, x, Next(s, x, budget, cplSize), q, false)
  {
  }

  lemma LoopAccounts(s: Sys, x: Step, q: nat, budget: nat, cplSize: nat)
    requires Valid(s) && CanStep(s, x, budget) && cplSize > 0 && q < |s.sides| && OfLoop(x)
    ensures Accounts(s, x, Next(s, x, budget, cplSize), q, false)
  {
  }

  lemma RegistersAccount(s: Sys, x: Step, q: nat, budget: nat, cplSize: nat)
    requires Valid(s) && CanStep(s, x, budget) && cplSize > 0 && q < |s.sides|
    requires !x.HwFinalize? && !x.Rearm? && !OfHardware(x) && !OfLoop(x)
    ensures Accounts(s, x, Next(s, x, budget, cplSize), q, false)
  {
  }

  lemma StepAccounts(s: Sys, x: Step, q: nat, budget: nat, cplSize: nat)
    requires Inv(s) && CanStep(s, x, budget) && cplSize > 0 && q < |s.sides|
    ensures Accounts(s, x, Next(s, x, budget, cplSize), q, Rings(s, x, q, budget, cplSize))
  {
    if x.HwFinalize? {
      FinalizeAccounts(s, q, cplSize);
    } else if x.Rearm? {
      RearmAccounts(s, x.queue, q, cplSize);
    } else {
      OthersAreQuiet(s, x, budget, cplSize);
      if OfHardware(x) { HardwareAccounts(s, x, q, budget, cplSize); }
      else if OfLoop(x) { LoopAccounts(s, x, q, budget, cplSize); }
      else { RegistersAccount(s, x, q, budget, cplSize); }
    }
  }

  // ---- whole runs ----

  /** Over every run, however the queue is opened and closed: no more events are rung than arm commands were written,
      the arm bit at the start counting as one and the bit at the end as not used; and every event rung has woken the
      driver, is still on its way, or was rung while another was. */
  lemma {:induction false} ArmsEventsWakes(s: Sys, xs: seq<Step>, r: Sys, q: nat, budget: nat, cplSize: nat)
    requires Inv(s) && q < |s.sides| && 0 < cplSize <= 0x1_0000_0000 && Runs(s, xs, r, budget, cplSize)
    ensures q < |r.sides| == |r.a.queues| && q < |s.a.queues|
    ensures
      var t := TallyOf(s, xs, q, budget, cplSize);
      && t.rung + Bit(r.a.queues[q].flags.armed, 1) <= t.arms + Bit(s.a.queues[q].flags.armed, 1)
      && t.wakes + Bit(r.sides[q].pending, 1) + t.merged == t.rung + Bit(s.sides[q].pending, 1)
    decreases |xs|
  {
    if xs != [] {
      StepAccounts(s, xs[0], q, budget, cplSize);
      StepKeepsInv(s, xs[0], budget, cplSize);
      ArmsEventsWakes(Next(s, xs[0], budget, cplSize), xs[1..], r, q, budget, cplSize);
    }
  }

  lemma RingsAlone(s: Sys, x: Step, q: nat, budget: nat, cplSize: nat)
    requires Inv(s) && CanStep(s, x, budget) && cplSize > 0 && q < |s.sides| && Exactly(s, q, true)
    requires Rings(s, x, q, budget, cplSize)
    ensures !s.sides[q].pending
  {
    if x.HwFinalize? {
      S.FinalizeSimulates(s.m, s.a, Head(s.m).queue, Head(s.m).ptr, cplSize);
      assert JobInv(s, 0);
    } else if x.Rearm? {
      S.CommandSimulates(s.m, s.a, x.queue, F.SetArm(true), 2, ALL_LANES, cplSize);
    } else {
      OthersAreQuiet(s, x, budget, cplSize);
    }
  }

  /** While the queue is opened with neither arm bit nor event left over, no event is rung while another is on its way:
      every event rung wakes the driver once. */
  lemma {:induction false} EveryEventWakes(s: Sys, xs: seq<Step>, r: Sys, q: nat, budget: nat, cplSize: nat)
    requires Inv(s) && q < |s.sides| && 0 < cplSize <= 0x1_0000_0000 && Runs(s, xs, r, budget, cplSize)
    requires Exactly(s, q, true) && CleanRun(s, xs, q, true, budget, cplSize)
    ensures TallyOf(s, xs, q, budget, cplSize).merged == 0
    decreases |xs|
  {
    if xs != [] {
      if Rings(s, xs[0], q, budget, cplSize) { RingsAlone(s, xs[0], q, budget, cplSize); }
      StepKeepsInv(s, xs[0], budget, cplSize);
      StepKeepsExactly(s, xs[0], q, true, budget, cplSize);
      EveryEventWakes(Next(s, xs[0], budget, cplSize), xs[1..], r, q, budget, cplSize);
    }
  }
}

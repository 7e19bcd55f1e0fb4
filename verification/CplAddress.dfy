/**
 Where the records go: the address that the driver writes when it opens a queue is the one that every later response
 carries, a slot further for each record of a lap.
 */
module CplAddress {
  import opened Arith
  import opened CplQueueManager
  import F = CplFifo
  import S = CplSimulation
  import opened CplProtocol
  import opened CplTheorems

  // The queue stays open with its address and size.
  ghost predicate SamePlace(s: Sys, r: Sys, q: nat) {
    && Open(s, q) && Open(r, q) && r.a.queues[q].base == s.a.queues[q].base
    && r.a.queues[q].flags.logSize == s.a.queues[q].flags.logSize
  }

  lemma HardwareKeepsPlace(s: Sys, x: Step, q: nat, budget: nat, cplSize: nat)
    requires Valid(s) && CanStep(s, x, budget) && cplSize > 0 && Open(s, q) && (OfHardware(x) || x.HwFinalize?)
    ensures SamePlace(s, Next(s, x, budget, cplSize), q)
  {
    if x.HwFinalize? { S.FinalizeSimulates(s.m, s.a, Head(s.m).queue, Head(s.m).ptr, cplSize); }
  }

  lemma LoopKeepsPlace(s: Sys, x: Step, q: nat, budget: nat, cplSize: nat)
    requires Valid(s) && CanStep(s, x, budget) && cplSize > 0 && Open(s, q) && (OfLoop(x) || x.Rearm?)
    ensures SamePlace(s, Next(s, x, budget, cplSize), q)
  {
  }

  lemma RegistersKeepPlace(s: Sys, x: Step, q: nat, budget: nat, cplSize: nat)
    requires Valid(s) && CanStep(s, x, budget) && cplSize > 0 && Open(s, q) && x != CloseQueue(q)
    requires !OfHardware(x) && !x.HwFinalize? && !OfLoop(x) && !x.Rearm?
    ensures SamePlace(s, Next(s, x, budget, cplSize), q)
  {
    if x.SetBase? {
      S.BaseSimulates(s.m, s.a, x.queue, x.reg, x.data, ALL_LANES, cplSize);
      assert S.HoldsWord(s.m.ram[x.queue], s.a.queues[x.queue]);
    }
  }

  lemma {:induction false} RunKeepsPlace(s: Sys, xs: seq<Step>, r: Sys, q: nat, budget: nat, cplSize: nat)
    requires Inv(s) && 0 < cplSize <= 0x1_0000_0000 && Runs(s, xs, r, budget, cplSize) && Open(s, q)
    requires forall k :: 0 <= k < |xs| ==> xs[k] != CloseQueue(q)
    ensures Inv(r) && SamePlace(s, r, q)
    decreases |xs|
  {
    if xs != [] {
      var x := xs[0];
      StepKeepsInv(s, x, budget, cplSize);
      if OfHardware(x) || x.HwFinalize? { HardwareKeepsPlace(s, x, q, budget, cplSize); }
      else if OfLoop(x) || x.Rearm? { LoopKeepsPlace(s, x, q, budget, cplSize); }
      else { RegistersKeepPlace(s, x, q, budget, cplSize); }
      RunKeepsPlace(Next(s, x, budget, cplSize), xs[1..], r, q, budget, cplSize);
    }
  }

  // The response to a request for queue q tells the writer to put record n at this address.
  ghost predicate Answers(s: Sys, q: nat, tag: nat, place: nat, cplSize: nat)
    requires s.m.Valid() && q < |s.m.ram|
  {
    var e := EffectOf(s.m, Request(q, tag), cplSize);
    e.response.Some? && e.response.value.addr == place % 0x1_0000_0000_0000_0000
  }

  // In a ring of this many slots at this address.
  ghost predicate AnswersIn(s: Sys, q: nat, tag: nat, base: nat, size: nat, cplSize: nat)
    requires size > 0
  {
    && s.m.Valid() && q < |s.m.ram| && q < |s.a.queues|
    && Answers(s, q, tag, base + s.a.Started(q) % size * cplSize, cplSize)
  }

  lemma AnswerAt(s: Sys, q: nat, tag: nat, cplSize: nat)
    requires Inv(s) && Open(s, q) && Enabled(s.m, Request(q, tag))
    ensures |s.m.ram[q].base| == 7
    ensures Answers(s, q, tag, s.m.ram[q].BaseAddr() + s.a.Started(q) % s.a.queues[q].Size() * cplSize, cplSize)
  {
    assert s.m.ram[q].Valid();
    S.RequestAnswers(s.m, s.a, q, tag, cplSize);
  }

  // A request that can be made after a run in which the queue is not closed.
  ghost predicate Later(o: Sys, xs: seq<Step>, s: Sys, q: nat, tag: nat, budget: nat, cplSize: nat)
    requires cplSize > 0
  {
    && Runs(o, xs, s, budget, cplSize) && (forall k :: 0 <= k < |xs| ==> xs[k] != CloseQueue(q))
    && s.m.Valid() && Enabled(s.m, Request(q, tag))
  }

  lemma {:induction false} RunsUnique(s: Sys, xs: seq<Step>, a: Sys, b: Sys, budget: nat, cplSize: nat)
    requires cplSize > 0 && Runs(s, xs, a, budget, cplSize) && Runs(s, xs, b, budget, cplSize)
    ensures a == b
    decreases |xs|
  {
    if xs != [] { RunsUnique(Next(s, xs[0], budget, cplSize), xs[1..], a, b, budget, cplSize); }
  }

  lemma LaterAnswers(o: Sys, xs: seq<Step>, s: Sys, q: nat, tag: nat, lo: nat, hi: nat, logSize: nat, budget: nat, cplSize: nat)
    requires 0 < cplSize <= 0x1_0000_0000 && Inv(o) && Open(o, q) && Later(o, xs, s, q, tag, budget, cplSize)
    requires o.a.queues[q].flags.logSize == logSize && |o.m.ram[q].base| == 7
    requires o.m.ram[q].BaseAddr() == lo / 0x1000 * 0x1000 + hi * 0x1_0000_0000
    ensures AnswersIn(s, q, tag, lo / 0x1000 * 0x1000 + hi * 0x1_0000_0000, Pow2(logSize), cplSize)
  {
    RunKeepsPlace(o, xs, s, q, budget, cplSize);
    SameAddress(o, s, q);
    AnswerAt(s, q, tag, cplSize);
  }

  lemma SameAddress(o: Sys, s: Sys, q: nat)
    requires Inv(o) && Inv(s) && SamePlace(o, s, q)
    ensures |s.m.ram[q].base| == |o.m.ram[q].base| == 7 && s.m.ram[q].BaseAddr() == o.m.ram[q].BaseAddr()
  {
    assert S.HoldsWord(o.m.ram[q], o.a.queues[q]) && S.HoldsWord(s.m.ram[q], s.a.queues[q]);
    assert o.m.ram[q].Valid();
  }

  lemma OpenedAt(c: Sys, o: Sys, q: nat, lo: nat, hi: nat, logSize: nat, eqn: nat, budget: nat, cplSize: nat)
    requires Inv(c) && Closed(c, q) && logSize < 16 && eqn < PTR && cplSize > 0 && lo < 0x1_0000_0000 && hi < 0x1_0000_0000
    requires Runs(c, OpenSteps(q, lo, hi, logSize, eqn), o, budget, cplSize)
    ensures Inv(o) && Open(o, q) && o.a.queues[q].flags.logSize == logSize && |o.m.ram[q].base| == 7
    ensures o.m.ram[q].BaseAddr() == lo / 0x1000 * 0x1000 + hi * 0x1_0000_0000
  {
    var r := OpeningAQueue(c, q, lo, hi, logSize, eqn, budget, cplSize);
    RunsUnique(c, OpenSteps(q, lo, hi, logSize, eqn), r, o, budget, cplSize);
  }

  /** A queue opened with the address lo, hi and 2^logSize slots: as long as it is not closed, whatever runs meanwhile,
      the response to its request for record n carries that address, without its 12 lowest bits, plus n % 2^logSize
      records, modulo 2^64. */
  lemma RecordsGoToTheirSlots(c: Sys, o: Sys, xs: seq<Step>, s: Sys, q: nat, tag: nat, lo: nat, hi: nat, logSize: nat, eqn: nat,
                              budget: nat, cplSize: nat)
    requires Inv(c) && Closed(c, q) && logSize < 16 && eqn < PTR && 0 < cplSize <= 0x1_0000_0000
    requires lo < 0x1_0000_0000 && hi < 0x1_0000_0000
    requires Runs(c, OpenSteps(q, lo, hi, logSize, eqn), o, budget, cplSize) && Later(o, xs, s, q, tag, budget, cplSize)
    ensures AnswersIn(s, q, tag, lo / 0x1000 * 0x1000 + hi * 0x1_0000_0000, Pow2(logSize), cplSize)
  {
    OpenedAt(c, o, q, lo, hi, logSize, eqn, budget, cplSize);
    LaterAnswers(o, xs, s, q, tag, lo, hi, logSize, budget, cplSize);
  }
}

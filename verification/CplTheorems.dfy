/**
 What the completion protocol guarantees over whole runs, and what it does not.
 */
module CplTheorems {
  import opened Arith
  import opened CplQueueManager
  import F = CplFifo
  import S = CplSimulation
  import opened CplProtocol

  // ---- runs ----

  // r is where the steps xs lead from s, each possible when its turn comes.
  ghost predicate Runs(s: Sys, xs: seq<Step>, r: Sys, budget: nat, cplSize: nat)
    requires cplSize > 0
    decreases |xs|
  {
    if xs == [] then r == s
    else Valid(s) && CanStep(s, xs[0], budget) && Runs(Next(s, xs[0], budget, cplSize), xs[1..], r, budget, cplSize)
  }

  // Every enabled queue is freshly opened: pointers at zero, memory without a phase bit, first arm still to come. An
  // arm bit may be left over and an event from before on its way. After reset no queue is enabled.
  ghost predicate Opened(s: Sys) {
    && Valid(s) && s.a.ops == [] && s.jobs == []
    && (forall q :: 0 <= q < |s.a.queues| ==> !s.a.queues[q].flags.continuous)
    && forall q :: 0 <= q < |s.sides| && s.a.queues[q].flags.enable ==> OpenedQueue(s.a.queues[q], s.sides[q])
  }

  ghost predicate OpenedQueue(w: F.Queue, d: Side) {
    w.fin == w.cons == 0 && d == FreshSide(w.Size(), d.pending)
  }

  lemma OpenedInv(s: Sys)
    requires Opened(s)
    ensures Inv(s)
  {
    forall q | 0 <= q < |s.sides| ensures QueueInv(s, q) {
      var w, d := s.a.queues[q], s.sides[q];
      if w.flags.enable {
        assert OpenedQueue(w, d);
        FreshRing(w.Size(), d.pending);
      }
    }
  }

  lemma {:induction false} RunKeepsInv(s: Sys, xs: seq<Step>, r: Sys, budget: nat, cplSize: nat)
    requires Inv(s) && 0 < cplSize <= 0x1_0000_0000 && Runs(s, xs, r, budget, cplSize)
    ensures Inv(r)
    decreases |xs|
  {
    if xs != [] {
      StepKeepsInv(s, xs[0], budget, cplSize);
      RunKeepsInv(Next(s, xs[0], budget, cplSize), xs[1..], r, budget, cplSize);
    }
  }

  // The register writes of mqnic_open_cq and mqnic_open_eq, in their order.
  function OpenSteps(q: nat, lo: nat, hi: nat, logSize: nat, eqn: nat): seq<Step> {
    [Program(q, F.SetEnable(false))] + [SetBase(q, 0, lo)] + [SetBase(q, 1, hi)] + [Program(q, F.SetSize(logSize))]
    + [Program(q, F.SetEqn(eqn))] + [Program(q, F.SetProd(0))] + [Program(q, F.SetCons(0))] + [EnableQueue(q)]
  }

  // One step of queue q on the way: what the register holds afterwards, everything else as before.
  ghost predicate Configured(s: Sys, r: Sys, q: nat, logSize: nat, eqn: nat, fin: nat, cons: nat)
  {
    && Closed(s, q) && Closed(r, q) && r.sides == s.sides && r.jobs == s.jobs && |r.m.ram| == |s.m.ram|
    && r.a == s.a.(queues := s.a.queues[q := r.a.queues[q]])
    && var w, v := s.a.queues[q], r.a.queues[q];
       v == F.Queue(fin, cons, eqn, w.flags.(logSize := logSize), v.base)
  }

  // One possible step.
  ghost predicate Leads(m: Sys, x: Step, r: Sys, budget: nat, cplSize: nat)
    requires cplSize > 0
  {
    Valid(m) && CanStep(m, x, budget) && r == Next(m, x, budget, cplSize)
  }

  lemma RunsOne(s: Sys, x: Step, r: Sys, budget: nat, cplSize: nat)
    requires cplSize > 0 && Leads(s, x, r, budget, cplSize)
    ensures Runs(s, [x], r, budget, cplSize)
  {
  }

  lemma RunsCons(s: Sys, xs: seq<Step>, ys: seq<Step>, r: Sys, budget: nat, cplSize: nat)
    requires cplSize > 0 && xs != [] && ys != [] && ys[0] == xs[0] && Valid(s) && CanStep(s, xs[0], budget)
    requires Runs(Next(s, xs[0], budget, cplSize), ys[1..], r, budget, cplSize)
    ensures Runs(s, ys, r, budget, cplSize)
  {
  }

  lemma {:induction false} RunsThen(s: Sys, xs: seq<Step>, m: Sys, x: Step, r: Sys, budget: nat, cplSize: nat)
    requires cplSize > 0 && Runs(s, xs, m, budget, cplSize) && Leads(m, x, r, budget, cplSize)
    ensures Runs(s, xs + [x], r, budget, cplSize)
    decreases |xs|
  {
    if xs == [] {
      RunsOne(s, x, r, budget, cplSize);
      assert xs + [x] == [x];
    } else {
      assert (xs + [x])[1..] == xs[1..] + [x];
      RunsThen(Next(s, xs[0], budget, cplSize), xs[1..], m, x, r, budget, cplSize);
      RunsCons(s, xs, xs + [x], r, budget, cplSize);
    }
  }

  // The registers after a command to a queue being configured.
  lemma CommandConfigures(s: Sys, m: Sys, r: Sys, q: nat, c: F.Command, logSize: nat, eqn: nat, fin: nat, cons: nat)
    requires Configured(s, m, q, logSize, eqn, fin, cons) && Configures(c)
    requires r.sides == m.sides && r.jobs == m.jobs && |r.m.ram| == |m.m.ram| && r.a == F.Program(m.a, q, c)
    ensures Configured(s, r, q, if c.SetSize? then c.logSize else logSize, if c.SetEqn? then c.eqn else eqn,
                       if c.SetProd? then c.ptr else fin, if c.SetCons? then c.ptr else cons)
  {
  }

  predicate Configures(c: F.Command) {
    c == F.SetEnable(false) || (c.SetSize? && c.logSize < 16) || (c.SetEqn? && c.eqn < PTR) || c.SetProd? || c.SetCons?
  }

  lemma ConfigureStep(s: Sys, xs: seq<Step>, m: Sys, q: nat, c: F.Command, logSize: nat, eqn: nat, fin: nat, cons: nat,
                      budget: nat, cplSize: nat)
      returns (r: Sys)
    requires cplSize > 0 && Runs(s, xs, m, budget, cplSize) && Inv(m) && Configures(c)
    requires Configured(s, m, q, logSize, eqn, fin, cons)
    ensures Runs(s, xs + [Program(q, c)], r, budget, cplSize) && Inv(r)
    ensures |r.a.queues| == |m.a.queues| && r.a.queues[q].base == m.a.queues[q].base
    ensures Configured(s, r, q, if c.SetSize? then c.logSize else logSize, if c.SetEqn? then c.eqn else eqn,
                       if c.SetProd? then c.ptr else fin, if c.SetCons? then c.ptr else cons)
  {
    r := ProgramNext(m, q, c, budget, cplSize);
    CommandConfigures(s, m, r, q, c, logSize, eqn, fin, cons);
    RunsThen(s, xs, m, Program(q, c), r, budget, cplSize);
  }

  lemma ProgramNext(m: Sys, q: nat, c: F.Command, budget: nat, cplSize: nat) returns (r: Sys)
    requires cplSize > 0 && Inv(m) && Closed(m, q) && Configures(c)
    ensures Leads(m, Program(q, c), r, budget, cplSize) && Inv(r)
    ensures r.sides == m.sides && r.jobs == m.jobs && |r.m.ram| == |m.m.ram| && r.a == F.Program(m.a, q, c)
  {
    CanProgram(m, q, c, budget);
    ProgramKeepsInv(m, q, c, cplSize);
    r := NextCommand(m, q, c, cplSize);
  }

  lemma CanProgram(m: Sys, q: nat, c: F.Command, budget: nat)
    requires Inv(m) && Closed(m, q) && Configures(c)
    ensures CanStep(m, Program(q, c), budget)
  {
    ClosedHasNothing(m, q);
  }

  lemma BaseConfigures(s: Sys, m: Sys, r: Sys, q: nat, logSize: nat, eqn: nat, fin: nat, cons: nat)
    requires Configured(s, m, q, logSize, eqn, fin, cons)
    requires r.sides == m.sides && r.jobs == m.jobs && |r.m.ram| == |m.m.ram|
    requires q < |r.a.queues| == |m.a.queues|
    requires r.a == m.a.(queues := m.a.queues[q := m.a.queues[q].(base := r.a.queues[q].base)])
    ensures Configured(s, r, q, logSize, eqn, fin, cons)
  {
  }

  lemma ConfigureBase(s: Sys, xs: seq<Step>, m: Sys, q: nat, reg: nat, d: nat, logSize: nat, eqn: nat, fin: nat, cons: nat,
                      budget: nat, cplSize: nat)
      returns (r: Sys)
    requires cplSize > 0 && Runs(s, xs, m, budget, cplSize) && Inv(m) && reg < 2
    requires Configured(s, m, q, logSize, eqn, fin, cons)
    ensures Runs(s, xs + [SetBase(q, reg, d)], r, budget, cplSize) && Inv(r)
    ensures |r.a.queues| == |m.a.queues| && (d < 0x1_0000_0000 ==> BaseWritten(m.a.queues[q].base, reg, d, r.a.queues[q].base))
    ensures Configured(s, r, q, logSize, eqn, fin, cons)
  {
    r := BaseNext(m, q, reg, d, budget, cplSize);
    BaseConfigures(s, m, r, q, logSize, eqn, fin, cons);
    RunsThen(s, xs, m, SetBase(q, reg, d), r, budget, cplSize);
  }

  lemma BaseNext(m: Sys, q: nat, reg: nat, d: nat, budget: nat, cplSize: nat) returns (r: Sys)
    requires cplSize > 0 && Inv(m) && q < |m.m.ram| && reg < 2
    ensures Leads(m, SetBase(q, reg, d), r, budget, cplSize) && Inv(r)
    ensures r.sides == m.sides && r.jobs == m.jobs && |r.m.ram| == |m.m.ram| && q < |r.a.queues| == |m.a.queues|
    ensures r.a == m.a.(queues := m.a.queues[q := m.a.queues[q].(base := r.a.queues[q].base)])
    ensures d < 0x1_0000_0000 && !m.a.queues[q].flags.enable ==> BaseWritten(m.a.queues[q].base, reg, d, r.a.queues[q].base)
  {
    BaseKeepsInv(m, q, reg, d, cplSize);
    r := NextBase(m, q, reg, d, cplSize);
    assert S.HoldsWord(m.m.ram[q], m.a.queues[q]);
    if d < 0x1_0000_0000 && !m.a.queues[q].flags.enable { BaseLanes(m.m, q, reg, d, cplSize); }
  }

  // The lower 32 bits of the address that base lanes stand for, and the upper ones.
  function LowPart(base: seq<nat>): nat
    requires |base| == 7
  {
    base[0] * 0x1000 + base[1] * 0x1_0000 + base[2] * 0x100_0000
  }

  function HighPart(base: seq<nat>): nat
    requires |base| == 7
  {
    base[3] + base[4] * 0x100 + base[5] * 0x1_0000 + base[6] * 0x100_0000
  }

  // A write of d to one half: that half is d, without its 12 lowest bits in the lower one; the other stays.
  ghost predicate BaseWritten(base: seq<nat>, reg: nat, d: nat, after: seq<nat>) {
    && |base| == |after| == 7
    && (if reg == 0 then LowPart(after) == d / 0x1000 * 0x1000 else LowPart(after) == LowPart(base))
    && (if reg == 0 then HighPart(after) == HighPart(base) else HighPart(after) == d)
  }

  lemma BaseLanes(m: Manager, q: nat, reg: nat, d: nat, cplSize: nat)
    requires m.Valid() && q < |m.ram| && reg < 2 && d < 0x1_0000_0000 && !m.ram[q].flags.enable
    ensures BaseWritten(m.ram[q].base, reg, d, Apply(m, Write(q, reg, d, ALL_LANES), cplSize).ram[q].base)
  {
    var base := m.ram[q].base;
    var after := Apply(m, Write(q, reg, d, ALL_LANES), cplSize).ram[q].base;
    if reg == 0 {
      assert after == [(d / 0x1000) % 16, (d / 0x1_0000) % 256, (d / 0x100_0000) % 256] + base[3..];
      LowDigits(d);
    } else {
      assert after == base[..3] + [d % 256, (d / 0x100) % 256, (d / 0x1_0000) % 256, (d / 0x100_0000) % 256];
      HighDigits(d);
    }
  }

  lemma LowDigits(d: nat)
    requires d < 0x1_0000_0000
    ensures (d / 0x1000) % 16 * 0x1000 + (d / 0x1_0000) % 256 * 0x1_0000 + (d / 0x100_0000) % 256 * 0x100_0000 == d / 0x1000 * 0x1000
  {
    var a, b, c := d / 0x1000, d / 0x1_0000, d / 0x100_0000;
    assert a == b * 16 + a % 16 && b == c * 256 + b % 256 && c < 256;
  }

  lemma HighDigits(d: nat)
    requires d < 0x1_0000_0000
    ensures d % 256 + (d / 0x100) % 256 * 0x100 + (d / 0x1_0000) % 256 * 0x1_0000 + (d / 0x100_0000) % 256 * 0x100_0000 == d
  {
  }

  // The lanes hold the address that the two words name.
  ghost predicate PlacedAt(base: seq<nat>, lo: nat, hi: nat) {
    |base| == 7 && (lo < 0x1_0000_0000 && hi < 0x1_0000_0000 ==> LowPart(base) == lo / 0x1000 * 0x1000 && HighPart(base) == hi)
  }

  // Disabling and the base address.
  lemma ConfigurePlace(s: Sys, q: nat, lo: nat, hi: nat, budget: nat, cplSize: nat) returns (r: Sys)
    requires Inv(s) && Closed(s, q) && cplSize > 0
    ensures Runs(s, [Program(q, F.SetEnable(false))] + [SetBase(q, 0, lo)] + [SetBase(q, 1, hi)], r, budget, cplSize) && Inv(r)
    ensures |r.a.queues| == |s.a.queues| && PlacedAt(r.a.queues[q].base, lo, hi)
    ensures
      var w := s.a.queues[q];
      Configured(s, r, q, w.flags.logSize, w.eqn, w.fin, w.cons)
  {
    var w := s.a.queues[q];
    assert s.a.queues[q := w] == s.a.queues;
    var xs := [Program(q, F.SetEnable(false))];
    assert [] + xs == xs;
    r := ConfigureStep(s, [], s, q, F.SetEnable(false), w.flags.logSize, w.eqn, w.fin, w.cons, budget, cplSize);
    r := ConfigureBase(s, xs, r, q, 0, lo, w.flags.logSize, w.eqn, w.fin, w.cons, budget, cplSize);
    r := ConfigureBase(s, xs + [SetBase(q, 0, lo)], r, q, 1, hi, w.flags.logSize, w.eqn, w.fin, w.cons, budget, cplSize);
  }

  // Size, event queue and pointers.
  lemma ConfigurePointers(s: Sys, xs: seq<Step>, m: Sys, q: nat, logSize: nat, eqn: nat, budget: nat, cplSize: nat) returns (r: Sys)
    requires logSize < 16 && eqn < PTR && cplSize > 0 && Runs(s, xs, m, budget, cplSize) && Inv(m) && Closed(s, q)
    requires
      var w := s.a.queues[q];
      Configured(s, m, q, w.flags.logSize, w.eqn, w.fin, w.cons)
    ensures Runs(s, xs + [Program(q, F.SetSize(logSize))] + [Program(q, F.SetEqn(eqn))] + [Program(q, F.SetProd(0))]
                    + [Program(q, F.SetCons(0))], r, budget, cplSize)
    ensures Inv(r) && Configured(s, r, q, logSize, eqn, 0, 0)
    ensures |r.a.queues| == |m.a.queues| && r.a.queues[q].base == m.a.queues[q].base
  {
    var w := s.a.queues[q];
    var ys := xs + [Program(q, F.SetSize(logSize))];
    var zs := ys + [Program(q, F.SetEqn(eqn))];
    r := ConfigureStep(s, xs, m, q, F.SetSize(logSize), w.flags.logSize, w.eqn, w.fin, w.cons, budget, cplSize);
    r := ConfigureStep(s, ys, r, q, F.SetEqn(eqn), logSize, w.eqn, w.fin, w.cons, budget, cplSize);
    r := ConfigureStep(s, zs, r, q, F.SetProd(0), logSize, eqn, w.fin, w.cons, budget, cplSize);
    r := ConfigureStep(s, zs + [Program(q, F.SetProd(0))], r, q, F.SetCons(0), logSize, eqn, 0, w.cons, budget, cplSize);
  }

  // What enabling a configured queue gives.
  ghost predicate FreshlyOpen(s: Sys, r: Sys, q: nat, logSize: nat, eqn: nat)
  {
    && q < |s.a.queues| == |s.sides| && Inv(r) && Open(r, q)
    && r.sides == s.sides[q := FreshSide(Pow2(logSize), s.sides[q].pending)]
    && r.jobs == s.jobs && r.a == s.a.(queues := s.a.queues[q := r.a.queues[q]])
    && var v := r.a.queues[q];
       v == F.Queue(0, 0, eqn, s.a.queues[q].flags.(logSize := logSize, enable := true), v.base)
  }

  lemma EnableConfigured(s: Sys, xs: seq<Step>, m: Sys, q: nat, logSize: nat, eqn: nat, budget: nat, cplSize: nat) returns (r: Sys)
    requires cplSize > 0 && Runs(s, xs, m, budget, cplSize) && Inv(m) && Configured(s, m, q, logSize, eqn, 0, 0)
    ensures Runs(s, xs + [EnableQueue(q)], r, budget, cplSize) && FreshlyOpen(s, r, q, logSize, eqn)
    ensures |r.a.queues| == |m.a.queues| && r.a.queues[q].base == m.a.queues[q].base
  {
    r := EnableNext(s, m, q, logSize, eqn, budget, cplSize);
    RunsThen(s, xs, m, EnableQueue(q), r, budget, cplSize);
  }

  lemma EnableNext(s: Sys, m: Sys, q: nat, logSize: nat, eqn: nat, budget: nat, cplSize: nat) returns (r: Sys)
    requires cplSize > 0 && Inv(m) && Configured(s, m, q, logSize, eqn, 0, 0)
    ensures Leads(m, EnableQueue(q), r, budget, cplSize) && FreshlyOpen(s, r, q, logSize, eqn)
    ensures |r.a.queues| == |m.a.queues| && r.a.queues[q].base == m.a.queues[q].base
  {
    ClosedHasNothing(m, q);
    EnableKeepsInv(m, q, cplSize);
    r := NextEnable(m, q, cplSize);
  }

  /** Opening a queue: the register writes of the driver are possible on any queue that is closed, and leave it enabled
      and fresh, whatever arm bit or event is left over from before. The hardware then uses the address written. */
  lemma OpeningAQueue(s: Sys, q: nat, lo: nat, hi: nat, logSize: nat, eqn: nat, budget: nat, cplSize: nat) returns (r: Sys)
    requires Inv(s) && Closed(s, q) && logSize < 16 && eqn < PTR && cplSize > 0
    ensures Runs(s, OpenSteps(q, lo, hi, logSize, eqn), r, budget, cplSize)
    ensures FreshlyOpen(s, r, q, logSize, eqn)
    ensures lo < 0x1_0000_0000 && hi < 0x1_0000_0000 ==>
      q < |r.m.ram| && |r.m.ram[q].base| == 7 && r.m.ram[q].BaseAddr() == lo / 0x1000 * 0x1000 + hi * 0x1_0000_0000
  {
    var xs := [Program(q, F.SetEnable(false))] + [SetBase(q, 0, lo)] + [SetBase(q, 1, hi)];
    var ys := xs + [Program(q, F.SetSize(logSize))] + [Program(q, F.SetEqn(eqn))] + [Program(q, F.SetProd(0))]
              + [Program(q, F.SetCons(0))];
    r := ConfigurePlace(s, q, lo, hi, budget, cplSize);
    r := ConfigurePointers(s, xs, r, q, logSize, eqn, budget, cplSize);
    r := EnableConfigured(s, ys, r, q, logSize, eqn, budget, cplSize);
    AddressIs(r, q, lo, hi);
  }

  lemma AddressIs(r: Sys, q: nat, lo: nat, hi: nat)
    requires Inv(r) && q < |r.a.queues| && PlacedAt(r.a.queues[q].base, lo, hi)
    ensures lo < 0x1_0000_0000 && hi < 0x1_0000_0000 ==>
      q < |r.m.ram| && |r.m.ram[q].base| == 7 && r.m.ram[q].BaseAddr() == lo / 0x1000 * 0x1000 + hi * 0x1_0000_0000
  {
    assert S.HoldsWord(r.m.ram[q], r.a.queues[q]);
  }

  // ---- guarantees ----

  /** Exactly once and in order: after any run the driver holds the payloads of records 0, 1, ..., consumed-1. */
  lemma ExactlyOnceInOrder(s: Sys, xs: seq<Step>, r: Sys, q: nat, budget: nat, cplSize: nat)
    requires Opened(s) && 0 < cplSize <= 0x1_0000_0000 && Runs(s, xs, r, budget, cplSize) && Open(r, q)
    ensures
      var d := r.sides[q];
      && |d.got| == d.consumed <= r.a.Started(q)
      && (forall i :: 0 <= i < d.consumed ==> i in d.written && d.got[i] == d.written[i])
      && d.cons32 == d.consumed % U32
  {
    OpenedInv(s);
    RunKeepsInv(s, xs, r, budget, cplSize);
    assert QueueInv(r, q);
  }

  predicate OfHardware(x: Step) { x.HwRequest? || x.WriteRecord? || x.HwCommit? }

  predicate OfLoop(x: Step) { x.Wake? || x.Poll? || x.Stop? || x.WriteBack? }

  ghost predicate KeepsWritten(s: Sys, r: Sys, q: nat, i: nat)
    requires q < |s.sides| && i in s.sides[q].written
  {
    q < |r.sides| && i in r.sides[q].written && r.sides[q].written[i] == s.sides[q].written[i]
  }

  lemma HardwareKeepsWritten(s: Sys, x: Step, q: nat, i: nat, budget: nat, cplSize: nat)
    requires Valid(s) && CanStep(s, x, budget) && cplSize > 0 && q < |s.sides| && i in s.sides[q].written
    requires OfHardware(x) || x.HwFinalize?
    ensures KeepsWritten(s, Next(s, x, budget, cplSize), q, i)
  {
  }

  lemma LoopKeepsWritten(s: Sys, x: Step, q: nat, i: nat, budget: nat, cplSize: nat)
    requires Valid(s) && CanStep(s, x, budget) && cplSize > 0 && q < |s.sides| && i in s.sides[q].written
    requires OfLoop(x) || x.Rearm?
    ensures KeepsWritten(s, Next(s, x, budget, cplSize), q, i)
  {
  }

  lemma RegistersKeepWritten(s: Sys, x: Step, q: nat, i: nat, budget: nat, cplSize: nat)
    requires Valid(s) && CanStep(s, x, budget) && cplSize > 0 && q < |s.sides| && i in s.sides[q].written
    requires x != EnableQueue(q) && !x.HwFinalize? && !x.Rearm? && !OfHardware(x) && !OfLoop(x)
    ensures KeepsWritten(s, Next(s, x, budget, cplSize), q, i)
  {
  }

  lemma StepKeepsWritten(s: Sys, x: Step, q: nat, i: nat, budget: nat, cplSize: nat)
    requires Valid(s) && CanStep(s, x, budget) && cplSize > 0 && q < |s.sides| && i in s.sides[q].written
    requires x != EnableQueue(q)
    ensures KeepsWritten(s, Next(s, x, budget, cplSize), q, i)
  {
    if OfHardware(x) || x.HwFinalize? {
      HardwareKeepsWritten(s, x, q, i, budget, cplSize);
    } else if OfLoop(x) || x.Rearm? {
      LoopKeepsWritten(s, x, q, i, budget, cplSize);
    } else {
      RegistersKeepWritten(s, x, q, i, budget, cplSize);
    }
  }

  // A record never changes once it is written, until the queue is opened again: what the driver got stays what was
  // sent.
  lemma {:induction false} WrittenIsForever(s: Sys, xs: seq<Step>, r: Sys, q: nat, i: nat, budget: nat, cplSize: nat)
    requires Inv(s) && 0 < cplSize <= 0x1_0000_0000 && Runs(s, xs, r, budget, cplSize)
    requires q < |s.sides| && i in s.sides[q].written && forall k :: 0 <= k < |xs| ==> xs[k] != EnableQueue(q)
    ensures q < |r.sides| && i in r.sides[q].written && r.sides[q].written[i] == s.sides[q].written[i]
    decreases |xs|
  {
    if xs != [] {
      StepKeepsInv(s, xs[0], budget, cplSize);
      StepKeepsWritten(s, xs[0], q, i, budget, cplSize);
      WrittenIsForever(Next(s, xs[0], budget, cplSize), xs[1..], r, q, i, budget, cplSize);
    }
  }

  /** Occupancy: what is started and not consumed fits the ring, whatever the hardware has finalized. */
  lemma RingNeverOverflows(s: Sys, xs: seq<Step>, r: Sys, q: nat, budget: nat, cplSize: nat)
    requires Opened(s) && 0 < cplSize <= 0x1_0000_0000 && Runs(s, xs, r, budget, cplSize) && Open(r, q)
    ensures 0 <= r.a.Started(q) - r.sides[q].consumed <= |r.sides[q].buf|
  {
    OpenedInv(s);
    RunKeepsInv(s, xs, r, budget, cplSize);
    assert QueueInv(r, q);
  }

  // The record a writer is about to replace has been consumed; the one it writes has not.
  lemma NoUnreadRecordOverwritten(s: Sys, i: nat, payload: nat, budget: nat)
    requires Inv(s) && CanStep(s, WriteRecord(i, payload), budget)
    ensures
      var j, d := s.jobs[i], s.sides[s.jobs[i].queue];
      && |d.buf| > 0 && j.slot == j.index % |d.buf|
      && d.consumed <= j.index < d.consumed + |d.buf|
  {
    assert JobInv(s, i) && QueueInv(s, s.jobs[i].queue);
    OutstandingBelowStarted(s.a, i);
  }

  /** No lost wakeup: an idle driver with no event on its way has consumed every finalized record,
      and the hardware is armed, so the next finalize of the queue rings. */
  lemma NoLostWakeup(s: Sys, xs: seq<Step>, r: Sys, q: nat, budget: nat, cplSize: nat)
    requires Opened(s) && 0 < cplSize <= 0x1_0000_0000 && Runs(s, xs, r, budget, cplSize) && Open(r, q)
    requires r.sides[q].pc.Idle? && !r.sides[q].pending
    ensures r.m.ram[q].flags.armed && r.m.ram[q].prod == r.m.ram[q].cons
    ensures r.a.queues[q].fin == r.sides[q].consumed
    ensures Valid(r)
    ensures CanStep(r, HwFinalize, budget) && Head(r.m).queue == q ==> Next(r, HwFinalize, budget, cplSize).sides[q].pending
  {
    OpenedInv(s);
    RunKeepsInv(s, xs, r, budget, cplSize);
    IdleIsArmed(r, q);
    if CanStep(r, HwFinalize, budget) && Head(r.m).queue == q { FinalizeRings(r, q, budget, cplSize); }
  }

  lemma IdleIsArmed(r: Sys, q: nat)
    requires Inv(r) && Open(r, q) && r.sides[q].pc.Idle? && !r.sides[q].pending
    ensures r.m.ram[q].flags.armed && r.a.queues[q].flags.armed && r.m.ram[q].prod == r.m.ram[q].cons
    ensures r.a.queues[q].fin == r.sides[q].consumed
  {
    assert QueueInv(r, q) && S.HoldsWord(r.m.ram[q], r.a.queues[q]);
  }

  lemma FinalizeRings(r: Sys, q: nat, budget: nat, cplSize: nat)
    requires Inv(r) && Open(r, q) && CanStep(r, HwFinalize, budget) && Head(r.m).queue == q && cplSize > 0
    requires r.a.queues[q].flags.armed
    ensures NextFinalize(r, cplSize).sides[q].pending
  {
    S.FinalizeSimulates(r.m, r.a, Head(r.m).queue, Head(r.m).ptr, cplSize);
  }

  // ---- one event per arm ----

  ghost predicate Exactly(s: Sys, q: nat, bare: bool) {
    Open(s, q) ==> OneEach(s.sides[q], s.a.queues[q], bare)
  }

  // If the queue is opened, then with no event left over; bare, with no arm bit either.
  ghost predicate CleanStep(s: Sys, x: Step, q: nat, bare: bool) {
    x == EnableQueue(q) && q < |s.sides| == |s.a.queues| ==>
      !s.sides[q].pending && (bare ==> !s.a.queues[q].flags.armed)
  }

  lemma FinalizeKeepsExactly(s: Sys, q: nat, bare: bool, cplSize: nat)
    requires Inv(s) && Exactly(s, q, bare) && Enabled(s.m, Head(s.m)) && cplSize > 0 && q < |s.sides|
    ensures Exactly(NextFinalize(s, cplSize), q, bare)
  {
    S.FinalizeSimulates(s.m, s.a, Head(s.m).queue, Head(s.m).ptr, cplSize);
    F.FinalizeKeepsValid(s.a);
  }

  lemma RearmKeepsExactly(s: Sys, p: nat, q: nat, bare: bool, cplSize: nat)
    requires Inv(s) && Exactly(s, q, bare) && Open(s, p) && s.sides[p].pc.Arm? && q < |s.sides|
    ensures Exactly(NextRearm(s, p, cplSize), q, bare)
  {
    S.CommandSimulates(s.m, s.a, p, F.SetArm(true), 2, ALL_LANES, cplSize);
    assert QueueInv(s, p);
  }

  lemma StepKeepsExactly(s: Sys, x: Step, q: nat, bare: bool, budget: nat, cplSize: nat)
    requires Inv(s) && Exactly(s, q, bare) && q < |s.sides| && CanStep(s, x, budget) && cplSize > 0
    requires CleanStep(s, x, q, bare)
    ensures Exactly(Next(s, x, budget, cplSize), q, bare)
  {
    if x.HwFinalize? {
      FinalizeKeepsExactly(s, q, bare, cplSize);
    } else if x.Rearm? {
      RearmKeepsExactly(s, x.queue, q, bare, cplSize);
    } else if OfHardware(x) {
      HardwareKeepsExactly(s, x, q, bare, budget, cplSize);
    } else if OfLoop(x) {
      LoopKeepsExactly(s, x, q, bare, budget, cplSize);
    } else {
      RegistersKeepExactly(s, x, q, bare, budget, cplSize);
    }
  }

  lemma HardwareKeepsExactly(s: Sys, x: Step, q: nat, bare: bool, budget: nat, cplSize: nat)
    requires Valid(s) && Exactly(s, q, bare) && q < |s.sides| && CanStep(s, x, budget) && cplSize > 0
    requires CleanStep(s, x, q, bare)
    requires OfHardware(x)
    ensures Exactly(Next(s, x, budget, cplSize), q, bare)
  {
  }

  lemma LoopKeepsExactly(s: Sys, x: Step, q: nat, bare: bool, budget: nat, cplSize: nat)
    requires Valid(s) && Exactly(s, q, bare) && q < |s.sides| && CanStep(s, x, budget) && cplSize > 0
    requires CleanStep(s, x, q, bare)
    requires OfLoop(x)
    ensures Exactly(Next(s, x, budget, cplSize), q, bare)
  {
  }

  lemma RegistersKeepExactly(s: Sys, x: Step, q: nat, bare: bool, budget: nat, cplSize: nat)
    requires Valid(s) && Exactly(s, q, bare) && q < |s.sides| && CanStep(s, x, budget) && cplSize > 0
    requires CleanStep(s, x, q, bare)
    requires !x.HwFinalize? && !x.Rearm? && !OfHardware(x) && !OfLoop(x)
    ensures Exactly(Next(s, x, budget, cplSize), q, bare)
  {
  }

  // A run in which the queue is only opened cleanly.
  ghost predicate CleanRun(s: Sys, xs: seq<Step>, q: nat, bare: bool, budget: nat, cplSize: nat)
    requires cplSize > 0
    decreases |xs|
  {
    xs != [] && Valid(s) && CanStep(s, xs[0], budget) ==>
      CleanStep(s, xs[0], q, bare) && CleanRun(Next(s, xs[0], budget, cplSize), xs[1..], q, bare, budget, cplSize)
  }

  /** An armed queue has equal pointers and no event on its way, and ringing disarms, over every run in which the queue
      is opened with no event left over, whatever the arm bit. Opened without an arm bit either, an idle driver is the
      only one for which the queue is armed or an event on its way. */
  lemma {:induction false} OneEventPerArm(s: Sys, xs: seq<Step>, r: Sys, q: nat, bare: bool, budget: nat, cplSize: nat)
    requires Inv(s) && Exactly(s, q, bare) && q < |s.sides| && 0 < cplSize <= 0x1_0000_0000
    requires Runs(s, xs, r, budget, cplSize) && CleanRun(s, xs, q, bare, budget, cplSize)
    ensures Inv(r) && Exactly(r, q, bare) && q < |r.sides|
    ensures Open(r, q) && r.a.queues[q].flags.armed ==> !r.sides[q].pending && r.m.ram[q].prod == r.m.ram[q].cons
    ensures Open(r, q) && r.sides[q].pending ==> !r.m.ram[q].flags.armed
    ensures bare && Open(r, q) && (r.m.ram[q].flags.armed || r.sides[q].pending) ==> r.sides[q].pc.Idle?
    decreases |xs|
  {
    if xs != [] {
      StepKeepsInv(s, xs[0], budget, cplSize);
      StepKeepsExactly(s, xs[0], q, bare, budget, cplSize);
      OneEventPerArm(Next(s, xs[0], budget, cplSize), xs[1..], r, q, bare, budget, cplSize);
    } else {
      assert S.HoldsWord(r.m.ram[q], r.a.queues[q]);
    }
  }

  // The first arm of a queue just opened arms it and rings nothing.
  lemma FirstArm(o: Sys, q: nat, budget: nat, cplSize: nat) returns (r: Sys)
    requires Inv(o) && Open(o, q) && o.a.queues[q].fin == o.a.queues[q].cons == 0 && o.sides[q].pc.Arm? && cplSize > 0
    ensures Leads(o, Rearm(q), r, budget, cplSize) && Inv(r) && Open(r, q)
    ensures r.a == F.Program(o.a, q, F.SetArm(true)) && r.jobs == o.jobs && r.a.queues[q].flags.armed
    ensures r.sides == o.sides[q := o.sides[q].(pc := Idle)]
  {
    S.CommandSimulates(o.m, o.a, q, F.SetArm(true), 2, ALL_LANES, cplSize);
    RearmKeepsInv(o, q, cplSize);
    r := NextRearm(o, q, cplSize);
  }

  /** Opening a closed queue gives this if and only if no event is left over: after the first arm the queue is armed,
      and the event is still on its way if there was one. */
  lemma CleanIffNoEventLeft(s: Sys, q: nat, budget: nat, cplSize: nat) returns (o: Sys, r: Sys)
    requires Inv(s) && CanStep(s, EnableQueue(q), budget) && cplSize > 0
    ensures Leads(s, EnableQueue(q), o, budget, cplSize) && Leads(o, Rearm(q), r, budget, cplSize) && Inv(r)
    ensures Open(r, q) && r.a.queues[q].flags.armed && (r.sides[q].pending <==> s.sides[q].pending)
    ensures Exactly(o, q, false) <==> !s.sides[q].pending
    ensures Exactly(r, q, false) <==> !s.sides[q].pending
  {
    EnableKeepsInv(s, q, cplSize);
    o := NextEnable(s, q, cplSize);
    r := FirstArm(o, q, budget, cplSize);
  }

  // Closing a queue clears neither its arm bit nor an event on its way, and an idle driver has one of the two.
  lemma Closing(s: Sys, q: nat, budget: nat, cplSize: nat) returns (c: Sys)
    requires Inv(s) && Open(s, q) && F.Count(s.a.ops, q) == 0 && cplSize > 0
    ensures Leads(s, CloseQueue(q), c, budget, cplSize)
    ensures Inv(c) && Closed(c, q) && c.sides == s.sides
    ensures s.sides[q].pc.Idle? ==> c.a.queues[q].flags.armed || c.sides[q].pending
  {
    CloseKeepsInv(s, q, cplSize);
    assert QueueInv(s, q);
    c := NextCommand(s, q, F.SetEnable(false), cplSize);
  }

  /** With leftovers it fails: a queue that is closed while an event is on its way, opened again and armed is armed and
      has the event on its way at once. No wakeup is lost all the same; see NoLostWakeup. */
  lemma LeftoverEventFails(s: Sys, q: nat, lo: nat, hi: nat, logSize: nat, eqn: nat, budget: nat, cplSize: nat)
      returns (r: Sys)
    requires Inv(s) && Open(s, q) && F.Count(s.a.ops, q) == 0 && s.sides[q].pending
    requires logSize < 16 && eqn < PTR && 0 < cplSize <= 0x1_0000_0000
    ensures Runs(s, [CloseQueue(q)] + OpenSteps(q, lo, hi, logSize, eqn) + [Rearm(q)], r, budget, cplSize)
    ensures Inv(r) && Open(r, q) && r.a.queues[q].flags.armed && r.sides[q].pending && r.sides[q].pc.Idle?
  {
    var xs := OpenSteps(q, lo, hi, logSize, eqn);
    var c := Closing(s, q, budget, cplSize);
    var o := OpeningAQueue(c, q, lo, hi, logSize, eqn, budget, cplSize);
    RunsFirst(s, CloseQueue(q), c, xs, o, budget, cplSize);
    r := FirstArm(o, q, budget, cplSize);
    RunsThen(s, [CloseQueue(q)] + xs, o, Rearm(q), r, budget, cplSize);
  }

  lemma RunsFirst(s: Sys, x: Step, m: Sys, xs: seq<Step>, r: Sys, budget: nat, cplSize: nat)
    requires cplSize > 0 && Leads(s, x, m, budget, cplSize) && Runs(m, xs, r, budget, cplSize)
    ensures Runs(s, [x] + xs, r, budget, cplSize)
  {
    assert ([x] + xs)[1..] == xs;
  }

  // ---- slots of outstanding operations ----

  function SlotOfOp(a: F.Fifo, i: nat): int
    requires i < |a.ops| && a.ops[i].queue < |a.queues|
  {
    (a.ops[i].ptr - 1) % a.queues[a.ops[i].queue].Size()
  }

  ghost predicate DistinctSlots(a: F.Fifo, q: nat)
    requires F.Valid(a)
  {
    forall i, j :: 0 <= i < j < |a.ops| && a.ops[i].queue == q && a.ops[j].queue == q ==> SlotOfOp(a, i) != SlotOfOp(a, j)
  }

  lemma {:induction false} CountPrefix(ops: seq<F.Op>, i: nat, j: nat, q: nat)
    requires i < j <= |ops|
    ensures F.Count(ops[..i], q) + Bit(ops[i].queue == q, 1) <= F.Count(ops[..j], q)
  {
    F.CountSplit(ops[..j], i, q);
    assert ops[..j][..i] == ops[..i];
    F.CountHead(ops[..j][i..], q);
  }

  // The k-th outstanding operation of a queue.
  lemma {:induction false} FindNth(ops: seq<F.Op>, q: nat, k: nat) returns (i: nat)
    requires k < F.Count(ops, q)
    ensures i < |ops| && ops[i].queue == q && F.Count(ops[..i], q) == k
  {
    var n := |ops| - 1;
    if k < F.Count(ops[..n], q) {
      i := FindNth(ops[..n], q, k);
      assert ops[..n][..i] == ops[..i];
    } else {
      i := n;
    }
  }

  /** Outstanding operations of a queue hold pairwise distinct slots iff there are at most as many of them as
      slots. The consumer reading ahead of finalization can break that; see SharedSlot. */
  lemma SlotsDistinctIffFewEnough(a: F.Fifo, q: nat)
    requires F.Valid(a) && q < |a.queues|
    ensures DistinctSlots(a, q) <==> F.Count(a.ops, q) <= a.queues[q].Size()
  {
    if F.Count(a.ops, q) <= a.queues[q].Size() {
      FewKeepDistinct(a, q);
    } else {
      var i := FindNth(a.ops, q, 0);
      var j := FindNth(a.ops, q, a.queues[q].Size());
      LapSharesSlot(a, q, i, j);
    }
  }

  lemma FewKeepDistinct(a: F.Fifo, q: nat)
    requires F.Valid(a) && q < |a.queues| && F.Count(a.ops, q) <= a.queues[q].Size()
    ensures DistinctSlots(a, q)
  {
    forall i, j | 0 <= i < j < |a.ops| && a.ops[i].queue == q && a.ops[j].queue == q ensures SlotOfOp(a, i) != SlotOfOp(a, j) {
      PairDistinct(a, q, i, j);
    }
  }

  lemma PairClose(a: F.Fifo, q: nat, i: nat, j: nat)
    requires F.Valid(a) && q < |a.queues|
    requires i < j < |a.ops| && a.ops[i].queue == a.ops[j].queue == q
    ensures 0 < a.ops[j].ptr - a.ops[i].ptr < F.Count(a.ops, q)
  {
    CountPrefix(a.ops, i, j, q);
    CountPrefix(a.ops, j, |a.ops|, q);
    assert a.ops[..|a.ops|] == a.ops;
    assert F.PtrOk(a, i) && F.PtrOk(a, j);
  }

  lemma PairDistinct(a: F.Fifo, q: nat, i: nat, j: nat)
    requires F.Valid(a) && q < |a.queues| && F.Count(a.ops, q) <= a.queues[q].Size()
    requires i < j < |a.ops| && a.ops[i].queue == a.ops[j].queue == q
    ensures SlotOfOp(a, i) != SlotOfOp(a, j)
  {
    PairClose(a, q, i, j);
    DifferentResidues(a.ops[j].ptr - 1, a.ops[i].ptr - 1, a.queues[q].Size());
  }

  lemma LapLater(fin: nat, size: nat)
    requires size > 0
    ensures (fin + 1 - 1) % size == (fin + size + 1 - 1) % size
  {
    NextLap(fin, size);
  }

  // The first operation of a queue and the one a full lap later.
  lemma LapSharesSlot(a: F.Fifo, q: nat, i: nat, j: nat)
    requires F.Valid(a) && q < |a.queues| && i < |a.ops| && j < |a.ops| && a.ops[i].queue == a.ops[j].queue == q
    requires F.Count(a.ops[..i], q) == 0 && F.Count(a.ops[..j], q) == a.queues[q].Size()
    ensures i < j && SlotOfOp(a, i) == SlotOfOp(a, j)
  {
    if j < i { CountPrefix(a.ops, j, i, q); }
    PointerIs(a, i);
    PointerIs(a, j);
    LapLater(a.queues[q].fin, a.queues[q].Size());
  }

  lemma PointerIs(a: F.Fifo, i: nat)
    requires F.Valid(a) && i < |a.ops|
    ensures a.ops[i].ptr == a.queues[a.ops[i].queue].fin + F.Count(a.ops[..i], a.ops[i].queue) + 1
  {
    assert F.PtrOk(a, i);
  }

  // A consumer that never runs ahead of finalization keeps the slots distinct.
  lemma SlotsDistinctWhenConsumerBehind(a: F.Fifo, q: nat)
    requires F.Valid(a) && q < |a.queues| && a.queues[q].flags.enable && a.queues[q].cons <= a.queues[q].fin
    ensures DistinctSlots(a, q)
  {
    assert F.Occupied(a, q);
    SlotsDistinctIffFewEnough(a, q);
  }

  // When two outstanding operations do share a slot, the older record has already been consumed.
  lemma SharedSlotIsConsumed(s: Sys, i: nat, j: nat)
    requires Inv(s) && i < j < |s.jobs| && s.jobs[i].queue == s.jobs[j].queue && s.jobs[i].slot == s.jobs[j].slot
    ensures s.jobs[i].queue < |s.sides| && s.jobs[i].index < s.sides[s.jobs[i].queue].consumed
  {
    assert JobInv(s, i) && JobInv(s, j);
    var q := s.jobs[i].queue;
    assert QueueInv(s, q);
    OutstandingBelowStarted(s.a, j);
    CountPrefix(s.a.ops, i, j, q);
    assert F.PtrOk(s.a, i) && F.PtrOk(s.a, j);
    if s.jobs[j].index - s.jobs[i].index < s.a.queues[q].Size() {
      ModInjective(s.jobs[i].index, s.jobs[j].index, s.a.queues[q].Size());
    }
  }

  // ---- draining ----

  function AllCommitted(ops: seq<F.Op>): bool { forall i :: 0 <= i < |ops| ==> ops[i].committed }

  function FinalizeTimes(a: F.Fifo, k: nat): F.Fifo
    requires F.Valid(a) && k <= |a.ops|
    decreases k
  {
    if k == 0 then a else
    F.FinalizeKeepsValid(a);
    FinalizeTimes(F.Finalize(a), k - 1)
  }

  lemma {:induction false} FinalizingEmpties(a: F.Fifo)
    requires F.Valid(a)
    ensures
      var r := FinalizeTimes(a, |a.ops|);
      && r.ops == [] && |r.queues| == |a.queues|
      && forall q :: 0 <= q < |a.queues| ==> r.queues[q].fin == a.Started(q)
    decreases |a.ops|
  {
    if a.ops != [] {
      F.FinalizeKeepsValid(a);
      FinalizingEmpties(F.Finalize(a));
    }
  }

  lemma IdleTable(m: Manager, a: F.Fifo)
    requires S.Simulates(m, a) && a.ops == []
    ensures forall t :: 0 <= t < |m.table.active| ==> !m.table.active[t]
    ensures forall q :: 0 <= q < |m.ram| ==> m.ram[q].prod == a.queues[q].fin % PTR
  {
    forall q | 0 <= q < |m.ram| ensures m.ram[q].prod == a.queues[q].fin % PTR { assert S.HoldsWord(m.ram[q], a.queues[q]); }
    forall t | 0 <= t < |m.table.active| ensures !m.table.active[t] { assert S.HoldsSlot(m, a, t); }
  }

  lemma {:induction false} FinalizeAll(m: Manager, a: F.Fifo, cplSize: nat) returns (end: Manager)
    requires S.Simulates(m, a) && AllCommitted(a.ops)
    ensures S.Simulates(end, FinalizeTimes(a, |a.ops|))
    decreases |a.ops|
  {
    if a.ops == [] {
      end := m;
    } else {
      var head := a.ops[0];
      S.FinalizeGuard(m, a, head.queue, head.ptr % PTR);
      S.FinalizeSimulates(m, a, head.queue, head.ptr % PTR, cplSize);
      end := FinalizeAll(Apply(m, Finalize(head.queue, head.ptr % PTR), cplSize), F.Finalize(a), cplSize);
    }
  }

  /** Once everything outstanding is committed, as many finalizes as there are operations empty the table,
      each enabled in the hardware, and leave every queue's producer pointer at its last started record. */
  lemma Drains(m: Manager, a: F.Fifo, cplSize: nat) returns (end: Manager)
    requires S.Simulates(m, a) && AllCommitted(a.ops)
    ensures S.Simulates(end, FinalizeTimes(a, |a.ops|))
    ensures forall t :: 0 <= t < |end.table.active| ==> !end.table.active[t]
    ensures |end.ram| == |a.queues| && forall q :: 0 <= q < |a.queues| ==> end.ram[q].prod == a.Started(q) % PTR
  {
    end := FinalizeAll(m, a, cplSize);
    FinalizingEmpties(a);
    IdleTable(end, FinalizeTimes(a, |a.ops|));
  }
}

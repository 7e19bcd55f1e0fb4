/**
 The protocol's guarantees at the clock edges: a run of the pipeline whose serial operations are those of a protocol run
 holds the protocol's queue RAM, and rings its events.
 */
module CplClocked {
  import opened Arith
  import opened CplQueueManager
  import P = CplPipeline
  import opened CplRefinement
  import E = CplEvents
  import F = CplFifo
  import S = CplSimulation
  import T = CplTheorems
  import opened CplProtocol

  // What a protocol step is for the queue manager.
  ghost function OpsOf(s: Sys, x: Step, budget: nat): seq<Atomic>
    requires Valid(s) && CanStep(s, x, budget)
  {
    match x
    case HwRequest(q, tag) => [Do(Request(q, tag))]
    case WriteRecord(_, _) => []
    case HwCommit(i) => [Commit(s.jobs[i].tag)]
    case HwFinalize => [Do(Head(s.m))]
    case Wake(_) => []
    case Poll(_) => []
    case Stop(_) => []
    case WriteBack(q) => [Do(RegisterWrite(q, F.SetCons(s.sides[q].cons32)))]
    case Rearm(q) => [Do(RegisterWrite(q, F.SetArm(true)))]
    case Program(q, c) => [Do(RegisterWrite(q, c))]
    case SetBase(q, reg, d) => [Do(Write(q, reg, d, ALL_LANES))]
    case EnableQueue(q) => [Do(RegisterWrite(q, F.SetEnable(true)))]
    case CloseQueue(q) => [Do(RegisterWrite(q, F.SetEnable(false)))]
    case ReadRegister(q, reg) => [Do(Read(q, reg))]
  }

  // The protocol run xs from start arrives at r, and ops is what it is for the queue manager.
  ghost predicate Drives(start: Sys, xs: seq<Step>, ops: seq<Atomic>, r: Sys, budget: nat, cplSize: nat)
    requires cplSize > 0
    decreases |xs|, 1
  {
    if xs == [] then r == start && ops == []
    else exists before: Sys, most: seq<Atomic> :: DrivesLast(start, xs, before, most, ops, r, budget, cplSize)
  }

  ghost predicate DrivesLast(start: Sys, xs: seq<Step>, before: Sys, most: seq<Atomic>, ops: seq<Atomic>, r: Sys,
                             budget: nat, cplSize: nat)
    requires cplSize > 0 && xs != []
    decreases |xs|, 0
  {
    var n := |xs| - 1;
    && Drives(start, xs[..n], most, before, budget, cplSize) && Valid(before) && CanStep(before, xs[n], budget)
    && ops == most + OpsOf(before, xs[n], budget) && r == Next(before, xs[n], budget, cplSize)
  }

  // The queue manager after at most one operation.
  ghost function AfterOps(m: Manager, ops: seq<Atomic>, cplSize: nat): Manager
    requires m.Valid() && (ops != [] ==> Allowed(m, ops[0]))
  {
    if ops == [] then m else match ops[0] case Do(op) => Apply(m, op, cplSize) case Commit(tag) => CplQueueManager.Record(m, tag)
  }

  lemma StepAllowed(s: Sys, x: Step, budget: nat)
    requires Inv(s) && CanStep(s, x, budget)
    ensures
      var ops := OpsOf(s, x, budget);
      |ops| <= 1 && (ops != [] ==> Allowed(s.m, ops[0]))
  {
    if x.HwFinalize? {
      var t := s.m.table;
      assert t.queue[t.finish] < |s.m.ram| && t.ptr[t.finish] < PTR;
    }
  }

  lemma StepManager(s: Sys, x: Step, budget: nat, cplSize: nat)
    requires Inv(s) && CanStep(s, x, budget) && cplSize > 0
    requires OpsOf(s, x, budget) != [] ==> Allowed(s.m, OpsOf(s, x, budget)[0])
    ensures Next(s, x, budget, cplSize).m == AfterOps(s.m, OpsOf(s, x, budget), cplSize)
  {
    if x.ReadRegister? { ReadChangesNothing(s.m, x.queue, x.reg, cplSize); }
  }

  lemma ReadChangesNothing(m: Manager, q: nat, reg: nat, cplSize: nat)
    requires m.Valid() && q < |m.ram|
    ensures Apply(m, Read(q, reg), cplSize) == m
  {
    var w, e := m.ram[q], EffectOf(m, Read(q, reg), cplSize);
    assert Merge(w, e.data, e.be).base == w.base;
    assert Apply(m, Read(q, reg), cplSize).ram == m.ram;
  }

  // A protocol run is a run of the serial machine.
  lemma {:induction false} DrivesSerial(start: Sys, xs: seq<Step>, ops: seq<Atomic>, r: Sys, budget: nat, cplSize: nat)
      returns (serial: Serial)
    requires Inv(start) && 0 < cplSize <= 0x1_0000_0000 && Drives(start, xs, ops, r, budget, cplSize)
    ensures Inv(r) && SerialReaches(start.m, ops, serial, cplSize) && serial.m == r.m
    decreases |xs|
  {
    if xs == [] {
      serial := Serial(start.m, SILENT);
    } else {
      var n := |xs| - 1;
      var before: Sys, most: seq<Atomic> :| DrivesLast(start, xs, before, most, ops, r, budget, cplSize);
      var s := DrivesSerial(start, xs[..n], most, before, budget, cplSize);
      StepKeepsInv(before, xs[n], budget, cplSize);
      StepAllowed(before, xs[n], budget);
      StepManager(before, xs[n], budget, cplSize);
      serial := SerialOneMore(start.m, most, s, OpsOf(before, xs[n], budget), cplSize);
    }
  }

  lemma SerialOneMore(start: Manager, most: seq<Atomic>, s: Serial, last: seq<Atomic>, cplSize: nat) returns (r: Serial)
    requires SerialReaches(start, most, s, cplSize) && s.m.Valid() && |last| <= 1
    requires last != [] ==> Allowed(s.m, last[0])
    ensures SerialReaches(start, most + last, r, cplSize) && r.m == AfterOps(s.m, last, cplSize)
  {
    if last == [] {
      assert most + last == most;
      r := s;
    } else {
      assert most + last == most + [last[0]];
      SerialAppend(start, most, s, last[0], cplSize);
      r := SerialStep(s, last[0], cplSize);
    }
  }

  // The serial machine is deterministic.
  lemma {:induction false} SerialUnique(start: Manager, ops: seq<Atomic>, a: Serial, b: Serial, cplSize: nat)
    requires SerialReaches(start, ops, a, cplSize) && SerialReaches(start, ops, b, cplSize)
    ensures a == b
    decreases |ops|
  {
    if ops != [] {
      var x :| SerialExtends(start, ops, x, a, cplSize);
      var y :| SerialExtends(start, ops, y, b, cplSize);
      SerialUnique(start, ops[..|ops| - 1], x, y, cplSize);
    }
  }

  // The hardware after reset, no queue open, the driver's side whatever it is.
  ghost predicate Booted(s: Sys, queues: nat, entries: nat)
    requires queues > 0 && entries > 0
  {
    s.m == Initial(queues, entries) && s.a == S.Reset(queues, entries) && s.jobs == [] && |s.sides| == queues
  }

  lemma BootedIsOpened(s: Sys, queues: nat, entries: nat)
    requires queues > 0 && 0 < entries <= 256 && Booted(s, queues, entries)
    ensures T.Opened(s)
  {
    S.ResetSimulates(queues, entries);
  }

  /** A clocked run, of any depth and under any inputs, whose serial operations are those of a protocol run from reset:
      the queue RAM is the protocol's, and so is the table once a finalize in flight is undone. */
  lemma ClockedIsProtocol(queues: nat, entries: nat, stages: nat, ins: seq<P.Input>, t: Trace, start: Sys, xs: seq<Step>,
                          r: Sys, budget: nat, cplSize: nat)
    requires queues > 0 && 0 < entries <= 256 && stages >= 2 && 0 < cplSize <= 0x1_0000_0000
    requires Traces(queues, entries, stages, ins, t, cplSize)
    requires Booted(start, queues, entries) && Drives(start, xs, t.ops, r, budget, cplSize)
    ensures Inv(r) && P.Inv(t.rtl) && P.Abs(t.rtl) == r.m && t.rtl.m.ram == r.m.ram
  {
    BootedIsOpened(start, queues, entries);
    T.OpenedInv(start);
    var serial := PipelineRefinesSerial(queues, entries, stages, ins, t, cplSize);
    var driven := DrivesSerial(start, xs, t.ops, r, budget, cplSize);
    SerialUnique(Initial(queues, entries), t.ops, serial, driven, cplSize);
  }

  /** No lost wakeup at the clock edges: while a driver is idle with no event rung for it, its queue's RAM word is armed
      with equal pointers, and it has consumed every finalized record. */
  lemma ClockedNoLostWakeup(queues: nat, entries: nat, stages: nat, ins: seq<P.Input>, t: Trace, start: Sys, xs: seq<Step>,
                            r: Sys, q: nat, budget: nat, cplSize: nat)
    requires queues > 0 && 0 < entries <= 256 && stages >= 2 && 0 < cplSize <= 0x1_0000_0000
    requires Traces(queues, entries, stages, ins, t, cplSize)
    requires Booted(start, queues, entries) && Drives(start, xs, t.ops, r, budget, cplSize)
    requires Open(r, q) && r.sides[q].pc.Idle? && !r.sides[q].pending
    ensures q < |t.rtl.m.ram|
    ensures
      var w := t.rtl.m.ram[q];
      && w.flags.armed && w.prod == w.cons && w.prod == r.sides[q].consumed % PTR
      && r.a.queues[q].fin == r.sides[q].consumed
  {
    ClockedIsProtocol(queues, entries, stages, ins, t, start, xs, r, budget, cplSize);
    assert QueueInv(r, q) && S.HoldsWord(r.m.ram[q], r.a.queues[q]);
  }

  /** Exactly once and in order at the clock edges: the driver holds the payloads of records 0 up to its position, as
      written, and the RAM's pointers are those of the records finalized and released. */
  lemma ClockedExactlyOnce(queues: nat, entries: nat, stages: nat, ins: seq<P.Input>, t: Trace, start: Sys, xs: seq<Step>,
                           r: Sys, q: nat, budget: nat, cplSize: nat)
    requires queues > 0 && 0 < entries <= 256 && stages >= 2 && 0 < cplSize <= 0x1_0000_0000
    requires Traces(queues, entries, stages, ins, t, cplSize)
    requires Booted(start, queues, entries) && Drives(start, xs, t.ops, r, budget, cplSize) && Open(r, q)
    ensures q < |t.rtl.m.ram|
    ensures
      var w, d := t.rtl.m.ram[q], r.sides[q];
      && w.prod == r.a.queues[q].fin % PTR && w.cons == r.a.queues[q].cons % PTR
      && r.a.queues[q].cons <= d.consumed <= r.a.Started(q) && |d.got| == d.consumed
      && forall i :: 0 <= i < d.consumed ==> i in d.written && d.got[i] == d.written[i]
  {
    ClockedIsProtocol(queues, entries, stages, ins, t, start, xs, r, budget, cplSize);
    assert QueueInv(r, q) && S.HoldsWord(r.m.ram[q], r.a.queues[q]);
  }

  /** And the events reach the sink: the protocol run rings a sequence of events, and they are those sent, up to the one
      still in the register, if and only if every register write that rings is safe. */
  lemma ClockedEvents(queues: nat, entries: nat, stages: nat, ins: seq<P.Input>, t: Trace, start: Sys, xs: seq<Step>,
                      r: Sys, budget: nat, cplSize: nat) returns (rung: Serial, bs: seq<E.Beat>)
    requires queues > 0 && 0 < entries <= 256 && stages >= 2 && 0 < cplSize <= 0x1_0000_0000
    requires Traces(queues, entries, stages, ins, t, cplSize)
    requires Booted(start, queues, entries) && Drives(start, xs, t.ops, r, budget, cplSize)
    ensures SerialReaches(start.m, t.ops, rung, cplSize) && rung.m == r.m
    ensures E.BeatsOf(queues, entries, stages, ins, t, bs, cplSize)
    ensures rung.out.events == t.sent.events + Opt(t.rtl.regs.event) <==> E.AllSafe(bs, stages)
  {
    BootedIsOpened(start, queues, entries);
    T.OpenedInv(start);
    rung := DrivesSerial(start, xs, t.ops, r, budget, cplSize);
    var serial;
    serial, bs := E.EventsExactIffWritesSafe(queues, entries, stages, ins, t, cplSize);
    SerialUnique(Initial(queues, entries), t.ops, serial, rung, cplSize);
  }
}

/**
 Runs from reset that show what the protocol does not promise, on one queue with a ring of one slot: two outstanding
 operations at one slot, and an armed queue with an event on its way.
 */
module CplScenarios {
  import opened Arith
  import opened CplQueueManager
  import F = CplFifo
  import S = CplSimulation
  import opened CplProtocol
  import opened CplTheorems
  import C = CplClocked

  // What matters of a state with one queue, enabled, of one slot, and a table of two entries.
  datatype Shot = Shot(fin: nat, cons: nat, armed: bool, ops: seq<F.Op>, pc: Pc, pending: bool, consumed: nat, written: map<nat, nat>)

  ghost predicate Scene(s: Sys, v: Shot) {
    && |s.sides| == |s.a.queues| == 1 && s.a.entries == 2 && s.a.ops == v.ops
    && var w, d := s.a.queues[0], s.sides[0];
       && w.fin == v.fin && w.cons == v.cons && w.flags == Flags(0, false, v.armed, true)
       && d.pc == v.pc && d.pending == v.pending && d.consumed == v.consumed && d.written == v.written
  }

  ghost predicate Looks(s: Sys, v: Shot) {
    Inv(s) && Scene(s, v)
  }

  // All operations are the queue's.
  lemma {:induction false} CountAll(ops: seq<F.Op>)
    requires forall i :: 0 <= i < |ops| ==> ops[i].queue == 0
    ensures F.Count(ops, 0) == |ops|
  {
    if ops != [] { CountAll(ops[..|ops| - 1]); }
  }

  lemma LooksLike(s: Sys, v: Shot)
    requires Looks(s, v)
    ensures Open(s, 0) && s.a.Started(0) == v.fin + |v.ops| && s.a.queues[0].Size() == 1 && |s.jobs| == |v.ops|
    ensures forall i :: 0 <= i < |v.ops| ==> s.jobs[i].queue == 0 && s.jobs[i].index + 1 == v.ops[i].ptr
    ensures Valid(s)
  {
    assert Pow2(0) == 1;
    CountAll(s.a.ops);
    forall i | 0 <= i < |v.ops| ensures s.jobs[i].queue == 0 && s.jobs[i].index + 1 == v.ops[i].ptr { assert JobInv(s, i); }
  }

  // ---- the steps of hardware, writer and driver on it ----

  predicate CanShot(v: Shot, x: Step, budget: nat) {
    match x
    case HwRequest(q, _) => q == 0 && |v.ops| < 2 && v.fin + |v.ops| == v.cons
    case WriteRecord(i, _) => i == 0 && v.ops != [] && v.ops[0].ptr > 0 && v.ops[0].ptr - 1 !in v.written
    case HwCommit(i) => i == 0 && v.ops != [] && v.ops[0].ptr > 0 && v.ops[0].ptr - 1 in v.written
    case HwFinalize => v.ops != [] && v.ops[0].committed
    case Wake(q) => q == 0 && v.pc.Idle? && v.pending
    case Poll(q) => q == 0 && v.pc.Scan? && v.pc.done < budget && v.consumed in v.written
    case Stop(q) => q == 0 && v.pc.Scan?
    case WriteBack(q) => q == 0 && v.pc.Update?
    case Rearm(q) => q == 0 && v.pc.Arm? && v.fin == v.cons == 0
    case _ => false
  }

  function NextShot(v: Shot, x: Step, budget: nat): Shot
    requires CanShot(v, x, budget)
  {
    match x
    case HwRequest(_, _) => v.(ops := v.ops + [F.Op(0, v.fin + |v.ops| + 1, false)])
    case WriteRecord(_, payload) => v.(written := v.written[v.ops[0].ptr - 1 := payload])
    case HwCommit(_) => v.(ops := v.ops[0 := v.ops[0].(committed := true)])
    case HwFinalize => v.(fin := v.ops[0].ptr, armed := false, ops := v.ops[1..], pending := v.pending || v.armed)
    case Wake(_) => v.(pc := Scan(0), pending := false)
    case Poll(_) => v.(pc := Scan(v.pc.done + 1), consumed := v.consumed + 1)
    case Stop(_) => v.(pc := Update(v.pc.done))
    case WriteBack(_) => v.(pc := if v.pc.done == budget then Scan(0) else Arm, cons := v.consumed)
    case Rearm(_) => v.(pc := Idle, armed := true)
    case _ => v
  }

  lemma StartIsFree(m: Manager, a: F.Fifo)
    requires S.Simulates(m, a) && |a.ops| < a.entries
    ensures !m.table.active[m.table.start]
  {
    assert S.HoldsSlot(m, a, m.table.start);
  }

  lemma HeadIsFirst(s: Sys)
    requires Valid(s) && s.a.ops != [] && s.a.ops[0].committed
    ensures Enabled(s.m, Head(s.m))
  {
    S.TagHolds(s.m, s.a, 0);
    S.FinalizeGuard(s.m, s.a, Head(s.m).queue, Head(s.m).ptr);
  }

  lemma CanDo(s: Sys, v: Shot, x: Step, budget: nat)
    requires Looks(s, v) && CanShot(v, x, budget)
    ensures CanStep(s, x, budget)
  {
    LooksLike(s, v);
    if x.HwRequest? { StartIsFree(s.m, s.a); }
    if x.HwFinalize? { HeadIsFirst(s); }
    if x.Poll? { PhaseAgrees(s, 0); }
  }

  lemma RequestScene(s: Sys, v: Shot, tag: nat, r: Sys)
    requires Scene(s, v) && CanShot(v, HwRequest(0, tag), 0) && s.a.Started(0) == v.fin + |v.ops| && s.a.queues[0].Size() == 1
    requires r.a == F.Request(s.a, 0) && r.sides == s.sides
    ensures Scene(r, NextShot(v, HwRequest(0, tag), 0))
  {
  }

  lemma WriteScene(s: Sys, v: Shot, payload: nat)
    requires Scene(s, v) && CanShot(v, WriteRecord(0, payload), 0)
    requires s.jobs != [] && s.jobs[0].queue == 0 && s.jobs[0].index + 1 == v.ops[0].ptr
    ensures Scene(NextWrite(s, 0, payload), NextShot(v, WriteRecord(0, payload), 0))
  {
  }

  lemma FinalizeScene(s: Sys, v: Shot, r: Sys)
    requires Scene(s, v) && CanShot(v, HwFinalize, 0) && v.ops[0].queue == 0
    requires r.a == F.Finalize(s.a) && r.sides == Notify(s.sides, F.FinalizeEvent(s.a))
    ensures Scene(r, NextShot(v, HwFinalize, 0))
  {
  }

  lemma WriteBackScene(s: Sys, v: Shot, budget: nat, r: Sys)
    requires Scene(s, v) && CanShot(v, WriteBack(0), budget)
    requires r.a == F.Program(s.a, 0, F.SetCons(s.sides[0].consumed))
    requires r.sides == s.sides[0 := s.sides[0].(pc := if v.pc.done == budget then Scan(0) else Arm)]
    ensures Scene(r, NextShot(v, WriteBack(0), budget))
  {
  }

  lemma ArmScene(s: Sys, v: Shot, r: Sys)
    requires Scene(s, v) && CanShot(v, Rearm(0), 0)
    requires r.a == F.Program(s.a, 0, F.SetArm(true)) && r.sides == s.sides[0 := s.sides[0].(pc := Idle)]
    ensures Scene(r, NextShot(v, Rearm(0), 0))
  {
  }

  lemma FinalizeLooks(s: Sys, v: Shot, cplSize: nat)
    requires Looks(s, v) && CanShot(v, HwFinalize, 0) && Enabled(s.m, Head(s.m)) && cplSize > 0
    ensures Scene(NextFinalize(s, cplSize), NextShot(v, HwFinalize, 0))
  {
    LooksLike(s, v);
    S.FinalizeSimulates(s.m, s.a, Head(s.m).queue, Head(s.m).ptr, cplSize);
    FinalizeScene(s, v, NextFinalize(s, cplSize));
  }

  lemma ArmLooks(s: Sys, v: Shot, budget: nat, cplSize: nat)
    requires Looks(s, v) && CanShot(v, Rearm(0), budget) && cplSize > 0 && Open(s, 0)
    ensures Scene(NextRearm(s, 0, cplSize), NextShot(v, Rearm(0), budget))
  {
    var r := FirstArm(s, 0, budget, cplSize);
    ArmScene(s, v, r);
  }

  lemma LoopLooks(s: Sys, v: Shot, x: Step, budget: nat, cplSize: nat)
    requires Looks(s, v) && CanShot(v, x, budget) && CanStep(s, x, budget) && cplSize > 0
    requires x.Wake? || x.Poll? || x.Stop? || x.HwCommit?
    ensures Scene(Next(s, x, budget, cplSize), NextShot(v, x, budget))
  {
  }

  lemma StepScene(s: Sys, v: Shot, x: Step, budget: nat, cplSize: nat)
    requires Looks(s, v) && CanShot(v, x, budget) && CanStep(s, x, budget) && cplSize > 0
    ensures Scene(Next(s, x, budget, cplSize), NextShot(v, x, budget))
  {
    LooksLike(s, v);
    match x
    case HwRequest(_, tag) => RequestScene(s, v, tag, NextRequest(s, 0, tag, cplSize));
    case WriteRecord(_, payload) => WriteScene(s, v, payload);
    case HwFinalize => FinalizeLooks(s, v, cplSize);
    case WriteBack(_) => WriteBackScene(s, v, budget, NextWriteBack(s, 0, budget, cplSize));
    case Rearm(_) => ArmLooks(s, v, budget, cplSize);
    case _ => LoopLooks(s, v, x, budget, cplSize);
  }

  lemma StepLooks(s: Sys, v: Shot, x: Step, budget: nat, cplSize: nat) returns (r: Sys)
    requires Looks(s, v) && CanShot(v, x, budget) && 0 < cplSize <= 0x1_0000_0000
    ensures Leads(s, x, r, budget, cplSize) && Looks(r, NextShot(v, x, budget))
  {
    CanDo(s, v, x, budget);
    StepScene(s, v, x, budget, cplSize);
    StepKeepsInv(s, x, budget, cplSize);
    r := Next(s, x, budget, cplSize);
  }

  // ---- runs of it ----

  predicate ShotRuns(v: Shot, xs: seq<Step>, w: Shot, budget: nat)
    decreases |xs|
  {
    if xs == [] then w == v else CanShot(v, xs[0], budget) && ShotRuns(NextShot(v, xs[0], budget), xs[1..], w, budget)
  }

  // Every such run is one of the protocol.
  lemma {:induction false} RunLooks(s: Sys, v: Shot, xs: seq<Step>, w: Shot, budget: nat, cplSize: nat) returns (r: Sys)
    requires Looks(s, v) && ShotRuns(v, xs, w, budget) && 0 < cplSize <= 0x1_0000_0000
    ensures Runs(s, xs, r, budget, cplSize) && Looks(r, w)
    decreases |xs|
  {
    r := s;
    if xs != [] {
      var m := StepLooks(s, v, xs[0], budget, cplSize);
      r := RunLooks(m, NextShot(v, xs[0], budget), xs[1..], w, budget, cplSize);
    }
  }

  lemma {:induction false} RunsOn(s: Sys, xs: seq<Step>, m: Sys, ys: seq<Step>, r: Sys, budget: nat, cplSize: nat)
    requires cplSize > 0 && Runs(s, xs, m, budget, cplSize) && Runs(m, ys, r, budget, cplSize)
    ensures Runs(s, xs + ys, r, budget, cplSize)
    decreases |ys|
  {
    if ys == [] {
      assert xs + ys == xs;
    } else {
      var n := FirstOf(m, ys, r, budget, cplSize);
      RunsThen(s, xs, m, ys[0], n, budget, cplSize);
      RunsOn(s, xs + [ys[0]], n, ys[1..], r, budget, cplSize);
      MoveFirst(xs, ys);
    }
  }

  lemma FirstOf(s: Sys, xs: seq<Step>, m: Sys, budget: nat, cplSize: nat) returns (n: Sys)
    requires cplSize > 0 && Runs(s, xs, m, budget, cplSize) && xs != []
    ensures Leads(s, xs[0], n, budget, cplSize) && Runs(n, xs[1..], m, budget, cplSize)
  {
    n := Next(s, xs[0], budget, cplSize);
  }

  lemma MoveFirst(xs: seq<Step>, ys: seq<Step>)
    requires ys != []
    ensures xs + [ys[0]] + ys[1..] == xs + ys
  {
  }

  // ---- the scenarios ----

  // The hardware after reset with one queue and two table entries, no event on its way.
  lemma AfterReset() returns (s: Sys)
    ensures C.Booted(s, 1, 2) && Inv(s) && Closed(s, 0) && !s.sides[0].pending && s.a.queues[0].flags == BLANK.flags
  {
    s := Sys(Initial(1, 2), S.Reset(1, 2), [], [FreshSide(1, false)]);
    C.BootedIsOpened(s, 1, 2);
    OpenedInv(s);
  }

  lemma OpenLooks(s: Sys, o: Sys)
    requires C.Booted(s, 1, 2) && !s.sides[0].pending && s.a.queues[0].flags == BLANK.flags && FreshlyOpen(s, o, 0, 0, 0)
    ensures Looks(o, Shot(0, 0, false, [], Arm, false, 0, map[]))
  {
  }

  lemma {:induction false} ShotRunsThen(v: Shot, xs: seq<Step>, m: Shot, x: Step, budget: nat)
    requires ShotRuns(v, xs, m, budget) && CanShot(m, x, budget)
    ensures ShotRuns(v, xs + [x], NextShot(m, x, budget), budget)
    decreases |xs|
  {
    if xs == [] {
      assert xs + [x] == [x];
    } else {
      ShotRunsThen(NextShot(v, xs[0], budget), xs[1..], m, x, budget);
      assert (xs + [x])[1..] == xs[1..] + [x];
    }
  }

  lemma Then(v: Shot, xs: seq<Step>, m: Shot, x: Step, budget: nat) returns (more: seq<Step>, r: Shot)
    requires ShotRuns(v, xs, m, budget) && CanShot(m, x, budget)
    ensures more == xs + [x] && r == NextShot(m, x, budget) && ShotRuns(v, more, r, budget)
  {
    ShotRunsThen(v, xs, m, x, budget);
    more, r := xs + [x], NextShot(m, x, budget);
  }

  const OPENED := Shot(0, 0, false, [], Arm, false, 0, map[])

  // The queue is armed, and the hardware and the writer do their part of record 0, which rings.
  lemma RecordRings(payload: nat, budget: nat) returns (xs: seq<Step>, w: Shot)
    ensures ShotRuns(OPENED, xs, w, budget) && w == Shot(1, 0, false, [], Idle, true, 0, map[0 := payload])
  {
    xs, w := Then(OPENED, [], OPENED, Rearm(0), budget);
    xs, w := Then(OPENED, xs, w, HwRequest(0, 0), budget);
    assert w == Shot(0, 0, true, [F.Op(0, 1, false)], Idle, false, 0, map[]);
    xs, w := Then(OPENED, xs, w, WriteRecord(0, payload), budget);
    xs, w := Then(OPENED, xs, w, HwCommit(0), budget);
    assert w == Shot(0, 0, true, [F.Op(0, 1, true)], Idle, false, 0, map[0 := payload]);
    xs, w := Then(OPENED, xs, w, HwFinalize, budget);
  }

  // The driver takes it with a budget of one; record 1 is written, taken and released before the hardware finalizes
  // it, and record 2 is requested.
  lemma AheadOfFinalize(payload: nat, next: nat) returns (xs: seq<Step>, w: Shot)
    ensures ShotRuns(OPENED, xs, w, 1)
    ensures w == Shot(1, 2, false, [F.Op(0, 2, false), F.Op(0, 3, false)], Scan(0), false, 2, map[0 := payload, 1 := next])
  {
    xs, w := RecordRings(payload, 1);
    xs, w := Then(OPENED, xs, w, Wake(0), 1);
    xs, w := Then(OPENED, xs, w, Poll(0), 1);
    xs, w := Then(OPENED, xs, w, Stop(0), 1);
    xs, w := Then(OPENED, xs, w, WriteBack(0), 1);
    assert w == Shot(1, 1, false, [], Scan(0), false, 1, map[0 := payload]);
    xs, w := Then(OPENED, xs, w, HwRequest(0, 0), 1);
    xs, w := Then(OPENED, xs, w, WriteRecord(0, next), 1);
    assert w == Shot(1, 1, false, [F.Op(0, 2, false)], Scan(0), false, 1, map[0 := payload, 1 := next]);
    xs, w := Then(OPENED, xs, w, Poll(0), 1);
    xs, w := Then(OPENED, xs, w, Stop(0), 1);
    xs, w := Then(OPENED, xs, w, WriteBack(0), 1);
    assert w == Shot(1, 2, false, [F.Op(0, 2, false)], Scan(0), false, 2, map[0 := payload, 1 := next]);
    xs, w := Then(OPENED, xs, w, HwRequest(0, 0), 1);
  }

  // Opening from reset, then a run of the queue.
  lemma FromReset(xs: seq<Step>, w: Shot, budget: nat, cplSize: nat) returns (start: Sys, r: Sys)
    requires ShotRuns(OPENED, xs, w, budget) && 0 < cplSize <= 0x1_0000_0000
    ensures C.Booted(start, 1, 2) && Runs(start, OpenSteps(0, 0, 0, 0, 0) + xs, r, budget, cplSize) && Looks(r, w)
  {
    start := AfterReset();
    var o := OpeningAQueue(start, 0, 0, 0, 0, 0, budget, cplSize);
    OpenLooks(start, o);
    r := RunLooks(o, OPENED, xs, w, budget, cplSize);
    RunsOn(start, OpenSteps(0, 0, 0, 0, 0), o, xs, r, budget, cplSize);
  }

  lemma SameSlot(s: Sys, v: Shot)
    requires Looks(s, v) && v.ops == [F.Op(0, 2, false), F.Op(0, 3, false)]
    ensures F.Valid(s.a) && !DistinctSlots(s.a, 0)
  {
    assert Pow2(0) == 1;
    assert SlotOfOp(s.a, 0) == SlotOfOp(s.a, 1) == 0;
  }

  lemma GotBoth(s: Sys, v: Shot, payload: nat, next: nat)
    requires Looks(s, v) && v.consumed == 2 && v.written == map[0 := payload, 1 := next]
    ensures s.sides[0].got == [payload, next]
  {
    assert QueueInv(s, 0);
  }

  /** A run of hardware, writer and driver, from reset, in which two outstanding operations share a slot: with a budget
      of one the driver polls again without waiting for an event, and finds a record that is not yet finalized. */
  lemma SharedSlot(payload: nat, next: nat, cplSize: nat) returns (start: Sys, xs: seq<Step>, r: Sys)
    requires 0 < cplSize <= 0x1_0000_0000
    ensures C.Booted(start, 1, 2) && Runs(start, xs, r, 1, cplSize)
    ensures F.Valid(r.a) && r.a.ops == [F.Op(0, 2, false), F.Op(0, 3, false)] && !DistinctSlots(r.a, 0)
    ensures |r.sides| == 1 && r.sides[0].got == [payload, next]
  {
    var ys, w := AheadOfFinalize(payload, next);
    start, r := FromReset(ys, w, 1, cplSize);
    xs := OpenSteps(0, 0, 0, 0, 0) + ys;
    SameSlot(r, w);
    GotBoth(r, w, payload, next);
  }

  /** A run from reset after which the queue is armed and an event on its way: it is closed before the event of its
      first record is taken, and opened and armed again. */
  lemma LeftoverEvent(payload: nat, lo: nat, hi: nat, logSize: nat, eqn: nat, budget: nat, cplSize: nat)
      returns (start: Sys, xs: seq<Step>, r: Sys)
    requires logSize < 16 && eqn < PTR && 0 < cplSize <= 0x1_0000_0000
    ensures C.Booted(start, 1, 2) && Runs(start, xs, r, budget, cplSize)
    ensures Inv(r) && Open(r, 0) && r.a.queues[0].flags.armed && r.sides[0].pending
  {
    var ys, w := RecordRings(payload, budget);
    var s;
    start, s := FromReset(ys, w, budget, cplSize);
    LooksLike(s, w);
    assert F.Count(s.a.ops, 0) == 0;
    var zs := [CloseQueue(0)] + OpenSteps(0, lo, hi, logSize, eqn) + [Rearm(0)];
    r := LeftoverEventFails(s, 0, lo, hi, logSize, eqn, budget, cplSize);
    RunsOn(start, OpenSteps(0, 0, 0, 0, 0) + ys, s, zs, r, budget, cplSize);
    xs := OpenSteps(0, 0, 0, 0, 0) + ys + zs;
  }
}

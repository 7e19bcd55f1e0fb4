/**
 The completion protocol end to end: the queue manager, the completion writer, the ring memory and the
 driver, one step at a time in any interleaving. The driver never reads the producer pointer.
 */
module CplProtocol {
  import opened Arith
  import opened CplQueueManager
  import F = CplFifo
  import S = CplSimulation

  datatype Record = Record(phase: bool, payload: nat)

  // Where the poll routine is: waiting for an event, in the loop, after it, or about to re-arm.
  datatype Pc = Idle | Scan(done: nat) | Update(done: nat) | Arm

  // One queue as the driver sees it. consumed, written and got are ghost bookkeeping: the unbounded consumer
  // position, the payload of every record written so far, and the payloads handed to the driver, in order.
  datatype Side = Side(cons32: nat, buf: seq<Record>, pc: Pc, pending: bool,
                       consumed: nat, written: map<nat, nat>, got: seq<nat>)

  // A response the completion writer is working on. index is the unbounded position it stands for.
  datatype Job = Job(queue: nat, slot: nat, phase: bool, tag: nat, index: nat)

  // a is the list machine that m simulates; jobs[i] belongs to a.ops[i].
  datatype Sys = Sys(m: Manager, a: F.Fifo, jobs: seq<Job>, sides: seq<Side>)

  datatype Step =
    | HwRequest(queue: nat, tag: nat)
    | WriteRecord(job: nat, payload: nat)
    | HwCommit(job: nat)
    | HwFinalize
    | Wake(queue: nat)
    | Poll(queue: nat)
    | Stop(queue: nat)
    | WriteBack(queue: nat)
    | Rearm(queue: nat)
    // opening and closing: register writes to a queue that is not enabled, then enabling it; disabling it
    | Program(queue: nat, command: F.Command)
    | SetBase(queue: nat, reg: nat, data: nat)
    | EnableQueue(queue: nat)
    | CloseQueue(queue: nat)
    | ReadRegister(queue: nat, reg: nat)

  // ---- the driver's arithmetic ----

  function IndexOf(cons32: nat, size: nat): nat
    requires size > 0
  {
    cons32 % size
  }

  // The loop goes on when the phase bit differs from the lap bit of the consumer pointer.
  predicate Ready(buf: seq<Record>, cons32: nat)
    requires |buf| > 0
  {
    buf[IndexOf(cons32, |buf|)].phase != ((cons32 / |buf|) % 2 == 1)
  }

  predicate Available(side: Side)
    requires |side.buf| > 0
  {
    Ready(side.buf, side.cons32)
  }

  // The writer places the record at the address it was given, which names a slot of the ring.
  function SlotAt(addr: nat, base: nat, cplSize: nat): nat
    requires cplSize > 0
  {
    ((addr - base) % ADDRESS_SPACE) / cplSize
  }

  // ---- steps ----

  function RegisterWrite(q: nat, c: F.Command): StageOp { Write(q, 2, F.Encode(c), ALL_LANES) }

  ghost predicate Open(s: Sys, q: nat) {
    q < |s.m.ram| == |s.sides| == |s.a.queues| && s.a.queues[q].flags.enable
  }

  // A queue that is not enabled; its arm bit may be left over from before.
  ghost predicate Closed(s: Sys, q: nat) {
    q < |s.m.ram| == |s.sides| == |s.a.queues| && !s.a.queues[q].flags.enable
  }

  ghost predicate CanStep(s: Sys, x: Step, budget: nat)
    requires s.m.Valid()
  {
    match x
    case HwRequest(q, tag) => q < |s.m.ram| && Enabled(s.m, Request(q, tag))
    case WriteRecord(i, _) => i < |s.jobs| && s.jobs[i].queue < |s.sides| && s.jobs[i].index !in s.sides[s.jobs[i].queue].written
    case HwCommit(i) => i < |s.jobs| && s.jobs[i].queue < |s.sides| && s.jobs[i].index in s.sides[s.jobs[i].queue].written
    case HwFinalize => Enabled(s.m, Head(s.m))
    case Wake(q) => Open(s, q) && s.sides[q].pc.Idle? && s.sides[q].pending
    case Poll(q) => Open(s, q) && s.sides[q].pc.Scan? && s.sides[q].pc.done < budget
                    && |s.sides[q].buf| > 0 && Available(s.sides[q])
    case Stop(q) => Open(s, q) && s.sides[q].pc.Scan?
    case WriteBack(q) => Open(s, q) && s.sides[q].pc.Update?
    case Rearm(q) => Open(s, q) && s.sides[q].pc.Arm?
    case Program(q, c) => Closed(s, q) && c != F.SetEnable(true) && F.Legal(s.a, q, c)
    case SetBase(q, reg, _) => q < |s.m.ram| && reg < 2
    case EnableQueue(q) => Closed(s, q) && s.a.queues[q].fin == s.a.queues[q].cons == 0 && F.Count(s.a.ops, q) == 0
    case CloseQueue(q) => Open(s, q) && F.Count(s.a.ops, q) == 0
    case ReadRegister(q, reg) => q < |s.m.ram|
  }

  function Head(m: Manager): StageOp
    requires m.Valid()
  {
    Finalize(m.table.queue[m.table.finish], m.table.ptr[m.table.finish])
  }

  function Notify(sides: seq<Side>, e: Option<Event>): seq<Side> {
    if e.Some? && e.value.source < |sides| then
      sides[e.value.source := sides[e.value.source].(pending := true)]
    else sides
  }

  ghost predicate Valid(s: Sys) {
    S.Simulates(s.m, s.a) && |s.sides| == |s.m.ram| && |s.jobs| == |s.a.ops|
  }

  ghost function NextRequest(s: Sys, q: nat, tag: nat, cplSize: nat): Sys
    requires Valid(s) && q < |s.m.ram| && cplSize > 0
  {
    var r := EffectOf(s.m, Request(q, tag), cplSize).response;
    Sys(Apply(s.m, Request(q, tag), cplSize), F.Request(s.a, q),
        if r.Some? && !r.value.full && !r.value.error then
          s.jobs + [Job(q, SlotAt(r.value.addr, s.m.ram[q].BaseAddr(), cplSize), r.value.phase, r.value.opTag, s.a.Started(q))]
        else s.jobs,
        s.sides)
  }

  ghost function NextWrite(s: Sys, i: nat, payload: nat): Sys
    requires i < |s.jobs| && s.jobs[i].queue < |s.sides|
  {
    var j := s.jobs[i];
    var d := s.sides[j.queue];
    s.(sides := s.sides[j.queue := d.(
         buf := if j.slot < |d.buf| then d.buf[j.slot := Record(j.phase, payload)] else d.buf,
         written := d.written[j.index := payload])])
  }

  ghost function NextFinalize(s: Sys, cplSize: nat): Sys
    requires Valid(s) && Enabled(s.m, Head(s.m)) && cplSize > 0
  {
    S.FinalizeSimulates(s.m, s.a, Head(s.m).queue, Head(s.m).ptr, cplSize);
    Sys(Apply(s.m, Head(s.m), cplSize), F.Finalize(s.a), s.jobs[1..],
        Notify(s.sides, EffectOf(s.m, Head(s.m), cplSize).event))
  }

  // The driver takes the record at its position.
  ghost function Take(d: Side): Side
    requires d.pc.Scan? && |d.buf| > 0
  {
    d.(cons32 := (d.cons32 + 1) % U32, pc := Scan(d.pc.done + 1), consumed := d.consumed + 1,
       got := d.got + [d.buf[IndexOf(d.cons32, |d.buf|)].payload])
  }

  ghost function NextWriteBack(s: Sys, q: nat, budget: nat, cplSize: nat): Sys
    requires Valid(s) && Open(s, q) && s.sides[q].pc.Update?
  {
    var d := s.sides[q];
    Sys(Apply(s.m, RegisterWrite(q, F.SetCons(d.cons32)), cplSize), F.Program(s.a, q, F.SetCons(d.consumed)), s.jobs,
        s.sides[q := d.(pc := if d.pc.done == budget then Scan(0) else Arm)])
  }

  ghost function NextRearm(s: Sys, q: nat, cplSize: nat): Sys
    requires Valid(s) && Open(s, q)
  {
    var op := RegisterWrite(q, F.SetArm(true));
    Sys(Apply(s.m, op, cplSize), F.Program(s.a, q, F.SetArm(true)), s.jobs,
        Notify(s.sides[q := s.sides[q].(pc := Idle)], EffectOf(s.m, op, cplSize).event))
  }

  ghost function NextCommand(s: Sys, q: nat, c: F.Command, cplSize: nat): Sys
    requires Valid(s) && q < |s.m.ram|
  {
    s.(m := Apply(s.m, RegisterWrite(q, c), cplSize), a := F.Program(s.a, q, c))
  }

  ghost function NextBase(s: Sys, q: nat, reg: nat, d: nat, cplSize: nat): Sys
    requires Valid(s) && q < |s.m.ram|
  {
    var m' := Apply(s.m, Write(q, reg, d, ALL_LANES), cplSize);
    s.(m := m', a := s.a.(queues := s.a.queues[q := s.a.queues[q].(base := m'.ram[q].base)]))
  }

  // A newly opened queue: ring memory of ones, no phase bit set, pointers at zero, the first arm still to come. An
  // event from before may still be on its way.
  function FreshSide(size: nat, pending: bool): Side {
    Side(0, seq(size, _ => Record(false, 0x01)), Arm, pending, 0, map[], [])
  }

  ghost function NextEnable(s: Sys, q: nat, cplSize: nat): Sys
    requires Valid(s) && q < |s.m.ram|
  {
    NextCommand(s, q, F.SetEnable(true), cplSize)
      .(sides := s.sides[q := FreshSide(s.a.queues[q].Size(), s.sides[q].pending)])
  }

  ghost function Next(s: Sys, x: Step, budget: nat, cplSize: nat): Sys
    requires Valid(s) && CanStep(s, x, budget) && cplSize > 0
  {
    match x
    case HwRequest(q, tag) => NextRequest(s, q, tag, cplSize)
    case WriteRecord(i, payload) => NextWrite(s, i, payload)
    case HwCommit(i) => s.(m := CplQueueManager.Record(s.m, s.jobs[i].tag), a := F.Commit(s.a, i))
    case HwFinalize => NextFinalize(s, cplSize)
    case Wake(q) => s.(sides := s.sides[q := s.sides[q].(pc := Scan(0), pending := false)])
    case Poll(q) => s.(sides := s.sides[q := Take(s.sides[q])])
    case Stop(q) => s.(sides := s.sides[q := s.sides[q].(pc := Update(s.sides[q].pc.done))])
    case WriteBack(q) => NextWriteBack(s, q, budget, cplSize)
    case Rearm(q) => NextRearm(s, q, cplSize)
    case Program(q, c) => NextCommand(s, q, c, cplSize)
    case SetBase(q, reg, d) => NextBase(s, q, reg, d, cplSize)
    case EnableQueue(q) => NextEnable(s, q, cplSize)
    case CloseQueue(q) => NextCommand(s, q, F.SetEnable(false), cplSize)
    case ReadRegister(_, _) => s
  }

  // ---- invariant ----

  predicate PhaseOf(index: nat, size: nat)
    requires size > 0
  {
    (index / size) % 2 == 0
  }

  // What a slot of the current window of the ring shows.
  ghost predicate Shows(d: Side, i: nat)
    requires |d.buf| > 0
  {
    var r := d.buf[i % |d.buf|];
    if i in d.written then r == Record(PhaseOf(i, |d.buf|), d.written[i]) else r.phase == !PhaseOf(i, |d.buf|)
  }

  ghost predicate RingInv(d: Side, started: nat, fin: nat, hwCons: nat, size: nat) {
    && |d.buf| == size > 0
    && d.cons32 == d.consumed % U32
    && hwCons <= d.consumed <= started <= hwCons + size
    && (forall i :: i in d.written ==> i < started)
    && (forall i :: 0 <= i < d.consumed ==> i in d.written)
    && (forall i :: 0 <= i < fin ==> i in d.written)
    && |d.got| == d.consumed
    && (forall i :: 0 <= i < d.consumed ==> d.got[i] == d.written[i])
    && (forall i :: d.consumed <= i < d.consumed + size ==> Shows(d, i))
  }

  // An idle driver has the queue armed or an event on its way, and an arm under which nothing was finalized yet.
  ghost predicate WakeInv(d: Side, w: F.Queue) {
    && (d.pc.Idle? ==> w.flags.armed || d.pending)
    && (d.pc.Idle? && w.flags.armed ==> w.fin == w.cons)
    && (d.pc.Idle? || d.pc.Arm? ==> d.consumed == w.cons)
  }

  // No event is on its way of an armed queue, none while the loop runs, and before an arm only one that the arm will
  // ring again; bare, neither arm bit nor event outside of idle.
  ghost predicate OneEach(d: Side, w: F.Queue, bare: bool) {
    && (w.flags.armed ==> !d.pending && w.fin == w.cons)
    && (d.pc.Scan? || d.pc.Update? ==> !w.flags.armed && !d.pending)
    && (d.pc.Arm? && d.pending ==> w.fin > w.cons)
    && (bare && !d.pc.Idle? ==> !w.flags.armed && !d.pending)
  }

  ghost predicate QueueInv(s: Sys, q: nat)
    requires q < |s.a.queues| == |s.sides|
  {
    var w := s.a.queues[q];
    w.flags.enable ==> RingInv(s.sides[q], s.a.Started(q), w.fin, w.cons, w.Size()) && WakeInv(s.sides[q], w)
  }

  ghost predicate JobInv(s: Sys, i: nat)
    requires i < |s.jobs| == |s.a.ops| && |s.a.queues| == |s.sides| && s.a.ops[i].queue < |s.a.queues|
  {
    var j, op := s.jobs[i], s.a.ops[i];
    var w := s.a.queues[op.queue];
    && j.queue == op.queue && w.flags.enable && j.tag == s.a.Tag(i)
    && j.index + 1 == op.ptr
    && j.slot == j.index % w.Size() && j.phase == PhaseOf(j.index, w.Size())
    && (op.committed ==> j.index in s.sides[op.queue].written)
  }

  ghost predicate Inv(s: Sys) { Valid(s) && Parts(s) }

  // What holds of the list machine, the jobs and the driver, apart from the registers that simulate the machine.
  ghost predicate Parts(s: Sys) {
    && Matched(s)
    && (forall q :: 0 <= q < |s.a.queues| ==> !s.a.queues[q].flags.continuous)
    && (forall q :: 0 <= q < |s.sides| ==> QueueInv(s, q))
    && (forall i :: 0 <= i < |s.jobs| ==> JobInv(s, i))
  }

  ghost predicate Matched(s: Sys) {
    && |s.a.queues| == |s.sides| && |s.jobs| == |s.a.ops|
    && forall i :: 0 <= i < |s.a.ops| ==> s.a.ops[i].queue < |s.a.queues|
  }

  // ---- phase agreement ----

  lemma U32Laps(logSize: nat)
    requires logSize < 16
    ensures U32 == Pow2(logSize) * (2 * Pow2(31 - logSize))
  {
    Pow2Split(16, 31);
    assert Pow2(15) == 32768 && Pow2(16) == 65536;
    Pow2Split(logSize, 31);
    DoubleProduct(Pow2(logSize), Pow2(31 - logSize));
  }

  lemma DriverSeesLap(consumed: nat, logSize: nat)
    requires logSize < 16
    ensures
      var size := Pow2(logSize);
      && (consumed % U32) % size == consumed % size
      && (((consumed % U32) / size) % 2 == 1) == !PhaseOf(consumed, size)
  {
    U32Laps(logSize);
    S.LowDigits(consumed, Pow2(logSize), Pow2(31 - logSize), U32);
  }

  /** The phase test succeeds exactly when the record for the consumer's position has been written. */
  lemma PhaseAgrees(s: Sys, q: nat)
    requires Inv(s) && Open(s, q)
    ensures
      var d := s.sides[q];
      && |d.buf| > 0
      && IndexOf(d.cons32, |d.buf|) == d.consumed % |d.buf|
      && (Available(d) <==> d.consumed in d.written)
      && (Available(d) ==> d.buf[IndexOf(d.cons32, |d.buf|)].payload == d.written[d.consumed])
  {
    assert QueueInv(s, q);
    DriverSeesLap(s.sides[q].consumed, s.a.queues[q].flags.logSize);
    assert Shows(s.sides[q], s.sides[q].consumed);
  }

  // ---- the ring under each kind of step ----

  lemma NextLap(c: nat, size: nat)
    requires size > 0
    ensures (c + size) % size == c % size && PhaseOf(c + size, size) == !PhaseOf(c, size)
  {
    assert c == (c / size) * size + c % size;
    assert (c / size + 1) * size == (c / size) * size + size;
    DivModUnique(c + size, size, c / size + 1, c % size);
  }

  // Consuming the record at the consumer position: its slot now stands for the record one lap later.
  lemma ConsumeKeepsRing(d: Side, started: nat, fin: nat, hwCons: nat, size: nat, d': Side)
    requires RingInv(d, started, fin, hwCons, size) && d.consumed in d.written
    requires d'.buf == d.buf && d'.written == d.written && d'.consumed == d.consumed + 1
    requires d'.cons32 == (d.cons32 + 1) % U32 && d'.got == d.got + [d.written[d.consumed]]
    ensures RingInv(d', started, fin, hwCons, size)
  {
    assert d'.cons32 == d'.consumed % U32 by { ModAdd(d.consumed, 1, U32); }
    forall i | d'.consumed <= i < d'.consumed + size ensures Shows(d', i) {
      ShowsAfter(d, size, i, d');
    }
  }

  // One lap later the consumed slot stands for a record not yet written.
  lemma ShowsAfter(d: Side, size: nat, i: nat, d': Side)
    requires |d.buf| == size > 0 && d'.buf == d.buf && d'.written == d.written && d.consumed in d.written
    requires d.consumed < i <= d.consumed + size
    requires forall k :: d.consumed <= k < d.consumed + size ==> Shows(d, k)
    requires d.consumed + size !in d.written
    ensures Shows(d', i)
  {
    if i == d.consumed + size {
      NextLap(d.consumed, size);
      assert Shows(d, d.consumed);
    } else {
      assert Shows(d, i);
    }
  }

  // Writing a started record: no other position of the window shares its slot.
  lemma WriteKeepsRing(d: Side, started: nat, fin: nat, hwCons: nat, size: nat, index: nat, payload: nat, d': Side)
    requires RingInv(d, started, fin, hwCons, size) && index < started && index !in d.written
    requires d'.buf == d.buf[index % size := Record(PhaseOf(index, size), payload)]
    requires d'.written == d.written[index := payload]
    requires d'.consumed == d.consumed && d'.cons32 == d.cons32 && d'.got == d.got
    ensures RingInv(d', started, fin, hwCons, size)
    ensures d.consumed <= index < d.consumed + size
  {
    forall i | d.consumed <= i < d.consumed + size ensures Shows(d', i) {
      assert Shows(d, i);
      if i != index && i % size == index % size { ModInjective(i, index, size); }
    }
  }

  // ---- jobs ----

  lemma WriterSlot(base: nat, slot: nat, cplSize: nat)
    requires cplSize > 0 && slot * cplSize < ADDRESS_SPACE
    ensures SlotAt((base + slot * cplSize) % ADDRESS_SPACE, base, cplSize) == slot
  {
    var x := slot * cplSize;
    var addr := (base + x) % ADDRESS_SPACE;
    ModAdd(base + x, 0 - base, ADDRESS_SPACE);
    DivModUnique(x, ADDRESS_SPACE, 0, x);
    DivModUnique(x, cplSize, slot, 0);
  }

  lemma SlotFits(slot: nat, size: nat, cplSize: nat)
    requires slot < size <= 32768 && 0 < cplSize <= 0x1_0000_0000
    ensures slot * cplSize < ADDRESS_SPACE
  {
    TwoDigits(slot, 0, 32768, cplSize);
    assert cplSize * 32768 <= 0x1_0000_0000 * 32768;
  }

  // A queue has started a record since its request was answered without full and error.
  ghost predicate Starts(a: F.Fifo, q: nat)
    requires q < |a.queues|
  {
    a.queues[q].flags.enable && a.Started(q) < a.queues[q].cons + a.queues[q].Size()
  }

  ghost function JobOf(a: F.Fifo, q: nat): Job
    requires q < |a.queues|
  {
    var n, size := a.Started(q), a.queues[q].Size();
    Job(q, n % size, PhaseOf(n, size), a.Tag(|a.ops|), n)
  }

  // The writer finds slot, phase, tag and position of the record in the response.
  lemma ResponseIsJob(s: Sys, q: nat, tag: nat, cplSize: nat)
    requires Inv(s) && q < |s.m.ram| && Enabled(s.m, Request(q, tag)) && 0 < cplSize <= 0x1_0000_0000
    ensures
      var r := EffectOf(s.m, Request(q, tag), cplSize).response;
      && r.Some? && (Starts(s.a, q) <==> !r.value.full && !r.value.error)
      && (Starts(s.a, q) ==>
            Job(q, SlotAt(r.value.addr, s.m.ram[q].BaseAddr(), cplSize), r.value.phase, r.value.opTag, s.a.Started(q))
            == JobOf(s.a, q))
  {
    S.RequestAnswers(s.m, s.a, q, tag, cplSize);
    if s.a.queues[q].flags.enable {
      var w, n := s.a.queues[q], s.a.Started(q);
      S.PointersClose(s.a, q);
      SlotFits(n % w.Size(), w.Size(), cplSize);
      WriterSlot(s.m.ram[q].BaseAddr(), n % w.Size(), cplSize);
    }
  }

  lemma RequestKeepsInv(s: Sys, q: nat, tag: nat, cplSize: nat)
    requires Inv(s) && q < |s.m.ram| && Enabled(s.m, Request(q, tag)) && 0 < cplSize <= 0x1_0000_0000
    ensures Inv(NextRequest(s, q, tag, cplSize))
  {
    var r := NextRequest(s, q, tag, cplSize);
    ResponseIsJob(s, q, tag, cplSize);
    S.RequestAnswers(s.m, s.a, q, tag, cplSize);
    S.RequestSimulates(s.m, s.a, q, tag, cplSize);
    F.RequestKeepsValid(s.a, q);
    assert r.jobs == if Starts(s.a, q) then s.jobs + [JobOf(s.a, q)] else s.jobs;
    RequestKeepsParts(s, q, r);
  }

  lemma RequestKeepsParts(s: Sys, q: nat, r: Sys)
    requires Inv(s) && q < |s.m.ram| && |s.a.ops| < s.a.entries
    requires r.a == F.Request(s.a, q) && S.Simulates(r.m, r.a) && r.sides == s.sides
    requires r.jobs == if Starts(s.a, q) then s.jobs + [JobOf(s.a, q)] else s.jobs
    ensures Inv(r)
  {
    F.RequestKeepsValid(s.a, q);
    forall p | 0 <= p < |r.sides| ensures QueueInv(r, p) { assert QueueInv(s, p); }
    forall i | 0 <= i < |r.jobs| ensures JobInv(r, i) {
      if i < |s.jobs| { assert JobInv(s, i); }
    }
  }

  lemma WriteKeepsInv(s: Sys, i: nat, payload: nat)
    requires Inv(s) && i < |s.jobs| && s.jobs[i].queue < |s.sides| && s.jobs[i].index !in s.sides[s.jobs[i].queue].written
    ensures Inv(NextWrite(s, i, payload))
  {
    var r := NextWrite(s, i, payload);
    var j := s.jobs[i];
    var q := j.queue;
    assert JobInv(s, i) && QueueInv(s, q);
    OutstandingBelowStarted(s.a, i);
    var w := s.a.queues[q];
    WriteKeepsRing(s.sides[q], s.a.Started(q), w.fin, w.cons, w.Size(), j.index, payload, r.sides[q]);
    forall p | 0 <= p < |r.sides| ensures QueueInv(r, p) { assert QueueInv(s, p); }
    forall k | 0 <= k < |r.jobs| ensures JobInv(r, k) { assert JobInv(s, k); }
  }

  lemma OutstandingBelowStarted(a: F.Fifo, i: nat)
    requires F.Valid(a) && i < |a.ops|
    ensures a.queues[a.ops[i].queue].fin < a.ops[i].ptr <= a.Started(a.ops[i].queue)
  {
    var q := a.ops[i].queue;
    assert F.PtrOk(a, i);
    F.CountSplit(a.ops, i, q);
    F.CountHead(a.ops[i..], q);
  }

  lemma CommitKeepsInv(s: Sys, i: nat, r: Sys)
    requires Inv(s) && i < |s.jobs| && s.jobs[i].queue < |s.sides| && s.jobs[i].index in s.sides[s.jobs[i].queue].written
    requires r == s.(m := CplQueueManager.Record(s.m, s.jobs[i].tag), a := F.Commit(s.a, i))
    ensures Inv(r)
  {
    assert JobInv(s, i);
    S.CommitSimulates(s.m, s.a, i);
    F.CommitKeepsValid(s.a, i);
    forall p | 0 <= p < |r.sides| ensures QueueInv(r, p) { assert QueueInv(s, p); }
    forall k | 0 <= k < |r.jobs| ensures JobInv(r, k) { assert JobInv(s, k); }
  }

  lemma FinalizeKeepsInv(s: Sys, cplSize: nat)
    requires Inv(s) && Enabled(s.m, Head(s.m)) && cplSize > 0
    ensures Inv(NextFinalize(s, cplSize))
  {
    S.FinalizeSimulates(s.m, s.a, Head(s.m).queue, Head(s.m).ptr, cplSize);
    FinalizeKeepsParts(s, NextFinalize(s, cplSize));
  }

  lemma FinalizeKeepsParts(s: Sys, r: Sys)
    requires Parts(s) && F.Valid(s.a) && s.a.ops != [] && s.a.ops[0].committed
    requires r.a == F.Finalize(s.a) && r.jobs == s.jobs[1..]
    requires r.sides == Notify(s.sides, F.FinalizeEvent(s.a))
    ensures Parts(r)
  {
    F.FinalizeKeepsValid(s.a);
    assert JobInv(s, 0);
    forall p | 0 <= p < |r.sides| ensures QueueInv(r, p) { FinalizeKeepsQueue(s, r, p); }
    forall k | 0 <= k < |r.jobs| ensures JobInv(r, k) {
      assert r.a.Tag(k) == s.a.Tag(k + 1);
      FinalizeKeepsJob(s, r, k);
    }
  }

  lemma FinalizeKeepsJob(s: Sys, r: Sys, k: nat)
    requires Parts(s) && s.a.ops != [] && k + 1 < |s.jobs|
    requires r.a == F.Finalize(s.a) && r.jobs == s.jobs[1..] && r.a.Tag(k) == s.a.Tag(k + 1)
    requires r.sides == Notify(s.sides, F.FinalizeEvent(s.a))
    ensures k < |r.jobs| == |r.a.ops| && |r.a.queues| == |r.sides| && r.a.ops[k].queue < |r.a.queues| && JobInv(r, k)
  {
    assert JobInv(s, k + 1);
  }

  // Finalizing an armed queue disarms it and rings, so an idle driver keeps one of the two.
  lemma FinalizeKeepsQueue(s: Sys, r: Sys, p: nat)
    requires Parts(s) && s.a.ops != [] && s.a.ops[0].committed && p < |s.sides|
    requires r.a == F.Finalize(s.a) && r.sides == Notify(s.sides, F.FinalizeEvent(s.a))
    requires r.a.Started(p) == s.a.Started(p) && s.a.ops[0].ptr == s.a.queues[s.a.ops[0].queue].fin + 1
    ensures |r.a.queues| == |r.sides| == |s.sides| && QueueInv(r, p)
  {
    assert QueueInv(s, p) && JobInv(s, 0);
    var w, d, d' := s.a.queues[p], s.sides[p], r.sides[p];
    if w.flags.enable && p == s.a.ops[0].queue {
      RingFinalized(d, d', s.a.Started(p), w.fin, w.cons, w.Size());
    }
  }

  // Only the pending flag changes, and the record of the finalized position is there.
  lemma RingFinalized(d: Side, d': Side, started: nat, fin: nat, hwCons: nat, size: nat)
    requires RingInv(d, started, fin, hwCons, size) && d' == d.(pending := d'.pending) && fin in d.written
    ensures RingInv(d', started, fin + 1, hwCons, size)
  {
    assert forall i :: Shows(d, i) == Shows(d', i);
  }

  // ---- the driver's steps ----

  // Steps that touch one side only.
  lemma SideStepKeepsInv(s: Sys, q: nat, d: Side)
    requires Inv(s) && Open(s, q) && d.written == s.sides[q].written
    requires
      var w := s.a.queues[q];
      RingInv(d, s.a.Started(q), w.fin, w.cons, w.Size()) && WakeInv(d, w)
    ensures Inv(s.(sides := s.sides[q := d]))
  {
    var r := s.(sides := s.sides[q := d]);
    forall p | 0 <= p < |r.sides| ensures QueueInv(r, p) { assert QueueInv(s, p); }
    forall k | 0 <= k < |r.jobs| ensures JobInv(r, k) { assert JobInv(s, k); }
  }

  lemma PollKeepsInv(s: Sys, q: nat)
    requires Inv(s) && Open(s, q) && s.sides[q].pc.Scan? && |s.sides[q].buf| > 0 && Available(s.sides[q])
    ensures Inv(s.(sides := s.sides[q := Take(s.sides[q])]))
  {
    var w := s.a.queues[q];
    assert QueueInv(s, q);
    PhaseAgrees(s, q);
    ConsumeKeepsRing(s.sides[q], s.a.Started(q), w.fin, w.cons, w.Size(), Take(s.sides[q]));
    SideStepKeepsInv(s, q, Take(s.sides[q]));
  }

  // Only the program counter or the pending flag changes.
  lemma SameRing(d: Side, d': Side, started: nat, fin: nat, hwCons: nat, size: nat)
    requires RingInv(d, started, fin, hwCons, size) && d' == d.(pc := d'.pc, pending := d'.pending)
    ensures RingInv(d', started, fin, hwCons, size)
  {
    assert forall i :: Shows(d, i) == Shows(d', i);
  }

  lemma WakeKeepsInv(s: Sys, q: nat)
    requires Inv(s) && Open(s, q) && s.sides[q].pc.Idle? && s.sides[q].pending
    ensures Inv(s.(sides := s.sides[q := s.sides[q].(pc := Scan(0), pending := false)]))
  {
    var w, d' := s.a.queues[q], s.sides[q].(pc := Scan(0), pending := false);
    assert QueueInv(s, q);
    SameRing(s.sides[q], d', s.a.Started(q), w.fin, w.cons, w.Size());
    SideStepKeepsInv(s, q, d');
  }

  lemma StopKeepsInv(s: Sys, q: nat)
    requires Inv(s) && Open(s, q) && s.sides[q].pc.Scan?
    ensures Inv(s.(sides := s.sides[q := s.sides[q].(pc := Update(s.sides[q].pc.done))]))
  {
    var w, d' := s.a.queues[q], s.sides[q].(pc := Update(s.sides[q].pc.done));
    assert QueueInv(s, q);
    SameRing(s.sides[q], d', s.a.Started(q), w.fin, w.cons, w.Size());
    SideStepKeepsInv(s, q, d');
  }

  // A register write changes the flags or the consumer counter of its queue only.
  lemma ProgramStepKeepsParts(s: Sys, q: nat, c: F.Command, r: Sys)
    requires Parts(s) && q < |s.sides| && s.a.queues[q].flags.enable && (c.SetCons? || c.SetArm?)
    requires r.a == F.Program(s.a, q, c) && r.jobs == s.jobs
    requires |r.sides| == |s.sides| && (forall p :: 0 <= p < |s.sides| && p != q ==> r.sides[p] == s.sides[p])
    requires r.sides[q].written == s.sides[q].written
    requires
      var w := r.a.queues[q];
      RingInv(r.sides[q], s.a.Started(q), w.fin, w.cons, w.Size()) && WakeInv(r.sides[q], w)
    ensures Parts(r)
  {
    forall p | 0 <= p < |r.sides| ensures QueueInv(r, p) {
      if p != q { OtherQueueStays(s, r, q, p); }
    }
    forall k | 0 <= k < |r.jobs| ensures JobInv(r, k) { JobStays(s, r, q, k); }
  }

  lemma OtherQueueStays(s: Sys, r: Sys, q: nat, p: nat)
    requires |s.a.queues| == |s.sides| == |r.sides| == |r.a.queues| && q < |s.sides| && p < |s.sides| && p != q
    requires r.a == s.a.(queues := s.a.queues[q := r.a.queues[q]]) && r.sides[p] == s.sides[p] && QueueInv(s, p)
    ensures QueueInv(r, p)
  {
  }

  // A job does not depend on a queue's pointers or arm bit.
  lemma JobStays(s: Sys, r: Sys, q: nat, k: nat)
    requires |s.a.queues| == |s.sides| == |r.sides| == |r.a.queues| && q < |s.sides|
    requires k < |s.jobs| == |s.a.ops| && r.jobs == s.jobs && s.a.ops[k].queue < |s.a.queues| && JobInv(s, k)
    requires r.a == s.a.(queues := s.a.queues[q := r.a.queues[q]])
    requires r.a.queues[q].flags.enable == s.a.queues[q].flags.enable
    requires r.a.queues[q].flags.logSize == s.a.queues[q].flags.logSize
    requires forall p :: 0 <= p < |s.sides| ==> r.sides[p].written == s.sides[p].written
    ensures JobInv(r, k)
  {
  }

  // The driver writes its 32-bit pointer masked to 16 bits, which is the counter masked to 16 bits.
  lemma MaskedPointer(consumed: nat)
    ensures F.Encode(F.SetCons(consumed % U32)) == F.Encode(F.SetCons(consumed))
  {
    ModOfMod(consumed, PTR, PTR);
    assert PTR * PTR == U32;
  }

  lemma WriteBackKeepsInv(s: Sys, q: nat, budget: nat, cplSize: nat)
    requires Inv(s) && Open(s, q) && s.sides[q].pc.Update?
    ensures Inv(NextWriteBack(s, q, budget, cplSize))
  {
    var r, d := NextWriteBack(s, q, budget, cplSize), s.sides[q];
    var w := s.a.queues[q];
    assert QueueInv(s, q);
    MaskedPointer(d.consumed);
    S.CommandSimulates(s.m, s.a, q, F.SetCons(d.consumed), 2, ALL_LANES, cplSize);
    SameRing(d, r.sides[q], s.a.Started(q), w.fin, w.cons, w.Size());
    ProgramStepKeepsParts(s, q, F.SetCons(d.consumed), r);
  }

  lemma RearmKeepsInv(s: Sys, q: nat, cplSize: nat)
    requires Inv(s) && Open(s, q) && s.sides[q].pc.Arm?
    ensures Inv(NextRearm(s, q, cplSize))
  {
    var r, d, w := NextRearm(s, q, cplSize), s.sides[q], s.a.queues[q];
    assert QueueInv(s, q);
    S.CommandSimulates(s.m, s.a, q, F.SetArm(true), 2, ALL_LANES, cplSize);
    var ring := F.Rings(w, F.SetArm(true));
    assert r.sides[q] == d.(pc := Idle, pending := d.pending || ring);
    SameRing(d, r.sides[q], s.a.Started(q), w.fin, w.cons, w.Size());
    ProgramStepKeepsParts(s, q, F.SetArm(true), r);
  }

  // ---- opening and closing ----

  // A register write to a queue without outstanding operations, which is not enabled afterwards.
  lemma ClosedQueueKeepsInv(s: Sys, q: nat, r: Sys)
    requires Inv(s) && q < |s.m.ram| && F.Count(s.a.ops, q) == 0 && S.Simulates(r.m, r.a)
    requires r.sides == s.sides && r.jobs == s.jobs && |r.a.queues| == |s.a.queues| && r.a == s.a.(queues := r.a.queues)
    requires forall p :: 0 <= p < |s.a.queues| && p != q ==> r.a.queues[p] == s.a.queues[p]
    requires !r.a.queues[q].flags.enable && !r.a.queues[q].flags.continuous
    ensures Inv(r)
  {
    F.CountNone(s.a.ops, q);
    forall p | 0 <= p < |r.sides| ensures QueueInv(r, p) { assert QueueInv(s, p); }
    forall k | 0 <= k < |r.jobs| ensures JobInv(r, k) { assert JobInv(s, k); }
  }

  // No operation of a queue that is not enabled is outstanding.
  lemma ClosedHasNothing(s: Sys, q: nat)
    requires Inv(s) && Closed(s, q)
    ensures F.Count(s.a.ops, q) == 0
  {
    F.CountNone(s.a.ops, q);
    forall i | 0 <= i < |s.a.ops| ensures s.a.ops[i].queue != q { assert JobInv(s, i); }
  }

  lemma ProgramKeepsInv(s: Sys, q: nat, c: F.Command, cplSize: nat)
    requires Inv(s) && Closed(s, q) && c != F.SetEnable(true) && F.Legal(s.a, q, c)
    ensures Inv(NextCommand(s, q, c, cplSize))
  {
    S.CommandSimulates(s.m, s.a, q, c, 2, ALL_LANES, cplSize);
    ClosedHasNothing(s, q);
    ClosedQueueKeepsInv(s, q, NextCommand(s, q, c, cplSize));
  }

  lemma CloseKeepsInv(s: Sys, q: nat, cplSize: nat)
    requires Inv(s) && Open(s, q) && F.Count(s.a.ops, q) == 0
    ensures Inv(NextCommand(s, q, F.SetEnable(false), cplSize))
  {
    S.CommandSimulates(s.m, s.a, q, F.SetEnable(false), 2, ALL_LANES, cplSize);
    ClosedQueueKeepsInv(s, q, NextCommand(s, q, F.SetEnable(false), cplSize));
  }

  lemma BaseKeepsInv(s: Sys, q: nat, reg: nat, d: nat, cplSize: nat)
    requires Inv(s) && q < |s.m.ram| && reg < 2
    ensures Inv(NextBase(s, q, reg, d, cplSize))
  {
    var r := NextBase(s, q, reg, d, cplSize);
    S.BaseSimulates(s.m, s.a, q, reg, d, ALL_LANES, cplSize);
    forall p | 0 <= p < |r.sides| ensures QueueInv(r, p) { assert QueueInv(s, p); }
    forall k | 0 <= k < |r.jobs| ensures JobInv(r, k) { assert JobInv(s, k); }
  }

  lemma FreshRing(size: nat, pending: bool)
    requires size > 0
    ensures RingInv(FreshSide(size, pending), 0, 0, 0, size)
  {
    var d := FreshSide(size, pending);
    forall i | 0 <= i < size ensures Shows(d, i) { DivModUnique(i, size, 0, i); }
  }

  lemma EnableKeepsInv(s: Sys, q: nat, cplSize: nat)
    requires Inv(s) && CanStep(s, EnableQueue(q), 0)
    ensures Inv(NextEnable(s, q, cplSize))
  {
    var r, w := NextEnable(s, q, cplSize), s.a.queues[q];
    S.CommandSimulates(s.m, s.a, q, F.SetEnable(true), 2, ALL_LANES, cplSize);
    FreshRing(w.Size(), s.sides[q].pending);
    EnableKeepsParts(s, q, r);
  }

  lemma EnableKeepsParts(s: Sys, q: nat, r: Sys)
    requires Parts(s) && q < |s.sides| && F.Count(s.a.ops, q) == 0 && s.a.queues[q].fin == s.a.queues[q].cons == 0
    requires r.a == F.Program(s.a, q, F.SetEnable(true)) && r.jobs == s.jobs
    requires r.sides == s.sides[q := FreshSide(s.a.queues[q].Size(), s.sides[q].pending)]
    requires RingInv(r.sides[q], 0, 0, 0, s.a.queues[q].Size())
    ensures Parts(r)
  {
    F.CountNone(s.a.ops, q);
    forall p | 0 <= p < |r.sides| ensures QueueInv(r, p) { assert QueueInv(s, p); }
    forall k | 0 <= k < |r.jobs| ensures JobInv(r, k) { assert JobInv(s, k); }
  }

  /** Every step of every component, in any interleaving, opening and closing included, keeps the protocol
      invariant. */
  lemma StepKeepsInv(s: Sys, x: Step, budget: nat, cplSize: nat)
    requires Inv(s) && CanStep(s, x, budget) && 0 < cplSize <= 0x1_0000_0000
    ensures Inv(Next(s, x, budget, cplSize))
  {
    match x
    case HwRequest(q, tag) => RequestKeepsInv(s, q, tag, cplSize);
    case WriteRecord(i, payload) => WriteKeepsInv(s, i, payload);
    case HwCommit(i) => CommitKeepsInv(s, i, Next(s, x, budget, cplSize));
    case HwFinalize => FinalizeKeepsInv(s, cplSize);
    case Wake(q) => WakeKeepsInv(s, q);
    case Poll(q) => PollKeepsInv(s, q);
    case Stop(q) => StopKeepsInv(s, q);
    case WriteBack(q) => WriteBackKeepsInv(s, q, budget, cplSize);
    case Rearm(q) => RearmKeepsInv(s, q, cplSize);
    case Program(q, c) => ProgramKeepsInv(s, q, c, cplSize);
    case SetBase(q, reg, d) => BaseKeepsInv(s, q, reg, d, cplSize);
    case EnableQueue(q) => EnableKeepsInv(s, q, cplSize);
    case CloseQueue(q) => CloseKeepsInv(s, q, cplSize);
    case ReadRegister(_, _) =>
  }
}

/**
 Whole runs of the pipeline against whole runs of the serial machine.
 */
module CplRefinement {
  import opened Arith
  import opened CplQueueManager
  import opened CplPipeline

  datatype Atomic = Do(op: StageOp) | Commit(tag: nat)

  datatype Outputs = Outputs(responses: seq<Response>, rdata: seq<nat>, acks: nat, events: seq<Event>)

  const SILENT := Outputs([], [], 0, [])

  function Emit(o: Outputs, e: Effect): Outputs {
    Outputs(o.responses + Opt(e.response), o.rdata + Opt(e.rdata), o.acks + Bit(e.ack, 1), o.events + Opt(e.event))
  }

  // ---- serial runs ----

  datatype Serial = Serial(m: Manager, out: Outputs)

  ghost predicate Allowed(m: Manager, a: Atomic) {
    m.Valid() && (a.Do? ==> !a.op.Empty? && a.op.Valid(|m.ram|) && Enabled(m, a.op))
  }

  function SerialStep(s: Serial, a: Atomic, cplSize: nat): (r: Serial)
    requires Allowed(s.m, a)
    ensures r.m.Valid() && |r.m.ram| == |s.m.ram|
  {
    match a
    case Do(op) => Serial(Apply(s.m, op, cplSize), Emit(s.out, EffectOf(s.m, op, cplSize)))
    case Commit(tag) => Serial(Record(s.m, tag), s.out)
  }

  // s is where the serial machine arrives from start by executing ops, each enabled when its turn comes.
  ghost predicate SerialReaches(start: Manager, ops: seq<Atomic>, s: Serial, cplSize: nat)
    decreases |ops|, 1
  {
    if ops == [] then s == Serial(start, SILENT)
    else exists before: Serial :: SerialExtends(start, ops, before, s, cplSize)
  }

  ghost predicate SerialExtends(start: Manager, ops: seq<Atomic>, before: Serial, s: Serial, cplSize: nat)
    requires ops != []
    decreases |ops|, 0
  {
    var last := |ops| - 1;
    SerialReaches(start, ops[..last], before, cplSize) && Allowed(before.m, ops[last])
    && s == SerialStep(before, ops[last], cplSize)
  }

  lemma SerialAppend(start: Manager, ops: seq<Atomic>, s: Serial, a: Atomic, cplSize: nat)
    requires SerialReaches(start, ops, s, cplSize) && Allowed(s.m, a)
    ensures SerialReaches(start, ops + [a], SerialStep(s, a, cplSize), cplSize)
  {
    assert (ops + [a])[..|ops|] == ops;
    assert SerialExtends(start, ops + [a], s, SerialStep(s, a, cplSize), cplSize);
  }

  // ---- pipeline runs ----

  // What a run has done so far: the serial operations it amounts to, the operations accepted at stage 0,
  // the outputs taken by their sinks, and the events overwritten before the sink took them.
  datatype Trace = Trace(rtl: Rtl, ops: seq<Atomic>, accepted: seq<StageOp>, sent: Outputs, lost: nat)

  function ToOps(op: StageOp): seq<StageOp> { if op.Empty? then [] else [op] }

  function Doing(ops: seq<StageOp>): seq<Atomic> { if ops == [] then [] else [Do(ops[0])] }

  function Recording(tag: Option<nat>): seq<Atomic> { if tag.Some? then [Commit(tag.value)] else [] }

  // The trace after an edge at which the last stage decides e and x enters.
  function TraceEdge(t: Trace, i: Input, e: Effect, x: StageOp): Trace
    requires Shape(t.rtl) && Fits(e, Last(t.rtl), t.rtl.fetch[|t.rtl.fetch| - 1]) && x.Valid(|t.rtl.m.ram|)
  {
    var s := t.rtl;
    Trace(Edge(s, i, e, x),
          t.ops + Doing(ToOps(Last(s))) + Recording(CommitTag(s, i)),
          t.accepted + ToOps(x),
          Outputs(t.sent.responses + (if i.respReady then Opt(s.regs.resp) else []),
                  t.sent.rdata + (if i.rready then Opt(s.regs.rdata) else []),
                  t.sent.acks + Bit(s.regs.bvalid && i.bready, 1),
                  t.sent.events + (if i.eventReady then Opt(s.regs.event) else [])),
          t.lost + Bit(e.event.Some? && s.regs.event.Some? && !i.eventReady, 1))
  }

  function TraceStep(t: Trace, i: Input, cplSize: nat): Trace
    requires Shape(t.rtl) && i.Valid(|t.rtl.m.ram|)
  {
    DispatchAdmits(t.rtl, i);
    TraceEdge(t, i, LastEffect(t.rtl, cplSize), Dispatch(t.rtl, i))
  }

  // t is the trace of the inputs ins from reset.
  ghost predicate Traces(queues: nat, entries: nat, stages: nat, ins: seq<Input>, t: Trace, cplSize: nat)
    requires queues > 0 && entries > 0
    decreases |ins|, 1
  {
    if ins == [] then t == Trace(Reset(queues, entries, stages), [], [], SILENT, 0)
    else exists before: Trace :: TraceExtends(queues, entries, stages, ins, before, t, cplSize)
  }

  ghost predicate TraceExtends(queues: nat, entries: nat, stages: nat, ins: seq<Input>, before: Trace, t: Trace, cplSize: nat)
    requires queues > 0 && entries > 0 && ins != []
    decreases |ins|, 0
  {
    var last := |ins| - 1;
    Traces(queues, entries, stages, ins[..last], before, cplSize)
    && Shape(before.rtl) && ins[last].Valid(|before.rtl.m.ram|) && t == TraceStep(before, ins[last], cplSize)
  }

  // The operations still in the pipeline, oldest first.
  function InFlight(pipe: seq<StageOp>): seq<StageOp> {
    if pipe == [] then [] else ToOps(pipe[|pipe| - 1]) + InFlight(pipe[..|pipe| - 1])
  }

  lemma {:induction false} InFlightEnters(x: StageOp, rest: seq<StageOp>)
    ensures InFlight([x] + rest) == InFlight(rest) + ToOps(x)
  {
    if rest == [] {
      assert ([x] + rest)[..0] == [];
      assert [x] + rest == [x];
    } else {
      var n := |rest| - 1;
      assert ([x] + rest)[..n + 1] == [x] + rest[..n];
      InFlightEnters(x, rest[..n]);
    }
  }

  // Performed operations in order: the Do entries.
  function Performed(ops: seq<Atomic>): seq<StageOp> {
    if ops == [] then []
    else Performed(ops[..|ops| - 1]) + (if ops[|ops| - 1].Do? then [ops[|ops| - 1].op] else [])
  }

  lemma PerformedAppend(ops: seq<Atomic>, a: Atomic)
    ensures Performed(ops + [a]) == Performed(ops) + (if a.Do? then [a.op] else [])
  {
    assert (ops + [a])[..|ops|] == ops;
  }

  // Outputs of the serial run that the pipeline still holds in its result registers.
  ghost predicate Agrees(serial: Outputs, t: Trace) {
    && serial.responses == t.sent.responses + Opt(t.rtl.regs.resp)
    && serial.rdata == t.sent.rdata + Opt(t.rtl.regs.rdata)
    && serial.acks == t.sent.acks + Bit(t.rtl.regs.bvalid, 1)
    && |serial.events| == |t.sent.events| + |Opt(t.rtl.regs.event)| + t.lost
    && (t.lost == 0 ==> serial.events == t.sent.events + Opt(t.rtl.regs.event))
  }

  ghost predicate Matches(start: Manager, t: Trace, serial: Serial, cplSize: nat) {
    && Inv(t.rtl)
    && SerialReaches(start, t.ops, serial, cplSize)
    && serial.m == Abs(t.rtl)
    && Agrees(serial.out, t)
    && t.accepted == Performed(t.ops) + InFlight(t.rtl.pipe)
  }

  // The outputs of one clock edge.
  lemma EdgeAgrees(t: Trace, i: Input, e: Effect, x: StageOp, serial: Outputs)
    requires Stepping(t.rtl, i, e, x) && Agrees(serial, t)
    ensures Agrees(Emit(serial, e), TraceEdge(t, i, e, x))
  {
  }

  lemma EdgeAccepts(t: Trace, i: Input, e: Effect, x: StageOp)
    requires Stepping(t.rtl, i, e, x) && t.accepted == Performed(t.ops) + InFlight(t.rtl.pipe)
    ensures
      var r := TraceEdge(t, i, e, x);
      r.accepted == Performed(r.ops) + InFlight(r.rtl.pipe)
  {
    var s, op, tag := t.rtl, Last(t.rtl), CommitTag(t.rtl, i);
    var rest := s.pipe[..|s.pipe| - 1];
    assert Edge(s, i, e, x).pipe == [x] + rest;
    InFlightEnters(x, rest);
    PerformedGrows(t.ops, op, tag);
    assert InFlight(s.pipe) == ToOps(op) + InFlight(rest);
    Regroup4(Performed(t.ops), ToOps(op), InFlight(rest), ToOps(x));
  }

  lemma Regroup4(a: seq<StageOp>, b: seq<StageOp>, c: seq<StageOp>, d: seq<StageOp>)
    ensures (a + (b + c)) + d == (a + b) + (c + d)
  {
  }

  lemma PerformedGrows(ops: seq<Atomic>, op: StageOp, tag: Option<nat>)
    ensures Performed(ops + Doing(ToOps(op)) + Recording(tag)) == Performed(ops) + ToOps(op)
  {
    var ops1 := ops + Doing(ToOps(op));
    if op.Empty? { assert ops1 == ops; } else { PerformedAppend(ops, Do(op)); }
    if tag.Some? { PerformedAppend(ops1, Commit(tag.value)); } else { assert ops1 + Recording(tag) == ops1; }
  }

  // The serial machine executes what leaves the pipeline, then records the commit.
  lemma SerialFollows(start: Manager, ops: seq<Atomic>, s: Serial, op: StageOp, tag: Option<nat>, cplSize: nat)
      returns (after: Serial)
    requires SerialReaches(start, ops, s, cplSize) && s.m.Valid() && op.Valid(|s.m.ram|) && Enabled(s.m, op)
    ensures SerialReaches(start, ops + Doing(ToOps(op)) + Recording(tag), after, cplSize)
    ensures
      var m := Apply(s.m, op, cplSize);
      after.m == if tag.Some? then Record(m, tag.value) else m
    ensures after.out == if op.Empty? then s.out else Emit(s.out, EffectOf(s.m, op, cplSize))
  {
    after := s;
    var ops1 := ops + Doing(ToOps(op));
    if op.Empty? {
      assert ops1 == ops;
    } else {
      SerialAppend(start, ops, s, Do(op), cplSize);
      after := SerialStep(s, Do(op), cplSize);
    }
    if tag.Some? {
      SerialAppend(start, ops1, after, Commit(tag.value), cplSize);
      after := SerialStep(after, Commit(tag.value), cplSize);
    } else {
      assert ops1 + Recording(tag) == ops1;
    }
  }

  lemma StepMatches(start: Manager, t: Trace, i: Input, serial: Serial, cplSize: nat) returns (after: Serial)
    requires Matches(start, t, serial, cplSize) && i.Valid(|t.rtl.m.ram|)
    ensures Matches(start, TraceStep(t, i, cplSize), after, cplSize)
  {
    var s, op, e, x := t.rtl, Last(t.rtl), LastEffect(t.rtl, cplSize), Dispatch(t.rtl, i);
    DispatchAdmits(s, i);
    EdgeInv(s, i, e, x);
    EdgeRefines(s, i, e, x);
    SameEffect(s, cplSize);
    EdgeAgrees(t, i, e, x, serial.out);
    EdgeAccepts(t, i, e, x);
    after := SerialFollows(start, t.ops, serial, op, CommitTag(s, i), cplSize);
    if op.Empty? { EmitNothing(s, serial.out, cplSize); }
  }

  lemma EmitNothing(s: Rtl, o: Outputs, cplSize: nat)
    requires Shape(s) && Last(s).Empty?
    ensures Emit(o, LastEffect(s, cplSize)) == o
  {
  }

  /** For every pipeline depth of at least 2 and every input sequence, the pipeline amounts to a run of
      the serial machine that executes the accepted operations in order, each once and only when enabled.
      Responses, read data and write acknowledgements are exactly the serial ones under any back-pressure. */
  lemma {:induction false} PipelineRefinesSerial(queues: nat, entries: nat, stages: nat, ins: seq<Input>, t: Trace, cplSize: nat)
      returns (serial: Serial)
    requires queues > 0 && entries > 0 && stages >= 2
    requires Traces(queues, entries, stages, ins, t, cplSize)
    ensures Matches(Initial(queues, entries), t, serial, cplSize)
    decreases |ins|
  {
    var start := Initial(queues, entries);
    if ins == [] {
      ResetInv(queues, entries, stages);
      InFlightIdle(stages);
      serial := Serial(start, SILENT);
    } else {
      var last := |ins| - 1;
      var before :| TraceExtends(queues, entries, stages, ins, before, t, cplSize);
      var s := PipelineRefinesSerial(queues, entries, stages, ins[..last], before, cplSize);
      serial := StepMatches(start, before, ins[last], s, cplSize);
    }
  }

  lemma {:induction false} InFlightIdle(stages: nat)
    ensures InFlight(seq(stages, _ => Empty)) == []
  {
    if stages > 0 {
      assert seq(stages, _ => Empty)[..stages - 1] == seq(stages - 1, _ => Empty);
      InFlightIdle(stages - 1);
    }
  }

  // With the pipeline empty the RAM and the table are those of the serial machine.
  lemma {:induction false} EmptyPipelineIsSerial(s: Rtl)
    requires Shape(s) && InFlight(s.pipe) == []
    ensures Abs(s) == s.m
  {
    NoneInFlight(s.pipe);
  }

  lemma {:induction false} NoneInFlight(pipe: seq<StageOp>)
    requires InFlight(pipe) == []
    ensures forall j :: 0 <= j < |pipe| ==> pipe[j].Empty?
  {
    if pipe != [] { NoneInFlight(pipe[..|pipe| - 1]); }
  }

  // Events: the sink sees exactly the serial events, up to the one still pending, iff none was overwritten.
  lemma EventsExactIffNoneLost(serial: Outputs, t: Trace)
    requires Agrees(serial, t)
    ensures serial.events == t.sent.events + Opt(t.rtl.regs.event) <==> t.lost == 0
  {
    if serial.events == t.sent.events + Opt(t.rtl.regs.event) {
      assert |serial.events| == |t.sent.events| + |Opt(t.rtl.regs.event)|;
    }
  }

  // A sink that is always ready loses nothing.
  lemma {:induction false} ReadySinkLosesNothing(queues: nat, entries: nat, stages: nat, ins: seq<Input>, t: Trace, cplSize: nat)
    requires queues > 0 && entries > 0 && Traces(queues, entries, stages, ins, t, cplSize)
    requires forall k :: 0 <= k < |ins| ==> ins[k].eventReady
    ensures t.lost == 0
    decreases |ins|
  {
    if ins != [] {
      var before :| TraceExtends(queues, entries, stages, ins, before, t, cplSize);
      ReadySinkLosesNothing(queues, entries, stages, ins[..|ins| - 1], before, cplSize);
    }
  }
}

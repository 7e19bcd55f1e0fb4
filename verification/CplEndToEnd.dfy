/**
 From clock edges to the list machine: a pipeline run under a law-abiding environment implements CplFifo.
 */
module CplEndToEnd {
  import opened Arith
  import opened CplQueueManager
  import P = CplPipeline
  import R = CplRefinement
  import F = CplFifo
  import S = CplSimulation

  // The base lanes after a write to register 0 or 1.
  function BaseAfter(w: F.Queue, q: nat, reg: nat, d: nat, strobe: seq<bool>): seq<nat>
    requires |w.base| == 7 && |strobe| == 4
  {
    var word := BLANK.(flags := w.flags, base := w.base);
    var e := ExecuteWrite(word, q, reg, d, strobe);
    if |e.data.base| == |e.be.base| == 7 then Merge(word, e.data, e.be).base else w.base
  }

  // What one atomic operation means for the list machine, and what it asks of the environment:
  // commits name outstanding operations, control writes are legal driver commands.
  ghost predicate Means(a: F.Fifo, x: R.Atomic, r: F.Fifo)
    requires F.Valid(a)
  {
    match x
    case Commit(tag) => exists i :: 0 <= i < |a.ops| && CommitsOp(a, i, tag, r)
    case Do(op) =>
      match op
      case Empty => r == a
      case Read(_, _) => r == a
      case Request(q, _) => q < |a.queues| && r == F.Request(a, q)
      case Finalize(_, _) => a.ops != [] && r == F.Finalize(a)
      case Write(q, reg, d, strobe) =>
        q < |a.queues| && |strobe| == 4 && reg < 4 &&
        if reg < 2 then r == a.(queues := a.queues[q := a.queues[q].(base := BaseAfter(a.queues[q], q, reg, d, strobe))])
        else exists c: F.Command :: CommandsQueue(a, q, d, c, r)
  }

  ghost predicate CommitsOp(a: F.Fifo, i: nat, tag: nat, r: F.Fifo)
    requires i < |a.ops|
  {
    tag == a.Tag(i) && r == F.Commit(a, i)
  }

  ghost predicate CommandsQueue(a: F.Fifo, q: nat, d: nat, c: F.Command, r: F.Fifo)
    requires q < |a.queues|
  {
    d == F.Encode(c) && F.Legal(a, q, c) && r == F.Program(a, q, c)
  }

  // r is where the list machine arrives when the operations mean something at every step.
  ghost predicate Follows(start: F.Fifo, ops: seq<R.Atomic>, r: F.Fifo)
    decreases |ops|, 1
  {
    if ops == [] then r == start else exists before: F.Fifo :: FollowsLast(start, ops, before, r)
  }

  ghost predicate FollowsLast(start: F.Fifo, ops: seq<R.Atomic>, before: F.Fifo, r: F.Fifo)
    requires ops != []
    decreases |ops|, 0
  {
    Follows(start, ops[..|ops| - 1], before) && F.Valid(before) && Means(before, ops[|ops| - 1], r)
  }

  lemma BaseWriteMeans(m: Manager, a: F.Fifo, q: nat, reg: nat, d: nat, strobe: seq<bool>, cplSize: nat)
    requires S.Simulates(m, a) && q < |m.ram| && reg < 2 && |strobe| == 4
    ensures Apply(m, Write(q, reg, d, strobe), cplSize).ram[q].base == BaseAfter(a.queues[q], q, reg, d, strobe)
  {
    assert S.HoldsWord(m.ram[q], a.queues[q]);
  }

  lemma AtomicSimulates(m: Manager, a: F.Fifo, x: R.Atomic, r: F.Fifo, cplSize: nat)
    requires S.Simulates(m, a) && R.Allowed(m, x) && Means(a, x, r)
    ensures S.Simulates(R.SerialStep(R.Serial(m, R.SILENT), x, cplSize).m, r)
  {
    match x
    case Commit(tag) =>
      var i :| 0 <= i < |a.ops| && CommitsOp(a, i, tag, r);
      S.CommitSimulates(m, a, i);
    case Do(op) =>
      match op {
        case Empty =>
        case Read(q, reg) =>
          var e := EffectOf(m, op, cplSize);
          assert Merge(m.ram[q], e.data, e.be) == m.ram[q] by { assert Merge(m.ram[q], e.data, e.be).base == m.ram[q].base; }
          assert Apply(m, op, cplSize).ram == m.ram;
        case Request(q, tag) => S.RequestSimulates(m, a, q, tag, cplSize);
        case Finalize(q, p) => S.FinalizeSimulates(m, a, q, p, cplSize);
        case Write(q, reg, d, strobe) =>
          if reg < 2 {
            S.BaseSimulates(m, a, q, reg, d, strobe, cplSize);
            BaseWriteMeans(m, a, q, reg, d, strobe, cplSize);
          } else {
            var c :| CommandsQueue(a, q, d, c, r);
            S.CommandSimulates(m, a, q, c, reg, strobe, cplSize);
          }
      }
  }

  lemma {:induction false} SerialRunSimulates(start: Manager, a0: F.Fifo, ops: seq<R.Atomic>, s: R.Serial, a: F.Fifo, cplSize: nat)
    requires S.Simulates(start, a0) && R.SerialReaches(start, ops, s, cplSize) && Follows(a0, ops, a)
    ensures S.Simulates(s.m, a)
    decreases |ops|
  {
    if ops != [] {
      var last := |ops| - 1;
      var s1 :| R.SerialExtends(start, ops, s1, s, cplSize);
      var a1 :| FollowsLast(a0, ops, a1, a);
      SerialRunSimulates(start, a0, ops[..last], s1, a1, cplSize);
      AtomicSimulates(s1.m, a1, ops[last], a, cplSize);
    }
  }

  /** The clocked pipeline, of any depth, under any input sequence whose operations are law-abiding, holds the
      state of the list machine, up to a finalize still in flight; with the pipeline empty, exactly. */
  lemma PipelineImplementsFifo(queues: nat, entries: nat, stages: nat, ins: seq<P.Input>, t: R.Trace, a: F.Fifo, cplSize: nat)
    requires queues > 0 && 0 < entries <= 256 && stages >= 2
    requires R.Traces(queues, entries, stages, ins, t, cplSize)
    requires Follows(S.Reset(queues, entries), t.ops, a)
    ensures P.Inv(t.rtl) && S.Simulates(P.Abs(t.rtl), a)
    ensures R.InFlight(t.rtl.pipe) == [] ==> S.Simulates(t.rtl.m, a)
  {
    var serial := R.PipelineRefinesSerial(queues, entries, stages, ins, t, cplSize);
    S.ResetSimulates(queues, entries);
    SerialRunSimulates(Initial(queues, entries), S.Reset(queues, entries), t.ops, serial, a, cplSize);
    if R.InFlight(t.rtl.pipe) == [] { R.EmptyPipelineIsSerial(t.rtl); }
  }
}

/**
 What one clock edge takes in: which operation enters the pipeline and which commit is recorded, in terms of the
 registers and the input wires alone.
 */
module CplDispatch {
  import opened Arith
  import opened CplQueueManager
  import opened CplPipeline
  import opened CplRefinement

  // No stage works on the queue.
  ghost predicate QueueFree(pipe: seq<StageOp>, q: nat) {
    forall j :: 0 <= j < |pipe| ==> pipe[j].Empty? || pipe[j].queue != q
  }

  // A register write is offered, its response register will be free, no write is in flight and no stage works on its
  // queue; likewise a register read, the finalize of the oldest entry, and a request.
  ghost predicate WriteIn(s: Rtl, i: Input) {
    && i.write.Write? && (!s.regs.bvalid || i.bready)
    && QueueFree(s.pipe, i.write.queue) && forall j :: 0 <= j < |s.pipe| ==> !s.pipe[j].Write?
  }

  ghost predicate ReadIn(s: Rtl, i: Input) {
    && i.read.Read? && (s.regs.rdata == None || i.rready)
    && QueueFree(s.pipe, i.read.queue) && forall j :: 0 <= j < |s.pipe| ==> !s.pipe[j].Read?
  }

  ghost predicate FinalizeIn(s: Rtl, i: Input)
    requires s.m.Valid()
  {
    var t := s.m.table;
    && t.active[t.finish] && t.commit[t.finish] && (s.regs.event == None || i.eventReady)
    && QueueFree(s.pipe, t.queue[t.finish]) && forall j :: 0 <= j < |s.pipe| ==> !s.pipe[j].Finalize?
  }

  ghost predicate RequestIn(s: Rtl, i: Input)
    requires s.m.Valid()
  {
    && i.req.Request? && i.enable && !s.m.table.active[s.m.table.start] && (s.regs.resp == None || i.respReady)
    && QueueFree(s.pipe, i.req.queue) && forall j :: 0 <= j < |s.pipe| ==> !s.pipe[j].Request?
  }

  // x is the first that can enter of: the write, the read, the finalize of the oldest entry, the request; or nothing.
  ghost predicate FirstIn(s: Rtl, i: Input, x: StageOp)
    requires s.m.Valid()
  {
    var t := s.m.table;
    if WriteIn(s, i) then x == i.write
    else if ReadIn(s, i) then x == i.read
    else if FinalizeIn(s, i) then x == Finalize(t.queue[t.finish], t.ptr[t.finish])
    else if RequestIn(s, i) then x == i.req
    else x == Empty
  }

  /** After an edge stage 0 holds the first that can enter, and every other stage what was in the one before it. */
  lemma EnteredIs(s: Rtl, i: Input, cplSize: nat)
    requires Shape(s) && i.Valid(|s.m.ram|)
    ensures
      var r := Next(s, i, cplSize).pipe;
      && |r| == |s.pipe| && FirstIn(s, i, r[0]) && forall j :: 0 < j < |r| ==> r[j] == s.pipe[j - 1]
  {
    ChosenIs(s, i);
    DispatchAdmits(s, i);
  }

  lemma ChosenIs(s: Rtl, i: Input)
    requires s.m.Valid() && i.Valid(|s.m.ram|)
    ensures FirstIn(s, i, Dispatch(s, i))
  {
    var t := s.m.table;
    PassesIff(s.pipe, i.write);
    PassesIff(s.pipe, i.read);
    PassesIff(s.pipe, Finalize(t.queue[t.finish], t.ptr[t.finish]));
    PassesIff(s.pipe, i.req);
  }

  lemma PassesIff(pipe: seq<StageOp>, x: StageOp)
    ensures Passes(pipe, true, x) <==>
      !x.Empty? && QueueFree(pipe, x.queue) && forall j :: 0 <= j < |pipe| ==> !SameKind(pipe[j], x)
  {
  }

  // An accepted commit names this entry.
  predicate Marks(s: Rtl, i: Input, k: nat)
    requires |s.m.table.commit| > 0
  {
    s.regs.commitReady && i.commit.Some? && i.commit.value % |s.m.table.commit| == k
  }

  /** A commit offered while ready is high sets the bit of its entry; no other bit becomes true, and the only one that
      becomes false is that of an entry started at this edge. The ready line is the enable of the edge before. */
  lemma CommitAtEdge(s: Rtl, i: Input, k: nat, cplSize: nat)
    requires Inv(s) && i.Valid(|s.m.ram|) && k < |s.m.table.commit|
    ensures
      var r, t := Next(s, i, cplSize), s.m.table;
      && |r.m.table.commit| == |t.commit| && r.regs.commitReady == i.enable
      && (Marks(s, i, k) ==> r.m.table.commit[k])
      && (r.m.table.commit[k] && !t.commit[k] ==> Marks(s, i, k))
      && (t.commit[k] && !r.m.table.commit[k] ==> k == t.start && s.pipe[|s.pipe| - 1].Request?)
  {
    DispatchAdmits(s, i);
    EdgeShape(s, i, LastEffect(s, cplSize), Dispatch(s, i));
  }

  // ---- over whole traces ----

  function CommitsOf(ops: seq<Atomic>): seq<nat> {
    if ops == [] then []
    else CommitsOf(ops[..|ops| - 1]) + if ops[|ops| - 1].Commit? then [ops[|ops| - 1].tag] else []
  }

  predicate EnabledLast(ins: seq<Input>) { ins != [] && ins[|ins| - 1].enable }

  // The tags offered at edges whose predecessor had enable.
  function Offered(ins: seq<Input>): seq<nat> {
    if ins == [] then []
    else var before := ins[..|ins| - 1];
      Offered(before) + if EnabledLast(before) then Opt(ins[|ins| - 1].commit) else []
  }

  lemma CommitsGrow(ops: seq<Atomic>, op: StageOp, tag: Option<nat>)
    ensures CommitsOf(ops + Doing(ToOps(op)) + Recording(tag)) == CommitsOf(ops) + Opt(tag)
  {
    var ops1 := ops + Doing(ToOps(op));
    assert op.Empty? ==> ops1 == ops;
    assert !op.Empty? ==> ops1[..|ops|] == ops;
    assert tag.None? ==> ops1 + Recording(tag) == ops1;
    assert tag.Some? ==> (ops1 + Recording(tag))[..|ops1|] == ops1;
  }

  lemma CommitStep(t: Trace, i: Input, cplSize: nat)
    requires Shape(t.rtl) && i.Valid(|t.rtl.m.ram|)
    ensures
      var r := TraceStep(t, i, cplSize);
      && CommitsOf(r.ops) == CommitsOf(t.ops) + (if t.rtl.regs.commitReady then Opt(i.commit) else [])
      && (r.rtl.regs.commitReady <==> i.enable)
  {
    DispatchAdmits(t.rtl, i);
    CommitsGrow(t.ops, Last(t.rtl), CommitTag(t.rtl, i));
  }

  /** Over every trace from reset the commits recorded are exactly the tags offered at edges whose predecessor had
      enable, in their order. */
  lemma {:induction false} CommitsAreOffered(queues: nat, entries: nat, stages: nat, ins: seq<Input>, t: Trace, cplSize: nat)
    requires queues > 0 && entries > 0 && stages >= 2 && Traces(queues, entries, stages, ins, t, cplSize)
    ensures CommitsOf(t.ops) == Offered(ins)
    ensures t.rtl.regs.commitReady <==> EnabledLast(ins)
    decreases |ins|
  {
    if ins != [] {
      var before :| TraceExtends(queues, entries, stages, ins, before, t, cplSize);
      CommitsAreOffered(queues, entries, stages, ins[..|ins| - 1], before, cplSize);
      CommitStep(before, ins[|ins| - 1], cplSize);
    }
  }
}

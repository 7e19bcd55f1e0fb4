/**
 The clocked pipeline of the completion queue manager and the proof that it refines the serial
 machine: every accepted operation executes once, in order, on the word the RAM holds at that time.
 */
module CplPipeline {
  import opened Arith
  import opened CplQueueManager

  // The result registers.
  datatype Regs = Regs(commitReady: bool, resp: Option<Response>, event: Option<Event>, bvalid: bool, rdata: Option<nat>)

  // The whole state. Stage j carries an operation and the word fetched for it.
  datatype Rtl = Rtl(m: Manager, pipe: seq<StageOp>, fetch: seq<QueueWord>, regs: Regs)

  // The input wires of one cycle; Empty stands for a deasserted valid.
  datatype Input = Input(write: StageOp, read: StageOp, req: StageOp, commit: Option<nat>, enable: bool,
                         bready: bool, rready: bool, respReady: bool, eventReady: bool)
  {
    ghost predicate Valid(queues: nat) {
      && (write.Write? || write.Empty?) && write.Valid(queues)
      && (read.Read? || read.Empty?) && read.Valid(queues)
      && (req.Request? || req.Empty?) && req.Valid(queues)
    }
  }

  function Reset(queues: nat, entries: nat, stages: nat): Rtl
    requires queues > 0 && entries > 0
  {
    Rtl(Initial(queues, entries), seq(stages, _ => Empty), seq(stages, _ => BLANK),
        Regs(false, None, None, false, None))
  }

  predicate Hazard(pipe: seq<StageOp>, q: nat) {
    exists j :: 0 <= j < |pipe| && !pipe[j].Empty? && pipe[j].queue == q
  }

  // An operation of the same kind is already in the pipeline.
  predicate Busy(pipe: seq<StageOp>, like: StageOp) {
    exists j :: 0 <= j < |pipe| && SameKind(pipe[j], like)
  }

  predicate SameKind(a: StageOp, b: StageOp) {
    (a.Write? && b.Write?) || (a.Read? && b.Read?) || (a.Request? && b.Request?) || (a.Finalize? && b.Finalize?)
  }

  // The guard of one branch of the dispatch chain: ready, and no stage in the way.
  predicate Passes(pipe: seq<StageOp>, ready: bool, like: StageOp) {
    ready && !like.Empty? && !Hazard(pipe, like.queue) && !Busy(pipe, like)
  }

  // Stage 0: which operation enters the pipeline this cycle.
  function Dispatch(s: Rtl, i: Input): StageOp
    requires s.m.Valid()
  {
    var t := s.m.table;
    var f := Finalize(t.queue[t.finish], t.ptr[t.finish]);
    if Passes(s.pipe, !s.regs.bvalid || i.bready, i.write) then i.write
    else if Passes(s.pipe, s.regs.rdata.None? || i.rready, i.read) then i.read
    else if Passes(s.pipe, t.active[t.finish] && t.commit[t.finish] && (s.regs.event.None? || i.eventReady), f) then f
    else if Passes(s.pipe, i.enable && !t.active[t.start] && (s.regs.resp.None? || i.respReady), i.req) then i.req
    else Empty
  }

  ghost predicate Shape(s: Rtl) {
    && s.m.Valid()
    && |s.pipe| == |s.fetch| >= 2
    && (forall j :: 0 <= j < |s.pipe| ==> s.pipe[j].Valid(|s.m.ram|) && s.fetch[j].Valid())
  }

  // The operation in the last stage and what it decides this cycle.
  function Last(s: Rtl): StageOp requires |s.pipe| > 0 { s.pipe[|s.pipe| - 1] }

  function LastEffect(s: Rtl, cplSize: nat): Effect
    requires Shape(s)
  {
    Execute(s.m.table, s.fetch[|s.fetch| - 1], Last(s), cplSize)
  }

  // The table after the clock edge; a start at the last stage, a finish at stage 0, then a commit record.
  function NextTable(t: Table, op: StageOp, e: Effect, entering: StageOp, commit: Option<nat>): Table
    requires |t.active| == |t.commit| == |t.queue| == |t.ptr| > 0 && t.start < |t.active| && t.finish < |t.active|
    requires e.starts.Some? ==> op.Request?
  {
    var t1 := if e.starts.Some? then t.Start(op.queue, e.starts.value) else t;
    var t2 := if entering.Finalize? then t1.Finish() else t1;
    if commit.Some? then t2.Record(commit.value) else t2
  }

  function CommitTag(s: Rtl, i: Input): Option<nat> { if s.regs.commitReady then i.commit else None }

  // The word of the queue that leaves the last stage, written through the byte enables.
  function NextRam(ram: seq<QueueWord>, op: StageOp, e: Effect): seq<QueueWord>
    requires op.Empty? || (op.queue < |ram| && |ram[op.queue].base| == |e.data.base| == |e.be.base| == 7)
  {
    if op.Empty? then ram else ram[op.queue := Merge(ram[op.queue], e.data, e.be)]
  }

  function NextRegs(g: Regs, i: Input, e: Effect): Regs {
    Regs(i.enable,
         if e.response.Some? then e.response else if i.respReady then None else g.resp,
         if e.event.Some? then e.event else if i.eventReady then None else g.event,
         e.ack || (g.bvalid && !i.bready),
         if e.rdata.Some? then e.rdata else if i.rready then None else g.rdata)
  }

  // The state after the clock edge when the last stage decides e and op x enters at stage 0.
  function Edge(s: Rtl, i: Input, e: Effect, x: StageOp): (r: Rtl)
    requires Shape(s) && Fits(e, Last(s), s.fetch[|s.fetch| - 1]) && x.Valid(|s.m.ram|)
  {
    var P, op := |s.pipe|, Last(s);
    Rtl(Manager(NextRam(s.m.ram, op, e), NextTable(s.m.table, op, e, x, CommitTag(s, i))),
        [x] + s.pipe[..P - 1],
        [s.m.ram[if x.Empty? then 0 else x.queue]] + s.fetch[..P - 1],
        NextRegs(s.regs, i, e))
  }

  function Next(s: Rtl, i: Input, cplSize: nat): Rtl
    requires Shape(s) && i.Valid(|s.m.ram|)
  {
    DispatchAdmits(s, i);
    Edge(s, i, LastEffect(s, cplSize), Dispatch(s, i))
  }

  // ---- invariant ----

  // Stages hold operations of distinct kinds on distinct queues.
  ghost predicate Apart(a: StageOp, b: StageOp) {
    a.Empty? || b.Empty? ||
    (a.queue != b.queue && !SameKind(a, b))
  }

  ghost predicate Inv(s: Rtl) {
    && Shape(s)
    && (forall j, k :: 0 <= j < k < |s.pipe| ==> Apart(s.pipe[j], s.pipe[k]))
    // the fetched word is still what the RAM holds
    && (forall j :: 0 <= j < |s.pipe| && !s.pipe[j].Empty? ==> s.fetch[j] == s.m.ram[s.pipe[j].queue])
    // the slot and the result register that the operation will use are reserved
    && (forall j :: 0 <= j < |s.pipe| && s.pipe[j].Request? ==> !s.m.table.active[s.m.table.start] && s.regs.resp.None?)
    && (forall j :: 0 <= j < |s.pipe| && s.pipe[j].Write? ==> !s.regs.bvalid)
    && (forall j :: 0 <= j < |s.pipe| && s.pipe[j].Read? ==> s.regs.rdata.None?)
    && (forall j :: 0 <= j < |s.pipe| && s.pipe[j].Finalize? ==> InFlightFinish(s.m.table, s.pipe[j]))
    && (forall j, k :: 0 <= k < j < |s.pipe| && s.pipe[j].Request? && s.pipe[k].Finalize? ==>
          s.m.table.start != Pred(s.m.table.finish, |s.m.table.active|))
  }

  predicate HasFinalize(pipe: seq<StageOp>) { exists j :: 0 <= j < |pipe| && pipe[j].Finalize? }

  // A finalize in flight has already released its slot, which still holds its operands.
  ghost predicate InFlightFinish(t: Table, op: StageOp)
    requires op.Finalize? && |t.active| == |t.commit| == |t.queue| == |t.ptr| && t.finish < |t.active|
  {
    var f := Pred(t.finish, |t.active|);
    !t.active[f] && t.commit[f] && op == Finalize(t.queue[f], t.ptr[f])
  }

  // The table before a finalize whose slot is already released.
  function Undo(t: Table): (r: Table)
    requires |t.active| > 0 && t.finish < |t.active|
  {
    var f := Pred(t.finish, |t.active|);
    t.(active := t.active[f := true], finish := f)
  }

  // The serial state: a finalize still in the pipeline has not happened yet.
  function Abs(s: Rtl): (m: Manager)
    requires Shape(s)
    ensures m.Valid() && |m.ram| == |s.m.ram| && |m.table.active| == |s.m.table.active|
  {
    if HasFinalize(s.pipe) then s.m.(table := Undo(s.m.table)) else s.m
  }

  lemma ResetInv(queues: nat, entries: nat, stages: nat)
    requires queues > 0 && entries > 0 && stages >= 2
    ensures var s := Reset(queues, entries, stages); Inv(s) && Abs(s) == s.m == Initial(queues, entries)
  {
  }

  // The last stage decides exactly what the serial machine would decide now.
  lemma SameEffect(s: Rtl, cplSize: nat)
    requires Inv(s)
    ensures Last(s).Empty? || LastEffect(s, cplSize) == EffectOf(Abs(s), Last(s), cplSize)
    ensures Enabled(Abs(s), Last(s))
  {
    SameDecision(s, cplSize);
    LastIsEnabled(s);
  }

  // A finalize in flight is of another queue, or is the last stage itself.
  lemma SameDecision(s: Rtl, cplSize: nat)
    requires Inv(s)
    ensures Last(s).Empty? || LastEffect(s, cplSize) == EffectOf(Abs(s), Last(s), cplSize)
  {
    var op, P := Last(s), |s.pipe|;
    if !op.Empty? {
      assert s.fetch[P - 1] == s.m.ram[op.queue];
      if HasFinalize(s.pipe) {
        var k :| 0 <= k < P && s.pipe[k].Finalize?;
        if k < P - 1 { assert Apart(s.pipe[k], s.pipe[P - 1]); }
        SlotOfOthers(s.m.table, s.fetch[P - 1], op, cplSize);
      }
    }
  }

  // An operation of another queue than the finalize in flight, or that finalize, decides the same with its slot back.
  lemma SlotOfOthers(t: Table, w: QueueWord, op: StageOp, cplSize: nat)
    requires |t.active| == |t.commit| == |t.queue| == |t.ptr| > 0 && t.finish < |t.active| && |w.base| == 7
    requires op.Write? ==> |op.strobe| == 4
    requires op.Finalize? || (!op.Empty? && t.queue[Pred(t.finish, |t.active|)] != op.queue)
    ensures Execute(Undo(t), w, op, cplSize) == Execute(t, w, op, cplSize)
  {
    if !op.Finalize? {
      assert Undo(t).Owns(w, op.queue) == t.Owns(w, op.queue);
      assert Undo(t).ActivePtr(w, op.queue) == t.ActivePtr(w, op.queue);
    }
  }

  lemma LastIsEnabled(s: Rtl)
    requires Inv(s)
    ensures Enabled(Abs(s), Last(s))
  {
    var op, P := Last(s), |s.pipe|;
    if !op.Empty? && HasFinalize(s.pipe) {
      var k :| 0 <= k < P && s.pipe[k].Finalize?;
      if k < P - 1 { assert Apart(s.pipe[k], s.pipe[P - 1]); }
    }
  }

  // What the dispatch guards establish about the operation they let in.
  ghost predicate Admits(s: Rtl, i: Input, x: StageOp)
    requires Shape(s)
  {
    var t := s.m.table;
    && x.Valid(|s.m.ram|)
    && (forall j :: 0 <= j < |s.pipe| ==> Apart(x, s.pipe[j]))
    && (x.Write? ==> !s.regs.bvalid || i.bready)
    && (x.Read? ==> s.regs.rdata.None? || i.rready)
    && (x.Request? ==> !t.active[t.start] && (s.regs.resp.None? || i.respReady))
    && (x.Finalize? ==> t.active[t.finish] && t.commit[t.finish] && x == Finalize(t.queue[t.finish], t.ptr[t.finish]))
  }

  lemma DispatchAdmits(s: Rtl, i: Input)
    requires Shape(s) && i.Valid(|s.m.ram|)
    ensures Admits(s, i, Dispatch(s, i))
  {
  }

  ghost predicate Stepping(s: Rtl, i: Input, e: Effect, x: StageOp) {
    Inv(s) && i.Valid(|s.m.ram|) && Fits(e, Last(s), s.fetch[|s.fetch| - 1]) && Admits(s, i, x)
  }

  lemma EdgeShifts(s: Rtl, i: Input, e: Effect, x: StageOp)
    requires Stepping(s, i, e, x)
    ensures
      var r := Edge(s, i, e, x);
      && |r.pipe| == |s.pipe| == |r.fetch| && r.pipe[0] == x
      && (forall j :: 0 < j < |s.pipe| ==> r.pipe[j] == s.pipe[j - 1] && r.fetch[j] == s.fetch[j - 1])
      && (forall j, k :: 0 <= j < k < |r.pipe| ==> Apart(r.pipe[j], r.pipe[k]))
  {
    var r := Edge(s, i, e, x);
    forall j, k | 0 <= j < k < |r.pipe| ensures Apart(r.pipe[j], r.pipe[k]) {
      if j > 0 { assert Apart(s.pipe[j - 1], s.pipe[k - 1]); }
    }
  }

  lemma EdgeShape(s: Rtl, i: Input, e: Effect, x: StageOp)
    requires Stepping(s, i, e, x)
    ensures Shape(Edge(s, i, e, x)) && |Edge(s, i, e, x).m.ram| == |s.m.ram|
  {
    EdgeShifts(s, i, e, x);
  }

  // The hazard check keeps every fetched word equal to the RAM word of its queue.
  lemma EdgeKeepsFetch(s: Rtl, i: Input, e: Effect, x: StageOp)
    requires Stepping(s, i, e, x)
    ensures
      var r := Edge(s, i, e, x);
      && Shape(r)
      && forall j :: 0 <= j < |r.pipe| && !r.pipe[j].Empty? ==> r.fetch[j] == r.m.ram[r.pipe[j].queue]
  {
    EdgeShifts(s, i, e, x);
    EdgeShape(s, i, e, x);
    var r, P := Edge(s, i, e, x), |s.pipe|;
    forall j | 0 <= j < P && !r.pipe[j].Empty? ensures r.fetch[j] == r.m.ram[r.pipe[j].queue] {
      if j == 0 { assert Apart(x, s.pipe[P - 1]); } else { assert Apart(s.pipe[j - 1], s.pipe[P - 1]); }
    }
  }

  // The reservations survive the edge.
  lemma EdgeKeepsReservations(s: Rtl, i: Input, e: Effect, x: StageOp)
    requires Stepping(s, i, e, x)
    ensures
      var r := Edge(s, i, e, x);
      && Shape(r)
      && (forall j :: 0 <= j < |r.pipe| && r.pipe[j].Request? ==> !r.m.table.active[r.m.table.start] && r.regs.resp.None?)
      && (forall j :: 0 <= j < |r.pipe| && r.pipe[j].Write? ==> !r.regs.bvalid)
      && (forall j :: 0 <= j < |r.pipe| && r.pipe[j].Read? ==> r.regs.rdata.None?)
  {
    EdgeKeepsSlot(s, i, e, x);
    EdgeKeepsRegisters(s, i, e, x);
  }

  lemma EdgeKeepsSlot(s: Rtl, i: Input, e: Effect, x: StageOp)
    requires Stepping(s, i, e, x)
    ensures
      var r := Edge(s, i, e, x);
      && Shape(r)
      && forall j :: 0 <= j < |r.pipe| && r.pipe[j].Request? ==> !r.m.table.active[r.m.table.start] && r.regs.resp.None?
  {
    EdgeShifts(s, i, e, x);
    EdgeShape(s, i, e, x);
    var P := |s.pipe|;
    assert Apart(x, s.pipe[P - 1]);
    assert forall j :: 0 <= j < P - 1 ==> Apart(s.pipe[j], s.pipe[P - 1]);
  }

  lemma EdgeKeepsRegisters(s: Rtl, i: Input, e: Effect, x: StageOp)
    requires Stepping(s, i, e, x)
    ensures
      var r := Edge(s, i, e, x);
      && (forall j :: 0 <= j < |r.pipe| && r.pipe[j].Write? ==> !r.regs.bvalid)
      && (forall j :: 0 <= j < |r.pipe| && r.pipe[j].Read? ==> r.regs.rdata.None?)
  {
    EdgeShifts(s, i, e, x);
    var P := |s.pipe|;
    assert Apart(x, s.pipe[P - 1]);
    assert forall j :: 0 <= j < P - 1 ==> Apart(s.pipe[j], s.pipe[P - 1]);
  }

  // The finalize that enters releases its slot.
  lemma FinishReleases(t: Table, queues: nat, op: StageOp, e: Effect, x: StageOp, commit: Option<nat>)
    requires t.Valid(queues) && (e.starts.Some? ==> op.Request? && !t.active[t.start])
    requires t.active[t.finish] && t.commit[t.finish] && x == Finalize(t.queue[t.finish], t.ptr[t.finish])
    ensures
      var r := NextTable(t, op, e, x, commit);
      |r.active| == |r.commit| == |r.queue| == |r.ptr| && r.finish < |r.active| && InFlightFinish(r, x)
  {
  }

  // A finalize further on keeps its slot.
  lemma FinishStays(t: Table, queues: nat, op: StageOp, e: Effect, x: StageOp, commit: Option<nat>, f: StageOp)
    requires t.Valid(queues) && f.Finalize? && InFlightFinish(t, f) && !x.Finalize?
    requires e.starts.Some? ==> op.Request? && t.start != Pred(t.finish, |t.active|)
    ensures
      var r := NextTable(t, op, e, x, commit);
      |r.active| == |r.commit| == |r.queue| == |r.ptr| && r.finish < |r.active| && InFlightFinish(r, f)
  {
  }

  lemma EdgeKeepsFinish(s: Rtl, i: Input, e: Effect, x: StageOp)
    requires Stepping(s, i, e, x)
    ensures
      var r := Edge(s, i, e, x);
      && Shape(r)
      && forall j :: 0 <= j < |r.pipe| && r.pipe[j].Finalize? ==> InFlightFinish(r.m.table, r.pipe[j])
  {
    EdgeShifts(s, i, e, x);
    EdgeShape(s, i, e, x);
    var r, P := Edge(s, i, e, x), |s.pipe|;
    forall j | 0 <= j < P && r.pipe[j].Finalize? ensures InFlightFinish(r.m.table, r.pipe[j]) {
      if j == 0 {
        FinishReleases(s.m.table, |s.m.ram|, Last(s), e, x, CommitTag(s, i));
      } else {
        assert r.pipe[j] == s.pipe[j - 1] && Apart(r.pipe[0], r.pipe[j]);
        FinishStays(s.m.table, |s.m.ram|, Last(s), e, x, CommitTag(s, i), s.pipe[j - 1]);
      }
    }
  }

  // A request behind a finalize in flight does not get the slot that is being released.
  lemma EdgeKeepsOrder(s: Rtl, i: Input, e: Effect, x: StageOp)
    requires Stepping(s, i, e, x)
    ensures
      var r := Edge(s, i, e, x);
      && Shape(r)
      && forall j, k :: 0 <= k < j < |r.pipe| && r.pipe[j].Request? && r.pipe[k].Finalize? ==>
           r.m.table.start != Pred(r.m.table.finish, |r.m.table.active|)
  {
    EdgeShifts(s, i, e, x);
    EdgeShape(s, i, e, x);
    var P := |s.pipe|;
    assert Apart(x, s.pipe[P - 1]);
    assert forall j :: 0 <= j < P - 1 ==> Apart(s.pipe[j], s.pipe[P - 1]) && Apart(x, s.pipe[j]);
  }

  lemma EdgeInv(s: Rtl, i: Input, e: Effect, x: StageOp)
    requires Stepping(s, i, e, x)
    ensures Inv(Edge(s, i, e, x))
  {
    EdgeShifts(s, i, e, x);
    EdgeShape(s, i, e, x);
    EdgeKeepsFetch(s, i, e, x);
    EdgeKeepsReservations(s, i, e, x);
    EdgeKeepsFinish(s, i, e, x);
    EdgeKeepsOrder(s, i, e, x);
  }

  lemma UndoFinish(t: Table, queues: nat)
    requires t.Valid(queues)
    ensures t.active[t.finish] ==> Undo(t.Finish()) == t
    ensures !t.active[Pred(t.finish, |t.active|)] ==> Undo(t).Finish() == t
  {
  }

  lemma UndoStart(t: Table, queues: nat, q: nat, p: nat)
    requires t.Valid(queues) && t.start != Pred(t.finish, |t.active|)
    ensures Undo(t.Start(q, p)) == Undo(t).Start(q, p)
  {
  }

  function MaybeRecord(t: Table, tag: Option<nat>): Table
    requires |t.commit| > 0
  {
    if tag.Some? then t.Record(tag.value) else t
  }

  // The serial table takes the step of the operation leaving the last stage, whatever enters at stage 0.
  lemma TableStep(t: Table, queues: nat, op: StageOp, e: Effect, x: StageOp, tag: Option<nat>)
    requires t.Valid(queues) && (e.starts.Some? ==> op.Request? && op.queue < queues && e.starts.value < PTR)
    requires !(op.Finalize? && x.Finalize?)
    ensures
      var next := NextTable(t, op, e, x, tag);
      var started := if e.starts.Some? then t.Start(op.queue, e.starts.value) else t;
      && (!x.Finalize? ==> next == MaybeRecord(started, tag))
      && (x.Finalize? && t.active[t.finish] ==> Undo(next) == MaybeRecord(started, tag))
      && (op.Finalize? && !t.active[Pred(t.finish, |t.active|)] ==> next == MaybeRecord(Undo(t).Finish(), tag))
      && (!x.Finalize? && (e.starts.Some? ==> t.start != Pred(t.finish, |t.active|)) ==>
            Undo(next) == MaybeRecord(if e.starts.Some? then Undo(t).Start(op.queue, e.starts.value) else Undo(t), tag))
  {
    UndoFinish(t, queues);
    if e.starts.Some? {
      UndoFinish(t.Start(op.queue, e.starts.value), queues);
      if t.start != Pred(t.finish, |t.active|) { UndoStart(t, queues, op.queue, e.starts.value); }
    }
  }

  // A finalize is in the pipeline after the edge iff one enters or one before the last stage moves on.
  lemma FinalizeMoves(s: Rtl, i: Input, e: Effect, x: StageOp)
    requires Stepping(s, i, e, x)
    ensures HasFinalize(Edge(s, i, e, x).pipe) <==> x.Finalize? || (HasFinalize(s.pipe) && !Last(s).Finalize?)
    ensures HasFinalize(s.pipe) ==> !x.Finalize?
    ensures HasFinalize(s.pipe) ==> !s.m.table.active[Pred(s.m.table.finish, |s.m.table.active|)]
    ensures HasFinalize(s.pipe) && Last(s).Request? ==> s.m.table.start != Pred(s.m.table.finish, |s.m.table.active|)
  {
    EdgeShifts(s, i, e, x);
    var r, P := Edge(s, i, e, x), |s.pipe|;
    if HasFinalize(s.pipe) {
      var k :| 0 <= k < P && s.pipe[k].Finalize?;
      assert Apart(x, s.pipe[k]);
      if k < P - 1 { assert r.pipe[k + 1] == s.pipe[k]; assert Apart(s.pipe[k], s.pipe[P - 1]); }
    }
    if Last(s).Finalize? {
      assert forall j :: 0 <= j < P - 1 ==> Apart(s.pipe[j], s.pipe[P - 1]);
    }
    if x.Finalize? { assert r.pipe[0].Finalize?; }
  }

  // One clock edge: the operation in the last stage happens, then the commit of this cycle is recorded.
  lemma EdgeRefines(s: Rtl, i: Input, e: Effect, x: StageOp)
    requires Stepping(s, i, e, x)
    ensures
      var a := ApplyEffect(Abs(s), Last(s), e);
      && Shape(Edge(s, i, e, x))
      && Abs(Edge(s, i, e, x)) == if CommitTag(s, i).Some? then Record(a, CommitTag(s, i).value) else a
  {
    EdgeShape(s, i, e, x);
    FinalizeMoves(s, i, e, x);
    TableStep(s.m.table, |s.m.ram|, Last(s), e, x, CommitTag(s, i));
  }
}

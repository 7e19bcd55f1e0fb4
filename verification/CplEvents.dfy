/**
 Back-pressure on the event output. The dispatch guard of a finalize waits for the event register, that of a register
 write does not; so an event is lost only where an arm command rings, and here is exactly when.
 */
module CplEvents {
  import opened Arith
  import opened CplQueueManager
  import opened CplPipeline
  import opened CplRefinement

  // ---- what one cycle shows of events ----

  // A register write or a finalize rings in the last stage; the event register holds an event, the sink is ready;
  // which stages hold a finalize.
  datatype Beat = Beat(write: bool, final: bool, occupied: bool, ready: bool, inFlight: seq<bool>)
  {
    predicate Stuck() { occupied && !ready }

    // An event is overwritten.
    predicate Loses() { (write || final) && Stuck() }
  }

  // What the hazard check and the guards of the dispatch chain make of two cycles.
  ghost predicate Follows(b: Beat, c: Beat)
  {
    && |c.inFlight| == |b.inFlight| > 0
    && (forall j, n :: 0 <= j && n == j + 1 < |b.inFlight| ==> c.inFlight[n] == b.inFlight[j])
    && (c.inFlight[0] ==> !b.Stuck() && !b.inFlight[|b.inFlight| - 1])
    && (c.occupied <==> b.write || b.final || b.Stuck())
  }

  ghost predicate Sound(b: Beat)
  {
    && |b.inFlight| > 0 && !(b.write && b.final) && (b.final ==> b.inFlight[|b.inFlight| - 1])
    && (forall j, k :: 0 <= j < k < |b.inFlight| ==> !(b.inFlight[j] && b.inFlight[k]))
  }

  // A run that starts with an empty pipeline.
  ghost predicate BeatRun(bs: seq<Beat>, stages: nat)
  {
    && (forall k :: 0 <= k < |bs| ==> Sound(bs[k]) && |bs[k].inFlight| == stages)
    && (forall k, n :: 0 <= k && n == k + 1 < |bs| ==> Follows(bs[k], bs[n]))
    && (bs != [] ==> forall j :: 0 <= j < stages ==> !bs[0].inFlight[j])
  }

  function Losses(bs: seq<Beat>, n: nat): nat
    requires n <= |bs|
  {
    if n == 0 then 0 else Losses(bs, n - 1) + Bit(bs[n - 1].Loses(), 1)
  }

  // ---- what is in the event register while a finalize is in flight ----

  // A register write rang at edge w, and the sink has not been ready since.
  ghost predicate RungAt(bs: seq<Beat>, w: nat, k: nat)
  {
    w < k < |bs| && bs[w].write && forall r :: w < r < k ==> !bs[r].ready
  }

  // The finalize in stage j before edge k entered at edge k - 1 - j; an event behind it was rung by a write since.
  ghost predicate StageClear(bs: seq<Beat>, k: nat, j: nat)
    requires k < |bs| && j < |bs[k].inFlight|
  {
    bs[k].inFlight[j] && bs[k].occupied ==> exists w :: k - 1 - j <= w && RungAt(bs, w, k)
  }

  lemma {:induction false} AllClear(bs: seq<Beat>, stages: nat, k: nat, j: nat)
    requires BeatRun(bs, stages) && k < |bs| && j < stages
    ensures StageClear(bs, k, j)
    decreases k
  {
    if k > 0 && bs[k].inFlight[j] && bs[k].occupied {
      var p := k - 1;
      assert Follows(bs[p], bs[k]) && Sound(bs[p]);
      if j > 0 {
        var i := j - 1;
        assert bs[k].inFlight[j] == bs[p].inFlight[i];
        AllClear(bs, stages, p, i);
      }
      if bs[p].write {
        assert RungAt(bs, p, k);
      } else {
        assert !bs[p].final && bs[p].Stuck();
        var w :| p - 1 - (j - 1) <= w && RungAt(bs, w, p);
        assert RungAt(bs, w, k);
      }
    }
  }

  /** A finalize overwrites an event only where a register write rang while it was in flight, and the sink has not been
      ready since. */
  lemma FinalizeOverwritesOnlyAWrite(bs: seq<Beat>, stages: nat, e: nat) returns (w: nat)
    requires BeatRun(bs, stages) && e < |bs| && bs[e].final && bs[e].Loses()
    ensures e - stages <= w && RungAt(bs, w, e)
  {
    AllClear(bs, stages, e, stages - 1);
    w :| e - 1 - (stages - 1) <= w && RungAt(bs, w, e);
  }

  // ---- exactly when events are lost ----

  // A finalize rings at edge e, and the sink has not been ready since edge k.
  ghost predicate RungOver(bs: seq<Beat>, k: nat, e: nat)
    requires e < |bs|
  {
    bs[e].final && forall r :: k < r <= e ==> !bs[r].ready
  }

  // The register write that rings at edge k finds the event register free or being emptied, and the sink is ready
  // again before a finalize then in flight rings.
  ghost predicate Safe(bs: seq<Beat>, stages: nat, k: nat)
    requires k < |bs|
  {
    !bs[k].Stuck() && forall e :: k < e < |bs| && e <= k + stages ==> !RungOver(bs, k, e)
  }

  ghost predicate AllSafe(bs: seq<Beat>, stages: nat)
  {
    forall k :: 0 <= k < |bs| && bs[k].write ==> Safe(bs, stages, k)
  }

  lemma {:induction false} NoLossesIff(bs: seq<Beat>, n: nat)
    requires n <= |bs|
    ensures Losses(bs, n) == 0 <==> forall k :: 0 <= k < n ==> !bs[k].Loses()
  {
    if n > 0 { NoLossesIff(bs, n - 1); }
  }

  // An event that the sink does not take stays in the register.
  lemma {:induction false} EventStays(bs: seq<Beat>, stages: nat, k: nat, e: nat)
    requires BeatRun(bs, stages) && k < e < |bs| && (bs[k].write || bs[k].final)
    requires forall r :: k < r < e ==> !bs[r].ready
    ensures bs[e].occupied
    decreases e
  {
    var p := e - 1;
    assert Follows(bs[p], bs[e]);
    if p > k { EventStays(bs, stages, k, p); }
  }

  lemma UnsafeLoses(bs: seq<Beat>, stages: nat, k: nat) returns (e: nat)
    requires BeatRun(bs, stages) && k < |bs| && bs[k].write && !Safe(bs, stages, k)
    ensures e < |bs| && bs[e].Loses()
  {
    if bs[k].Stuck() {
      e := k;
    } else {
      e :| k < e < |bs| && e <= k + stages && RungOver(bs, k, e);
      EventStays(bs, stages, k, e);
    }
  }

  lemma LossIsUnsafe(bs: seq<Beat>, stages: nat, e: nat) returns (k: nat)
    requires BeatRun(bs, stages) && e < |bs| && bs[e].Loses()
    ensures k < |bs| && bs[k].write && !Safe(bs, stages, k)
  {
    if bs[e].write {
      k := e;
    } else {
      k := FinalizeOverwritesOnlyAWrite(bs, stages, e);
      assert RungOver(bs, k, e);
    }
  }

  /** Over any run, no event is lost if and only if every register write that rings finds the event register free or
      being emptied, and the sink is ready again before a finalize then in flight rings. */
  lemma NothingLostIffWritesSafe(bs: seq<Beat>, stages: nat)
    requires BeatRun(bs, stages)
    ensures Losses(bs, |bs|) == 0 <==> AllSafe(bs, stages)
  {
    NoLossesIff(bs, |bs|);
    if e :| 0 <= e < |bs| && bs[e].Loses() {
      var k := LossIsUnsafe(bs, stages, e);
    } else if k :| 0 <= k < |bs| && bs[k].write && !Safe(bs, stages, k) {
      var e := UnsafeLoses(bs, stages, k);
    }
  }

  /** None is lost while no register write rings, whatever the sink does. */
  lemma QuietWritesLoseNothing(bs: seq<Beat>, stages: nat)
    requires BeatRun(bs, stages) && forall k :: 0 <= k < |bs| ==> !bs[k].write
    ensures Losses(bs, |bs|) == 0
  {
    NothingLostIffWritesSafe(bs, stages);
  }

  /** A register write that rings loses exactly one event if one is in the register and is not being taken, and none
      otherwise. */
  lemma RingingWriteLoses(bs: seq<Beat>, k: nat)
    requires k < |bs| && bs[k].write
    ensures Losses(bs, k + 1) - Losses(bs, k) == if bs[k].occupied && !bs[k].ready then 1 else 0
  {
  }

  // ---- the pipeline's cycles ----

  // The last stage rings.
  predicate Rings(s: Rtl, cplSize: nat)
    requires |s.pipe| == |s.fetch| > 0 && |s.m.table.active| == |s.m.table.queue| == |s.m.table.ptr| > 0
    requires |s.fetch[|s.fetch| - 1].base| == 7 && (Last(s).Write? ==> |Last(s).strobe| == 4)
  {
    Execute(s.m.table, s.fetch[|s.fetch| - 1], Last(s), cplSize).event.Some?
  }

  ghost function BeatOf(s: Rtl, i: Input, cplSize: nat): Beat
    requires Shape(s)
  {
    Beat(Last(s).Write? && Rings(s, cplSize), Last(s).Finalize? && Rings(s, cplSize), s.regs.event.Some?, i.eventReady,
         seq(|s.pipe|, j requires 0 <= j < |s.pipe| => s.pipe[j].Finalize?))
  }

  lemma BeatIsSound(s: Rtl, i: Input, cplSize: nat)
    requires Inv(s)
    ensures Sound(BeatOf(s, i, cplSize))
    ensures Rings(s, cplSize) ==> Last(s).Write? || Last(s).Finalize?
  {
    forall j, k | 0 <= j < k < |s.pipe|
      ensures !(s.pipe[j].Finalize? && s.pipe[k].Finalize?)
    {
      assert Apart(s.pipe[j], s.pipe[k]);
    }
  }

  lemma FinalizeWaits(s: Rtl, i: Input)
    requires Inv(s) && i.Valid(|s.m.ram|) && Dispatch(s, i).Finalize?
    ensures s.regs.event.None? || i.eventReady
  {
  }

  // The finalizes in flight move on, and one enters only if no event is stuck and none leaves.
  lemma FinalizesShift(s: Rtl, i: Input, cplSize: nat)
    requires Inv(s) && i.Valid(|s.m.ram|)
    ensures
      var r := Next(s, i, cplSize);
      && |r.pipe| == |s.pipe| && (forall j, n :: 0 <= j && n == j + 1 < |s.pipe| ==> r.pipe[n] == s.pipe[j])
      && (r.pipe[0].Finalize? ==> (s.regs.event.None? || i.eventReady) && !Last(s).Finalize?)
  {
    var x := Dispatch(s, i);
    DispatchAdmits(s, i);
    EdgeShifts(s, i, LastEffect(s, cplSize), x);
    assert Apart(x, Last(s));
    if x.Finalize? { FinalizeWaits(s, i); }
  }

  lemma BeatFollows(s: Rtl, i: Input, i': Input, cplSize: nat)
    requires Inv(s) && i.Valid(|s.m.ram|) && Inv(Next(s, i, cplSize))
    ensures Follows(BeatOf(s, i, cplSize), BeatOf(Next(s, i, cplSize), i', cplSize))
  {
    FinalizesShift(s, i, cplSize);
    BeatIsSound(s, i, cplSize);
  }

  // ---- traces ----

  lemma TraceStepInv(t: Trace, i: Input, cplSize: nat)
    requires Inv(t.rtl) && i.Valid(|t.rtl.m.ram|)
    ensures
      var r := TraceStep(t, i, cplSize);
      && Inv(r.rtl) && |r.rtl.m.ram| == |t.rtl.m.ram| && |r.rtl.pipe| == |t.rtl.pipe|
      && r.rtl == Next(t.rtl, i, cplSize)
      && r.lost == t.lost + Bit(BeatOf(t.rtl, i, cplSize).Loses(), 1)
  {
    var s, e, x := t.rtl, LastEffect(t.rtl, cplSize), Dispatch(t.rtl, i);
    DispatchAdmits(s, i);
    EdgeInv(s, i, e, x);
    EdgeShape(s, i, e, x);
    EdgeShifts(s, i, e, x);
    BeatIsSound(s, i, cplSize);
  }

  // bs are the cycles of the trace t from reset.
  ghost predicate BeatsOf(queues: nat, entries: nat, stages: nat, ins: seq<Input>, t: Trace, bs: seq<Beat>, cplSize: nat)
    requires queues > 0 && entries > 0
    decreases |ins|
  {
    if ins == [] then bs == [] && t.rtl == Reset(queues, entries, stages)
    else exists before: Trace :: BeatsExtend(queues, entries, stages, ins, before, t, bs, cplSize)
  }

  ghost predicate BeatsExtend(queues: nat, entries: nat, stages: nat, ins: seq<Input>, before: Trace, t: Trace,
                              bs: seq<Beat>, cplSize: nat)
    requires queues > 0 && entries > 0 && ins != []
    decreases |ins|, 0
  {
    var n := |ins| - 1;
    && |bs| == |ins| && Inv(before.rtl) && ins[n].Valid(|before.rtl.m.ram|)
    && t == TraceStep(before, ins[n], cplSize) && bs[n] == BeatOf(before.rtl, ins[n], cplSize)
    && BeatsOf(queues, entries, stages, ins[..n], before, bs[..n], cplSize)
  }

  lemma LossesOfPrefix(bs: seq<Beat>, b: Beat, n: nat)
    requires n <= |bs|
    ensures Losses(bs + [b], n) == Losses(bs, n)
  {
    if n > 0 { LossesOfPrefix(bs, b, n - 1); }
  }

  lemma BeatRunOneMore(bs: seq<Beat>, stages: nat, b: Beat)
    requires BeatRun(bs, stages) && Sound(b) && |b.inFlight| == stages
    requires if bs == [] then forall j :: 0 <= j < stages ==> !b.inFlight[j] else Follows(bs[|bs| - 1], b)
    ensures BeatRun(bs + [b], stages) && Losses(bs + [b], |bs| + 1) == Losses(bs, |bs|) + Bit(b.Loses(), 1)
  {
    LossesOfPrefix(bs, b, |bs|);
    FollowsOneMore(bs, stages, b);
  }

  lemma FollowsOneMore(bs: seq<Beat>, stages: nat, b: Beat)
    requires BeatRun(bs, stages) && Sound(b) && |b.inFlight| == stages
    requires if bs == [] then forall j :: 0 <= j < stages ==> !b.inFlight[j] else Follows(bs[|bs| - 1], b)
    ensures BeatRun(bs + [b], stages)
  {
    var r := bs + [b];
    forall k, n | 0 <= k && n == k + 1 < |r|
      ensures Follows(r[k], r[n])
    {
      if n < |bs| { assert Follows(bs[k], bs[n]); }
    }
  }

  // What the cycle after bs shows, whatever its inputs, if the state is s.
  ghost predicate GoesOn(bs: seq<Beat>, s: Rtl, stages: nat, cplSize: nat)
  {
    && Inv(s) && |s.pipe| == stages
    && (bs == [] ==> forall j :: 0 <= j < stages ==> !s.pipe[j].Finalize?)
    && (bs != [] ==> forall i: Input :: Follows(bs[|bs| - 1], BeatOf(s, i, cplSize)))
  }

  lemma CycleGoesOn(bs: seq<Beat>, before: Trace, i: Input, stages: nat, cplSize: nat)
    requires BeatRun(bs, stages) && GoesOn(bs, before.rtl, stages, cplSize) && i.Valid(|before.rtl.m.ram|)
    requires before.lost == Losses(bs, |bs|)
    ensures
      var r, t := bs + [BeatOf(before.rtl, i, cplSize)], TraceStep(before, i, cplSize);
      BeatRun(r, stages) && t.lost == Losses(r, |r|) && GoesOn(r, t.rtl, stages, cplSize)
  {
    TraceStepInv(before, i, cplSize);
    BeatIsSound(before.rtl, i, cplSize);
    BeatRunOneMore(bs, stages, BeatOf(before.rtl, i, cplSize));
    NextGoesOn(bs, before.rtl, i, stages, cplSize);
  }

  lemma NextGoesOn(bs: seq<Beat>, s: Rtl, i: Input, stages: nat, cplSize: nat)
    requires Inv(s) && i.Valid(|s.m.ram|) && Inv(Next(s, i, cplSize)) && |Next(s, i, cplSize).pipe| == stages
    ensures GoesOn(bs + [BeatOf(s, i, cplSize)], Next(s, i, cplSize), stages, cplSize)
  {
    forall j: Input
      ensures Follows(BeatOf(s, i, cplSize), BeatOf(Next(s, i, cplSize), j, cplSize))
    {
      BeatFollows(s, i, j, cplSize);
    }
  }

  // The cycles of a trace.
  lemma {:induction false} CyclesOf(queues: nat, entries: nat, stages: nat, ins: seq<Input>, t: Trace, cplSize: nat) returns (bs: seq<Beat>)
    requires queues > 0 && entries > 0 && stages >= 2 && Traces(queues, entries, stages, ins, t, cplSize)
    ensures BeatsOf(queues, entries, stages, ins, t, bs, cplSize) && |bs| == |ins|
    ensures BeatRun(bs, stages) && t.lost == Losses(bs, |bs|) && GoesOn(bs, t.rtl, stages, cplSize)
    decreases |ins|
  {
    if ins == [] {
      ResetInv(queues, entries, stages);
      bs := [];
    } else {
      var n := |ins| - 1;
      var before :| TraceExtends(queues, entries, stages, ins, before, t, cplSize);
      var most := CyclesOf(queues, entries, stages, ins[..n], before, cplSize);
      bs := OneCycleMore(queues, entries, stages, ins, before, t, most, cplSize);
    }
  }

  lemma OneCycleMore(queues: nat, entries: nat, stages: nat, ins: seq<Input>, before: Trace, t: Trace, most: seq<Beat>, cplSize: nat)
      returns (bs: seq<Beat>)
    requires queues > 0 && entries > 0 && stages >= 2 && ins != [] && |most| == |ins| - 1
    requires TraceExtends(queues, entries, stages, ins, before, t, cplSize)
    requires BeatsOf(queues, entries, stages, ins[..|ins| - 1], before, most, cplSize)
    requires BeatRun(most, stages) && before.lost == Losses(most, |most|) && GoesOn(most, before.rtl, stages, cplSize)
    ensures BeatsOf(queues, entries, stages, ins, t, bs, cplSize) && |bs| == |ins|
    ensures BeatRun(bs, stages) && t.lost == Losses(bs, |bs|) && GoesOn(bs, t.rtl, stages, cplSize)
  {
    var n := |ins| - 1;
    CycleGoesOn(most, before, ins[n], stages, cplSize);
    bs := most + [BeatOf(before.rtl, ins[n], cplSize)];
    assert bs[..n] == most;
    assert BeatsExtend(queues, entries, stages, ins, before, t, bs, cplSize);
  }

  /** Over every trace from reset: the sink sees exactly the serial events, up to the one still in the register, if and
      only if every register write that rings is safe. */
  lemma EventsExactIffWritesSafe(queues: nat, entries: nat, stages: nat, ins: seq<Input>, t: Trace, cplSize: nat)
      returns (serial: Serial, bs: seq<Beat>)
    requires queues > 0 && entries > 0 && stages >= 2 && Traces(queues, entries, stages, ins, t, cplSize)
    ensures SerialReaches(Initial(queues, entries), t.ops, serial, cplSize)
    ensures BeatsOf(queues, entries, stages, ins, t, bs, cplSize) && t.lost == Losses(bs, |bs|)
    ensures serial.out.events == t.sent.events + Opt(t.rtl.regs.event) <==> AllSafe(bs, stages)
  {
    serial := PipelineRefinesSerial(queues, entries, stages, ins, t, cplSize);
    bs := CyclesOf(queues, entries, stages, ins, t, cplSize);
    EventsExactIffNoneLost(serial.out, t);
    NothingLostIffWritesSafe(bs, stages);
  }

  // ---- a loss from reset ----

  // The inputs of a cycle in which at most a register write is offered and the sink of events is not ready.
  function Offer(w: StageOp): Input { Input(w, Empty, Empty, None, false, true, true, true, false) }

  // Nothing in flight and nothing outstanding.
  ghost predicate Quiet(s: Rtl)
  {
    && Inv(s) && s.pipe == [Empty, Empty]
    && (forall t :: 0 <= t < |s.m.table.active| ==> !s.m.table.active[t])
  }

  // With nothing outstanding only the write can enter.
  lemma OnlyTheWriteEnters(s: Rtl, w: StageOp)
    requires Shape(s) && (w.Write? || w.Empty?) && (forall t :: 0 <= t < |s.m.table.active| ==> !s.m.table.active[t])
    requires w.Write? ==> forall j :: 0 <= j < |s.pipe| ==> s.pipe[j].Empty?
    ensures Dispatch(s, Offer(w)) == w
  {
  }

  // An edge with nothing in the last stage.
  lemma ShiftEdge(t: Trace, w: StageOp, cplSize: nat)
    requires Inv(t.rtl) && Last(t.rtl).Empty? && |t.rtl.pipe| == 2 && (w.Write? || w.Empty?) && w.Valid(|t.rtl.m.ram|)
    requires forall k :: 0 <= k < |t.rtl.m.table.active| ==> !t.rtl.m.table.active[k]
    requires w.Write? ==> t.rtl.pipe[0].Empty?
    ensures
      var r := TraceStep(t, Offer(w), cplSize);
      && Inv(r.rtl) && r.rtl.m == t.rtl.m && r.rtl.pipe == [w, t.rtl.pipe[0]]
      && r.rtl.regs.event == t.rtl.regs.event && r.lost == t.lost && r.sent.events == t.sent.events
  {
    OnlyTheWriteEnters(t.rtl, w);
    TraceStepInv(t, Offer(w), cplSize);
  }

  // The edge at which a write executes.
  lemma WriteEdge(t: Trace, cplSize: nat)
    requires Inv(t.rtl) && |t.rtl.pipe| == 2 && t.rtl.pipe[0].Empty? && Last(t.rtl).Write?
    requires forall k :: 0 <= k < |t.rtl.m.table.active| ==> !t.rtl.m.table.active[k]
    ensures
      var r, e := TraceStep(t, Offer(Empty), cplSize), EffectOf(t.rtl.m, Last(t.rtl), cplSize).event;
      && Inv(r.rtl) && r.rtl.m == Apply(t.rtl.m, Last(t.rtl), cplSize) && r.rtl.pipe == [Empty, Empty]
      && r.rtl.regs.event == (if e.Some? then e else t.rtl.regs.event)
      && r.lost == t.lost + Bit(e.Some? && t.rtl.regs.event.Some?, 1) && r.sent.events == t.sent.events
  {
    OnlyTheWriteEnters(t.rtl, Empty);
    TraceStepInv(t, Offer(Empty), cplSize);
    SameEffect(t.rtl, cplSize);
    assert !HasFinalize(t.rtl.pipe);
  }

  lemma TracesAppend(queues: nat, entries: nat, stages: nat, ins: seq<Input>, t: Trace, i: Input, cplSize: nat)
    requires queues > 0 && entries > 0 && Traces(queues, entries, stages, ins, t, cplSize)
    requires Shape(t.rtl) && i.Valid(|t.rtl.m.ram|)
    ensures Traces(queues, entries, stages, ins + [i], TraceStep(t, i, cplSize), cplSize)
  {
    assert (ins + [i])[..|ins|] == ins;
    assert TraceExtends(queues, entries, stages, ins + [i], t, TraceStep(t, i, cplSize), cplSize);
  }

  // A write that has reached the last stage of a pipeline with nothing else, since the quiet state t.
  ghost predicate Reaching(t: Trace, r: Trace, w: StageOp)
  {
    && Inv(r.rtl) && r.rtl.m == t.rtl.m && r.rtl.pipe == [Empty, w]
    && r.rtl.regs.event == t.rtl.regs.event && r.lost == t.lost && r.sent.events == t.sent.events
  }

  lemma WriteReachesTheEnd(queues: nat, entries: nat, ins: seq<Input>, t: Trace, w: StageOp, cplSize: nat)
      returns (more: seq<Input>, r: Trace)
    requires queues > 0 && entries > 0 && Traces(queues, entries, 2, ins, t, cplSize) && Quiet(t.rtl)
    requires w.Write? && w.Valid(|t.rtl.m.ram|)
    ensures Traces(queues, entries, 2, more, r, cplSize) && Reaching(t, r, w)
  {
    ShiftEdge(t, w, cplSize);
    TracesAppend(queues, entries, 2, ins, t, Offer(w), cplSize);
    var t1 := TraceStep(t, Offer(w), cplSize);
    ShiftEdge(t1, Empty, cplSize);
    TracesAppend(queues, entries, 2, ins + [Offer(w)], t1, Offer(Empty), cplSize);
    more, r := ins + [Offer(w)] + [Offer(Empty)], TraceStep(t1, Offer(Empty), cplSize);
  }

  // A register write from offer to execution.
  lemma WriteRound(queues: nat, entries: nat, ins: seq<Input>, t: Trace, w: StageOp, cplSize: nat)
      returns (more: seq<Input>, r: Trace)
    requires queues > 0 && entries > 0 && Traces(queues, entries, 2, ins, t, cplSize) && Quiet(t.rtl)
    requires w.Write? && w.Valid(|t.rtl.m.ram|)
    ensures Traces(queues, entries, 2, more, r, cplSize) && Quiet(r.rtl)
    ensures r.rtl.m == Apply(t.rtl.m, w, cplSize) && r.sent.events == t.sent.events
    ensures
      var e := EffectOf(t.rtl.m, w, cplSize).event;
      && r.rtl.regs.event == (if e.Some? then e else t.rtl.regs.event)
      && r.lost == t.lost + Bit(e.Some? && t.rtl.regs.event.Some?, 1)
  {
    var ins2, t2 := WriteReachesTheEnd(queues, entries, ins, t, w, cplSize);
    WriteEdge(t2, cplSize);
    TracesAppend(queues, entries, 2, ins2, t2, Offer(Empty), cplSize);
    more, r := ins2 + [Offer(Empty)], TraceStep(t2, Offer(Empty), cplSize);
    WriteKeepsTable(t.rtl.m, w, cplSize);
  }

  lemma WriteKeepsTable(m: Manager, w: StageOp, cplSize: nat)
    requires m.Valid() && w.Write? && w.Valid(|m.ram|)
    ensures Apply(m, w, cplSize).table == m.table
  {
  }

  // Queue q of two is enabled or not, with pointers at zero.
  ghost predicate AtZero(m: Manager, q: nat, enabled: bool)
  {
    && m.Valid() && |m.ram| == 2 && q < 2
    && m.ram[q].prod == 0 && m.ram[q].eqn == 0 && m.ram[q].flags.enable == enabled
  }

  lemma EnableCommand(m: Manager, q: nat, cplSize: nat)
    requires AtZero(m, q, false)
    ensures
      var w := Write(q, 2, 0x4000_0101, ALL_LANES);
      && EffectOf(m, w, cplSize).event == None && AtZero(Apply(m, w, cplSize), q, true)
      && Apply(m, w, cplSize).ram[1 - q] == m.ram[1 - q]
  {
  }

  // Setting the consumer pointer to 1 and arming a queue whose producer pointer is 0.
  lemma ArmCommand(m: Manager, q: nat, cplSize: nat)
    requires AtZero(m, q, true)
    ensures
      var w := Write(q, 2, 0x8091_0001, ALL_LANES);
      && EffectOf(m, w, cplSize).event == Some(Event(0, q)) && Apply(m, w, cplSize).ram[1 - q] == m.ram[1 - q]
      && |Apply(m, w, cplSize).ram| == 2
  {
  }

  // Both queues enabled, no event yet.
  lemma BothEnabled(cplSize: nat) returns (ins: seq<Input>, t: Trace)
    ensures Traces(2, 2, 2, ins, t, cplSize) && Quiet(t.rtl) && AtZero(t.rtl.m, 0, true) && AtZero(t.rtl.m, 1, true)
    ensures t.lost == 0 && t.sent.events == [] && t.rtl.regs.event == None
  {
    ResetInv(2, 2, 2);
    var t0 := Trace(Reset(2, 2, 2), [], [], SILENT, 0);
    assert t0.rtl.m.ram == [BLANK, BLANK] && t0.rtl.pipe == [Empty, Empty];
    EnableCommand(t0.rtl.m, 0, cplSize);
    var ins1, t1 := WriteRound(2, 2, [], t0, Write(0, 2, 0x4000_0101, ALL_LANES), cplSize);
    EnableCommand(t1.rtl.m, 1, cplSize);
    ins, t := WriteRound(2, 2, ins1, t1, Write(1, 2, 0x4000_0101, ALL_LANES), cplSize);
  }

  // The first queue has rung.
  lemma FirstRings(cplSize: nat) returns (ins: seq<Input>, t: Trace)
    ensures Traces(2, 2, 2, ins, t, cplSize) && Quiet(t.rtl) && AtZero(t.rtl.m, 1, true)
    ensures t.lost == 0 && t.sent.events == [] && t.rtl.regs.event == Some(Event(0, 0))
  {
    ins, t := BothEnabled(cplSize);
    ArmCommand(t.rtl.m, 0, cplSize);
    ins, t := WriteRound(2, 2, ins, t, Write(0, 2, 0x8091_0001, ALL_LANES), cplSize);
  }

  /** A trace from reset that loses an event: two queues are enabled, each is given a consumer pointer and armed, so
      each rings, and the sink takes neither; the event of the first is replaced by that of the second. */
  lemma EventCanBeOverwritten(cplSize: nat) returns (ins: seq<Input>, t: Trace)
    ensures Traces(2, 2, 2, ins, t, cplSize)
    ensures t.lost == 1 && t.sent.events == [] && t.rtl.regs.event == Some(Event(0, 1))
  {
    ins, t := FirstRings(cplSize);
    ArmCommand(t.rtl.m, 1, cplSize);
    ins, t := WriteRound(2, 2, ins, t, Write(1, 2, 0x8091_0001, ALL_LANES), cplSize);
  }
}

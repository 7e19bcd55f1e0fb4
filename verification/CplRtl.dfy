/**
 The completion queue manager in the form of its source: memories and registers updated at a clock edge.
 Clock is proved against CplPipeline.Next, about which CplRefinement proves the refinement theorem.
 */
module CplRtl {
  import opened Arith
  import opened CplQueueManager
  import opened CplPipeline

  // One pass over the stages, as in the hazard loop: does an operation like this get in?
  method Scan(pipe: seq<StageOp>, ready: bool, like: StageOp) returns (ok: bool)
    ensures ok == Passes(pipe, ready, like)
  {
    if !ready || like.Empty? {
      return false;
    }
    var hazard, busy := false, false;
    for j := 0 to |pipe|
      invariant hazard == Hazard(pipe[..j], like.queue)
      invariant busy == Busy(pipe[..j], like)
    {
      assert pipe[..j + 1] == pipe[..j] + [pipe[j]];
      hazard := hazard || (!pipe[j].Empty? && pipe[j].queue == like.queue);
      busy := busy || SameKind(pipe[j], like);
    }
    assert pipe[..|pipe|] == pipe;
    ok := !hazard && !busy;
  }

  method Accept(s: Rtl, i: Input) returns (x: StageOp)
    requires s.m.Valid()
    ensures x == Dispatch(s, i)
  {
    var t := s.m.table;
    var f := Finalize(t.queue[t.finish], t.ptr[t.finish]);
    var write := Scan(s.pipe, !s.regs.bvalid || i.bready, i.write);
    var read := Scan(s.pipe, s.regs.rdata.None? || i.rready, i.read);
    var commit := Scan(s.pipe, t.active[t.finish] && t.commit[t.finish] && (s.regs.event.None? || i.eventReady), f);
    var req := Scan(s.pipe, i.enable && !t.active[t.start] && (s.regs.resp.None? || i.respReady), i.req);
    x := if write then i.write else if read then i.read else if commit then f else if req then i.req else Empty;
  }

  class CplQueueManagerRtl {
    const cplSize: nat
    const queueRam: array<QueueWord>
    const opActive: array<bool>
    const opCommit: array<bool>
    const opQueue: array<nat>
    const opPtr: array<nat>
    const pipe: array<StageOp>
    const fetch: array<QueueWord>
    var start: nat
    var finish: nat
    var regs: Regs

    ghost function Memories(): set<object> {
      {queueRam as object, opActive as object, opCommit as object, opQueue as object, opPtr as object,
       pipe as object, fetch as object}
    }

    function View(): Rtl
      reads this, Memories()
    {
      Rtl(Manager(queueRam[..], Table(opActive[..], opCommit[..], opQueue[..], opPtr[..], start, finish)),
          pipe[..], fetch[..], regs)
    }

    ghost predicate Valid()
      reads this, Memories()
    {
      opActive != opCommit && opQueue != opPtr && queueRam != fetch && Inv(View())
    }

    constructor (queues: nat, entries: nat, stages: nat, cplSize: nat)
      requires queues > 0 && entries > 0 && stages >= 2
      ensures Valid() && fresh(Memories()) && this.cplSize == cplSize
      ensures View() == Reset(queues, entries, stages)
    {
      this.cplSize := cplSize;
      queueRam := new QueueWord[queues](_ => BLANK);
      opActive := new bool[entries](_ => false);
      opCommit := new bool[entries](_ => false);
      opQueue := new nat[entries](_ => 0);
      opPtr := new nat[entries](_ => 0);
      pipe := new StageOp[stages](_ => Empty);
      fetch := new QueueWord[stages](_ => BLANK);
      start, finish := 0, 0;
      regs := Regs(false, None, None, false, None);
      new;
      ResetInv(queues, entries, stages);
      assert queueRam[..] == seq(queues, _ => BLANK) && fetch[..] == seq(stages, _ => BLANK);
      assert opActive[..] == seq(entries, _ => false) && opCommit[..] == seq(entries, _ => false);
      assert opQueue[..] == seq(entries, _ => 0) && opPtr[..] == seq(entries, _ => 0);
      assert pipe[..] == seq(stages, _ => Empty);
      assert View() == Reset(queues, entries, stages);
    }

    // The op_table updates of one edge.
    method UpdateTable(t: Table, op: StageOp, e: Effect, x: StageOp, tag: Option<nat>)
      requires opActive != opCommit && opQueue != opPtr
      requires t == Table(opActive[..], opCommit[..], opQueue[..], opPtr[..], start, finish) && t.Valid(queueRam.Length)
      requires e.starts.Some? ==> op.Request?
      modifies opActive, opCommit, opQueue, opPtr, this`start, this`finish
      ensures Table(opActive[..], opCommit[..], opQueue[..], opPtr[..], start, finish) == NextTable(t, op, e, x, tag)
    {
      if e.starts.Some? {
        opActive[start], opCommit[start] := true, false;
        opQueue[start] := op.queue;
        opPtr[start] := e.starts.value;
        start := Succ(start, opActive.Length);
      }
      if x.Finalize? {
        opActive[finish] := false;
        finish := Succ(finish, opActive.Length);
      }
      if tag.Some? {
        opCommit[tag.value % opCommit.Length] := true;
      }
    }

    // Every stage takes over from the one before it; stage 0 takes x and the RAM word w.
    method Shift(x: StageOp, w: QueueWord)
      requires pipe.Length == fetch.Length > 0 && queueRam != fetch
      modifies pipe, fetch
      ensures pipe[..] == [x] + old(pipe[..pipe.Length - 1])
      ensures fetch[..] == [w] + old(fetch[..fetch.Length - 1])
    {
      var j := pipe.Length - 1;
      while j > 0
        invariant 0 <= j < pipe.Length
        invariant forall k :: 0 <= k <= j ==> pipe[k] == old(pipe[k])
        invariant forall k :: 0 <= k <= j ==> fetch[k] == old(fetch[k])
        invariant forall k :: j < k < pipe.Length ==> pipe[k] == old(pipe[k - 1])
        invariant forall k :: j < k < pipe.Length ==> fetch[k] == old(fetch[k - 1])
      {
        pipe[j], fetch[j] := pipe[j - 1], fetch[j - 1];
        j := j - 1;
      }
      pipe[0], fetch[0] := x, w;
    }

    // The non-blocking assignments of an edge at which the last stage decides e and x enters;
    // s is the state before the edge.
    method Update(s: Rtl, i: Input, e: Effect, x: StageOp)
      requires s == View() && opActive != opCommit && opQueue != opPtr && queueRam != fetch && Shape(s)
      requires Fits(e, Last(s), s.fetch[|s.fetch| - 1]) && x.Valid(|s.m.ram|)
      modifies this, Memories()
      ensures View() == Edge(s, i, e, x)
    {
      var op := Last(s);
      if !op.Empty? {
        queueRam[op.queue] := Merge(s.m.ram[op.queue], e.data, e.be);
      }
      assert queueRam[..] == NextRam(s.m.ram, op, e);
      UpdateTable(s.m.table, op, e, x, CommitTag(s, i));
      Shift(x, s.m.ram[if x.Empty? then 0 else x.queue]);
      regs := NextRegs(s.regs, i, e);
    }

    // posedge clk.
    method Clock(i: Input)
      requires Valid() && i.Valid(queueRam.Length)
      modifies this, Memories()
      ensures Valid() && View() == Next(old(View()), i, cplSize)
    {
      var s := View();
      var e := LastEffect(s, cplSize);
      var x := Accept(s, i);
      DispatchAdmits(s, i);
      Update(s, i, e, x);
      EdgeInv(s, i, e, x);
    }
  }
}

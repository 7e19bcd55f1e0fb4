/**
 Draining at the clock: with every outstanding operation committed, no new register access or request and a ready sink,
 the pipeline finalizes all of them within a bounded number of edges.
 */
module CplDrain {
  import opened Arith
  import opened CplQueueManager
  import opened CplPipeline
  import R = CplRefinement
  import F = CplFifo
  import S = CplSimulation
  import T = CplTheorems
  import E = CplEndToEnd
  import D = CplDispatch

  // Nothing offered, and the sink takes events.
  predicate Quiet(i: Input) { i.write.Empty? && i.read.Empty? && i.req.Empty? && i.commit.None? && i.eventReady }

  // rs are the states that these inputs lead through.
  ghost predicate Steps(rs: seq<Rtl>, ins: seq<Input>, cplSize: nat) {
    |rs| == |ins| + 1 && forall k :: 0 <= k < |ins| ==> StepAt(rs, ins, k, cplSize)
  }

  ghost predicate StepAt(rs: seq<Rtl>, ins: seq<Input>, k: nat, cplSize: nat)
    requires k < |ins| && |rs| == |ins| + 1
  {
    Shape(rs[k]) && ins[k].Valid(|rs[k].m.ram|) && Quiet(ins[k]) && rs[k + 1] == Next(rs[k], ins[k], cplSize)
  }

  // A register write in flight is one that the driver may make.
  ghost predicate Lawful(a: F.Fifo, op: StageOp)
    requires F.Valid(a)
  {
    op.Write? ==> exists b: F.Fifo :: E.Means(a, R.Do(op), b)
  }

  // The registers hold the list a, all of it committed; no request is in flight and the writes in flight are lawful.
  ghost predicate Committed(s: Rtl, a: F.Fifo) {
    && Inv(s) && S.Simulates(Abs(s), a) && T.AllCommitted(a.ops)
    && forall j :: 0 <= j < |s.pipe| ==> !s.pipe[j].Request? && Lawful(a, s.pipe[j])
  }

  // Where the finalize in flight is, |pipe| if there is none; and up to where there is no register access.
  ghost predicate At(pipe: seq<StageOp>, f: nat, b: nat) {
    && f <= |pipe| && b <= |pipe| && (f < |pipe| ==> pipe[f].Finalize?)
    && (forall j :: 0 <= j < |pipe| && pipe[j].Finalize? ==> j == f)
    && (forall j :: 0 <= j < b ==> pipe[j].Empty? || pipe[j].Finalize?)
  }

  // An upper bound on the edges left, for n operations and a pipeline of p stages.
  function Left(p: nat, n: nat, f: nat, b: nat): int {
    (p - b) + if f < p then (p - f) + (n - 1) * (p + 1) else n * (p + 1)
  }

  // ---- one edge ----

  // The last stage happens atomically.
  ghost predicate Happens(s: Rtl, r: Rtl, cplSize: nat)
    requires Inv(s)
  {
    && Inv(r) && |r.pipe| == |s.pipe| && |r.m.ram| == |s.m.ram|
    && if Last(s).Empty? then Abs(r) == Abs(s)
       else R.Allowed(Abs(s), R.Do(Last(s))) && Abs(r) == Apply(Abs(s), Last(s), cplSize)
  }

  lemma EdgeHappens(s: Rtl, i: Input, e: Effect, x: StageOp, cplSize: nat)
    requires Stepping(s, i, e, x) && i.commit.None?
    requires Enabled(Abs(s), Last(s)) && (Last(s).Empty? || e == EffectOf(Abs(s), Last(s), cplSize))
    ensures Happens(s, Edge(s, i, e, x), cplSize)
  {
    EdgeInv(s, i, e, x);
    EdgeShape(s, i, e, x);
    EdgeShifts(s, i, e, x);
    EdgeRefines(s, i, e, x);
  }

  lemma NextHappens(s: Rtl, i: Input, cplSize: nat)
    requires Inv(s) && i.Valid(|s.m.ram|) && i.commit.None?
    ensures Happens(s, Next(s, i, cplSize), cplSize)
  {
    DispatchAdmits(s, i);
    SameEffect(s, cplSize);
    EdgeHappens(s, i, LastEffect(s, cplSize), Dispatch(s, i), cplSize);
  }

  // ---- the list ----

  ghost predicate NoWrite(pipe: seq<StageOp>, q: nat) {
    forall j :: 0 <= j < |pipe| ==> !(pipe[j].Write? && pipe[j].queue == q)
  }

  // No record is started: what was started stays so, except of a queue that a write in flight reprograms.
  ghost predicate SameStarted(pipe: seq<StageOp>, a: F.Fifo, b: F.Fifo) {
    |b.queues| == |a.queues| && forall q :: 0 <= q < |a.queues| && NoWrite(pipe, q) ==> b.Started(q) == a.Started(q)
  }

  // A lawful write stays lawful when an operation is finalized.
  lemma FinalizeKeepsLawful(a: F.Fifo, op: StageOp)
    requires F.Valid(a) && a.ops != [] && Lawful(a, op)
    ensures F.Valid(F.Finalize(a)) && Lawful(F.Finalize(a), op)
  {
    F.FinalizeKeepsValid(a);
    var r := F.Finalize(a);
    if op.Write? {
      var b: F.Fifo :| E.Means(a, R.Do(op), b);
      var q := op.queue;
      F.CountHead(a.ops, q);
      if op.reg < 2 {
        var base := E.BaseAfter(r.queues[q], q, op.reg, op.data, op.strobe);
        assert E.Means(r, R.Do(op), r.(queues := r.queues[q := r.queues[q].(base := base)]));
      } else {
        var c :| E.CommandsQueue(a, q, op.data, c, b);
        FinalizeKeepsLegal(a, q, c);
        assert E.CommandsQueue(r, q, op.data, c, F.Program(r, q, c));
        assert E.Means(r, R.Do(op), F.Program(r, q, c));
      }
    }
  }

  lemma FinalizeKeepsLegal(a: F.Fifo, q: nat, c: F.Command)
    requires F.Valid(a) && a.ops != [] && q < |a.queues| && F.Legal(a, q, c)
    ensures F.Legal(F.Finalize(a), q, c)
  {
    F.FinalizeKeepsValid(a);
    F.CountHead(a.ops, q);
  }

  // What the operation of the last stage makes of the list.
  lemma ListAfter(s: Rtl, a: F.Fifo, r: Rtl, cplSize: nat) returns (b: F.Fifo)
    requires Committed(s, a) && Happens(s, r, cplSize)
    ensures S.Simulates(Abs(r), b) && T.AllCommitted(b.ops) && SameStarted(s.pipe, a, b)
    ensures if Last(s).Finalize? then a.ops != [] && b == F.Finalize(a) else b.ops == a.ops
    ensures !Last(s).Finalize? && !Last(s).Write? ==> b == a
  {
    var op := Last(s);
    assert Lawful(a, op) && !op.Request?;
    b := a;
    if op.Finalize? {
      S.FinalizeSimulates(Abs(s), a, op.queue, op.ptr, cplSize);
      F.FinalizeKeepsValid(a);
      b := F.Finalize(a);
    } else if op.Write? {
      b :| E.Means(a, R.Do(op), b);
      E.AtomicSimulates(Abs(s), a, R.Do(op), b, cplSize);
      WriteKeepsOps(a, op, b);
      assert forall q :: 0 <= q < |a.queues| && NoWrite(s.pipe, q) ==> q != op.queue;
    } else if op.Read? {
      E.AtomicSimulates(Abs(s), a, R.Do(op), b, cplSize);
    }
  }

  lemma WriteKeepsOps(a: F.Fifo, op: StageOp, b: F.Fifo)
    requires F.Valid(a) && op.Write? && E.Means(a, R.Do(op), b)
    ensures b.ops == a.ops && |b.queues| == |a.queues|
    ensures forall q :: 0 <= q < |a.queues| && q != op.queue ==> b.Started(q) == a.Started(q)
  {
    if op.reg >= 2 {
      var c :| E.CommandsQueue(a, op.queue, op.data, c, b);
    }
  }

  // ---- the pipeline ----

  // What a quiet edge does to the stages: the finalize moves on, or one enters where it can; n operations were left.
  ghost predicate Moves(pipe: seq<StageOp>, r: seq<StageOp>, n: nat, f: nat, b: nat, f': nat, b': nat) {
    && |r| == |pipe| && At(pipe, f, b) && At(r, f', b') && b' == (if b < |r| then b + 1 else b)
    && (f < |r| ==> f' == f + 1 && n > 0)
    && (f == |r| ==> (f' == 0 && n > 0) || (f' == |r| && (n == 0 || b < |r|)))
    && (forall j :: 0 <= j < |r| && r[j].Write? ==> j > 0 && r[j] == pipe[j - 1])
    && (forall j :: 0 <= j < |r| ==> !r[j].Request?)
  }

  lemma StagesMove(s: Rtl, a: F.Fifo, i: Input, f: nat, b: nat, cplSize: nat) returns (f': nat, b': nat)
    requires Committed(s, a) && Quiet(i) && i.Valid(|s.m.ram|) && At(s.pipe, f, b)
    ensures Moves(s.pipe, Next(s, i, cplSize).pipe, |a.ops|, f, b, f', b')
  {
    D.EnteredIs(s, i, cplSize);
    var r, p := Next(s, i, cplSize).pipe, |s.pipe|;
    if f < p { InFlightIsFirst(s, a, f); } else { HeadIsOldest(s, a); }
    f', b' := Moved(s, i, r, |a.ops|, f, b);
  }

  lemma Moved(s: Rtl, i: Input, r: seq<StageOp>, n: nat, f: nat, b: nat) returns (f': nat, b': nat)
    requires s.m.Valid() && Quiet(i) && At(s.pipe, f, b) && |r| == |s.pipe| > 0
    requires D.FirstIn(s, i, r[0]) && forall j :: 0 < j < |r| ==> r[j] == s.pipe[j - 1]
    requires forall j :: 0 <= j < |s.pipe| ==> !s.pipe[j].Request?
    requires f < |r| ==> n > 0
    requires f == |r| ==>
      var t := s.m.table;
      (t.active[t.finish] <==> n > 0) && (n > 0 ==> t.commit[t.finish])
    ensures Moves(s.pipe, r, n, f, b, f', b')
  {
    var p := |s.pipe|;
    b' := if b < p then b + 1 else b;
    f' := if f < p then f + 1 else if r[0].Finalize? then 0 else p;
    assert f < p ==> !D.FinalizeIn(s, i);
    assert f == p && b == p && n > 0 ==> D.FinalizeIn(s, i);
  }

  // A finalize in flight is that of the oldest operation.
  lemma InFlightIsFirst(s: Rtl, a: F.Fifo, f: nat)
    requires Inv(s) && S.Simulates(Abs(s), a) && f < |s.pipe| && s.pipe[f].Finalize?
    ensures a.ops != []
  {
    assert S.HoldsSlot(Abs(s), a, a.first);
  }

  // With none in flight the table's finish entry is the oldest operation.
  lemma HeadIsOldest(s: Rtl, a: F.Fifo)
    requires Inv(s) && S.Simulates(Abs(s), a) && T.AllCommitted(a.ops) && !HasFinalize(s.pipe)
    ensures Abs(s) == s.m
    ensures
      var t := s.m.table;
      && (t.active[t.finish] <==> a.ops != []) && (a.ops != [] ==> t.commit[t.finish])
  {
    assert S.HoldsSlot(s.m, a, a.first);
  }

  lemma LeftDrops(p: nat, n: nat, f: nat, b: nat, n': nat, f': nat, b': nat)
    requires p >= 2 && f <= p && b <= p && b' == (if b < p then b + 1 else b)
    requires f < p ==> f' == f + 1 && n > 0
    requires f == p ==> (f' == 0 && n > 0) || (f' == p && (n == 0 || b < p))
    requires n' == if f == p - 1 then n - 1 else n
    ensures 0 <= Left(p, n', f', b')
    ensures Left(p, n, f, b) > 0 ==> Left(p, n', f', b') < Left(p, n, f, b)
    ensures Left(p, n, f, b) == 0 ==> Left(p, n', f', b') == 0
  {
    if n > 0 {
      Times(n, p);
      NotNegative(n - 1, p + 1);
    }
  }

  lemma Times(n: nat, p: nat)
    requires n > 0
    ensures n * (p + 1) == (n - 1) * (p + 1) + p + 1
  {
  }

  lemma NotNegative(n: nat, p: nat)
    ensures n * p >= 0
  {
  }

  // Writes in flight stay lawful.
  lemma CommittedAfter(s: Rtl, a: F.Fifo, r: Rtl, b: F.Fifo, cplSize: nat)
    requires Committed(s, a) && Happens(s, r, cplSize) && S.Simulates(Abs(r), b) && T.AllCommitted(b.ops)
    requires if Last(s).Finalize? then a.ops != [] && b == F.Finalize(a) else true
    requires !Last(s).Finalize? && !Last(s).Write? ==> b == a
    requires forall j :: 0 <= j < |r.pipe| && r.pipe[j].Write? ==> j > 0 && r.pipe[j] == s.pipe[j - 1]
    requires forall j :: 0 <= j < |r.pipe| ==> !r.pipe[j].Request?
    ensures Committed(r, b)
  {
    forall j | 0 <= j < |r.pipe| ensures Lawful(b, r.pipe[j]) {
      if r.pipe[j].Write? {
        assert Lawful(a, s.pipe[j - 1]) && Apart(s.pipe[j - 1], s.pipe[|s.pipe| - 1]);
        if Last(s).Finalize? { FinalizeKeepsLawful(a, r.pipe[j]); }
      }
    }
  }

  ghost predicate FewerLeft(p: nat, n: nat, f: nat, b: nat, n': nat, f': nat, b': nat) {
    && 0 <= Left(p, n', f', b') && (Left(p, n, f, b) == 0 ==> Left(p, n', f', b') == 0)
    && (0 < Left(p, n, f, b) ==> Left(p, n', f', b') < Left(p, n, f, b))
  }

  // One edge nearer to the end.
  lemma EdgeDrains(s: Rtl, a: F.Fifo, i: Input, f: nat, b: nat, cplSize: nat) returns (a': F.Fifo, f': nat, b': nat)
    requires Committed(s, a) && Quiet(i) && i.Valid(|s.m.ram|) && At(s.pipe, f, b)
    ensures Nearer(s, a, f, b, Next(s, i, cplSize), a', f', b')
  {
    var r := Next(s, i, cplSize);
    NextHappens(s, i, cplSize);
    a' := ListAfter(s, a, r, cplSize);
    f', b' := StagesMove(s, a, i, f, b, cplSize);
    CommittedAfter(s, a, r, a', cplSize);
    IsNearer(s, a, f, b, r, a', f', b');
  }

  ghost predicate Nearer(s: Rtl, a: F.Fifo, f: nat, b: nat, r: Rtl, a': F.Fifo, f': nat, b': nat) {
    && |r.pipe| == |s.pipe| >= 2 && |r.m.ram| == |s.m.ram| && Committed(r, a') && At(r.pipe, f', b')
    && SameStarted(s.pipe, a, a') && WritesOnly(s.pipe, r.pipe)
    && FewerLeft(|s.pipe|, |a.ops|, f, b, |a'.ops|, f', b')
  }

  // No write comes in.
  ghost predicate WritesOnly(pipe: seq<StageOp>, r: seq<StageOp>) {
    forall q :: NoWrite(pipe, q) ==> NoWrite(r, q)
  }

  lemma IsNearer(s: Rtl, a: F.Fifo, f: nat, b: nat, r: Rtl, a': F.Fifo, f': nat, b': nat)
    requires |s.pipe| >= 2 && |r.m.ram| == |s.m.ram| && Committed(r, a') && Moves(s.pipe, r.pipe, |a.ops|, f, b, f', b')
    requires SameStarted(s.pipe, a, a')
    requires if Last(s).Finalize? then a.ops != [] && a'.ops == a.ops[1..] else a'.ops == a.ops
    ensures Nearer(s, a, f, b, r, a', f', b')
  {
    LeftDrops(|s.pipe|, |a.ops|, f, b, |a'.ops|, f', b');
    forall q | NoWrite(s.pipe, q) ensures NoWrite(r.pipe, q) { WritesMoveOn(s.pipe, r.pipe, q); }
  }

  lemma WritesMoveOn(pipe: seq<StageOp>, r: seq<StageOp>, q: nat)
    requires |r| == |pipe| && NoWrite(pipe, q)
    requires forall j :: 0 <= j < |r| && r[j].Write? ==> j > 0 && r[j] == pipe[j - 1]
    ensures NoWrite(r, q)
  {
  }

  // ---- whole runs ----

  // How far the drain from s and a is after k edges.
  ghost predicate DrainedBy(s: Rtl, a: F.Fifo, left: int, k: nat, r: Rtl, z: F.Fifo, f: nat, b: nat) {
    && |r.pipe| == |s.pipe| && |r.m.ram| == |s.m.ram| && Committed(r, z) && At(r.pipe, f, b)
    && SameStarted(s.pipe, a, z) && WritesOnly(s.pipe, r.pipe)
    && Left(|s.pipe|, |z.ops|, f, b) <= if left < k then 0 else left - k
  }

  lemma EdgeAfter(s: Rtl, a: F.Fifo, left: int, rs: seq<Rtl>, ins: seq<Input>, k: nat, z: F.Fifo, f: nat, b: nat, cplSize: nat)
      returns (z': F.Fifo, f': nat, b': nat)
    requires Steps(rs, ins, cplSize) && k < |ins| && DrainedBy(s, a, left, k, rs[k], z, f, b)
    ensures DrainedBy(s, a, left, k + 1, rs[k + 1], z', f', b')
  {
    assert StepAt(rs, ins, k, cplSize);
    z', f', b' := EdgeDrains(rs[k], z, ins[k], f, b, cplSize);
    DrainedNext(s, a, left, k, rs[k], z, f, b, rs[k + 1], z', f', b');
  }

  lemma DrainedNext(s: Rtl, a: F.Fifo, left: int, k: nat, r: Rtl, z: F.Fifo, f: nat, b: nat, r': Rtl, z': F.Fifo, f': nat, b': nat)
    requires DrainedBy(s, a, left, k, r, z, f, b) && Nearer(r, z, f, b, r', z', f', b')
    ensures DrainedBy(s, a, left, k + 1, r', z', f', b')
  {
    StartedStays(s.pipe, r.pipe, a, z, z');
    assert Left(|s.pipe|, |z'.ops|, f', b') <= if left < k + 1 then 0 else left - (k + 1) by {
      LeftIsNat(r, z, f, b);
    }
  }

  lemma LeftIsNat(r: Rtl, z: F.Fifo, f: nat, b: nat)
    requires Committed(r, z) && At(r.pipe, f, b)
    ensures Left(|r.pipe|, |z.ops|, f, b) >= 0
  {
    if f < |r.pipe| { InFlightIsFirst(r, z, f); }
    NotNegative(if |z.ops| > 0 then |z.ops| - 1 else 0, |r.pipe| + 1);
    NotNegative(|z.ops|, |r.pipe| + 1);
  }

  lemma DrainStarts(s: Rtl, a: F.Fifo, f: nat)
    requires Committed(s, a) && At(s.pipe, f, 0)
    ensures DrainedBy(s, a, Left(|s.pipe|, |a.ops|, f, 0), 0, s, a, f, 0)
  {
    LeftIsNat(s, a, f, 0);
  }

  lemma {:induction false} RunDrains(s: Rtl, a: F.Fifo, left: int, rs: seq<Rtl>, ins: seq<Input>, k: nat, z: F.Fifo, f: nat, b: nat,
                                     cplSize: nat) returns (z': F.Fifo, f': nat, b': nat)
    requires Steps(rs, ins, cplSize) && k <= |ins| && DrainedBy(s, a, left, k, rs[k], z, f, b)
    ensures DrainedBy(s, a, left, |ins|, rs[|ins|], z', f', b')
    decreases |ins| - k
  {
    z', f', b' := z, f, b;
    if k < |ins| {
      z', f', b' := EdgeAfter(s, a, left, rs, ins, k, z, f, b, cplSize);
      z', f', b' := RunDrains(s, a, left, rs, ins, k + 1, z', f', b', cplSize);
    }
  }

  lemma StartedStays(pipe: seq<StageOp>, n: seq<StageOp>, a: F.Fifo, a1: F.Fifo, z: F.Fifo)
    requires SameStarted(pipe, a, a1) && SameStarted(n, a1, z) && WritesOnly(pipe, n)
    ensures SameStarted(pipe, a, z)
  {
  }

  // With no edge left there is nothing in flight and nothing outstanding.
  lemma NothingLeft(s: Rtl, a: F.Fifo, f: nat, b: nat)
    requires Committed(s, a) && At(s.pipe, f, b) && Left(|s.pipe|, |a.ops|, f, b) <= 0
    ensures a.ops == [] && (forall j :: 0 <= j < |s.pipe| ==> s.pipe[j].Empty?) && S.Simulates(s.m, a)
  {
    if f < |s.pipe| { InFlightIsFirst(s, a, f); }
    NotNegative(if |a.ops| > 0 then |a.ops| - 1 else 0, |s.pipe| + 1);
    NotNegative(|a.ops|, |s.pipe| + 1);
    if |a.ops| > 0 { Times(|a.ops|, |s.pipe|); }
  }

  // Where the finalize in flight is at the start.
  lemma Somewhere(s: Rtl, n: nat) returns (f: nat)
    requires Inv(s)
    ensures At(s.pipe, f, 0) && ((f < |s.pipe| ==> n > 0) ==> Left(|s.pipe|, n, f, 0) <= |s.pipe| + n * (|s.pipe| + 1))
  {
    f := |s.pipe|;
    if HasFinalize(s.pipe) {
      f :| 0 <= f < |s.pipe| && s.pipe[f].Finalize?;
      forall j | 0 <= j < |s.pipe| && j != f ensures !s.pipe[j].Finalize? {
        assert Apart(s.pipe[if j < f then j else f], s.pipe[if j < f then f else j]);
      }
      if n > 0 { Times(n, |s.pipe|); }
    }
  }

  // Nothing in flight, nothing outstanding, and the producer pointers at the last started records of z.
  ghost predicate Empty(r: Rtl, z: F.Fifo) {
    && (forall j :: 0 <= j < |r.pipe| ==> r.pipe[j].Empty?) && (forall t :: 0 <= t < |r.m.table.active| ==> !r.m.table.active[t])
    && |r.m.ram| == |z.queues| && z.ops == [] && forall q :: 0 <= q < |r.m.ram| ==> r.m.ram[q].prod == z.Started(q) % PTR
  }

  lemma EmptyAtLast(s: Rtl, a: F.Fifo, left: int, k: nat, r: Rtl, z: F.Fifo, f: nat, b: nat)
    requires DrainedBy(s, a, left, k, r, z, f, b) && left <= k
    ensures Empty(r, z) && SameStarted(s.pipe, a, z)
  {
    NothingLeft(r, z, f, b);
    T.IdleTable(r.m, z);
  }

  /** Draining at the clock, for every depth p: with all of n outstanding operations committed, after p + n * (p + 1)
      quiet edges nothing is in flight, the table is empty, and each producer pointer in the RAM is at the last started
      record of its queue. z is the list then; it differs from a in what register writes in flight changed. */
  lemma DrainsAtTheClock(a: F.Fifo, rs: seq<Rtl>, ins: seq<Input>, cplSize: nat) returns (z: F.Fifo)
    requires Steps(rs, ins, cplSize) && Committed(rs[0], a)
    requires |ins| >= |rs[0].pipe| + |a.ops| * (|rs[0].pipe| + 1)
    ensures Empty(rs[|ins|], z) && SameStarted(rs[0].pipe, a, z)
    ensures
      var r := rs[|ins|];
      |r.m.ram| == |a.queues| && forall q :: 0 <= q < |r.m.ram| && NoWrite(rs[0].pipe, q) ==> r.m.ram[q].prod == a.Started(q) % PTR
  {
    var f := Somewhere(rs[0], |a.ops|);
    if f < |rs[0].pipe| { InFlightIsFirst(rs[0], a, f); }
    var f', b';
    DrainStarts(rs[0], a, f);
    z, f', b' := RunDrains(rs[0], a, Left(|rs[0].pipe|, |a.ops|, f, 0), rs, ins, 0, a, f, 0, cplSize);
    EmptyAtLast(rs[0], a, Left(|rs[0].pipe|, |a.ops|, f, 0), |ins|, rs[|ins|], z, f', b');
  }

  /** So from every state reached from reset by a law-abiding run. */
  lemma DrainsFromReset(queues: nat, entries: nat, stages: nat, before: seq<Input>, t: R.Trace, a: F.Fifo, rs: seq<Rtl>, ins: seq<Input>,
                        cplSize: nat) returns (z: F.Fifo)
    requires queues > 0 && 0 < entries <= 256 && stages >= 2 && R.Traces(queues, entries, stages, before, t, cplSize)
    requires E.Follows(S.Reset(queues, entries), t.ops, a) && F.Valid(a) && T.AllCommitted(a.ops)
    requires forall j :: 0 <= j < |t.rtl.pipe| ==> !t.rtl.pipe[j].Request? && Lawful(a, t.rtl.pipe[j])
    requires Steps(rs, ins, cplSize) && rs[0] == t.rtl
    requires |ins| >= |rs[0].pipe| + |a.ops| * (|rs[0].pipe| + 1)
    ensures Empty(rs[|ins|], z) && SameStarted(t.rtl.pipe, a, z)
  {
    E.PipelineImplementsFifo(queues, entries, stages, before, t, a, cplSize);
    z := DrainsAtTheClock(a, rs, ins, cplSize);
  }
}

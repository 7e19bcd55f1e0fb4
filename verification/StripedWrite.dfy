/**
 Writes through stalling lanes: several commands in flight, every lane with its own queue and bus register, and
 responses counted per lane. At every moment each byte is what a flat memory would hold after some of the writes.
 */
module StripedWrite {
  import opened Arith
  import opened StripedRam
  import opened StripedLanes

  // seg_write_queue, the bus register with its valid bit, the wr_done pulse and seg_write_resp_queue of a lane.
  datatype Lane = Lane(queue: seq<WriteOp>, reg: Option<WriteOp>, done: bool, avail: nat)
  {
    function Todo(): seq<WriteOp> { Opt(reg) + queue }

    function Served(): nat { avail + if done then 1 else 0 }
  }

  // The lanes, the response commands, and how far the first of them has got: k segments, at lane seg.
  datatype Ctl = Ctl(lanes: seq<Lane>, pend: seq<Resp>, k: nat, seg: nat)
  datatype State = State(mem: seq<bv8>, ctl: Ctl)

  datatype Step =
    | Issue(c: Cmd)                                  // write and _process_write
    | Edge(lane: nat, ready: bool, pause: bool)      // a clock edge of one lane and of the RAM behind it
    | Collect                                        // _process_write_resp

  function RespOf(g: Geometry, address: nat, len: nat): Resp
    requires g.Valid()
  {
    Resp(Segments(g, address, len), FirstSeg(g, address), address % g.width, EndOffset(g, address, len))
  }

  function JobOf(g: Geometry, c: Cmd): Job<WriteOp>
    requires g.Valid()
  {
    Job(WriteOps(g, c), RespOf(g, c.address, |c.data|))
  }

  function Queued(lanes: seq<Lane>, x: seq<Routed<WriteOp>>): (r: seq<Lane>)
    ensures |r| == |lanes|
  {
    seq(|lanes|, l requires 0 <= l < |lanes| => lanes[l].(queue := lanes[l].queue + Share(x, 0, |x|, l)))
  }

  function DoIssue(s: Ctl, j: Job<WriteOp>): Ctl
  {
    s.(lanes := Queued(s.lanes, j.ops), pend := s.pend + [j.resp])
  }

  predicate Shake(x: Lane, ready: bool) { ready && x.reg.Some? }

  function LaneEdge(x: Lane, ready: bool, pause: bool): (y: Lane)
    ensures y.Todo() == if Shake(x, ready) then x.Todo()[1..] else x.Todo()
    ensures y.Served() == if Shake(x, ready) then x.Served() + 1 else x.Served()
  {
    var y := if !ready && x.reg.Some? then x
             else if x.queue != [] && !pause then x.(queue := x.queue[1..], reg := Some(x.queue[0]))
             else x.(reg := None);
    y.(done := Shake(x, ready), avail := x.avail + if x.done then 1 else 0)
  }

  function DoEdge(s: Ctl, l: nat, ready: bool, pause: bool): Ctl
    requires l < |s.lanes|
  {
    s.(lanes := s.lanes[l := LaneEdge(s.lanes[l], ready, pause)])
  }

  // The RAM's side of a clock edge.
  function MemEdge(g: Geometry, mem: seq<bv8>, l: nat, x: Lane, ready: bool): (m: seq<bv8>)
    requires g.Valid()
    ensures |m| == |mem|
  {
    if Shake(x, ready) then ApplyOp(g, mem, Routed(l, x.reg.value)) else mem
  }

  function Took(lanes: seq<Lane>, seg: nat): (r: seq<Lane>)
    requires seg < |lanes| && lanes[seg].avail > 0
    ensures |r| == |lanes|
  {
    lanes[seg := lanes[seg].(avail := lanes[seg].avail - 1)]
  }

  predicate Completes(s: Ctl) { s.pend != [] && s.k == s.pend[0].segments }

  predicate Takes(s: Ctl)
  {
    && s.pend != [] && s.k < s.pend[0].segments && Awaited(s.pend, s.k, s.seg) < |s.lanes|
    && s.lanes[Awaited(s.pend, s.k, s.seg)].avail > 0
  }

  function DoCollect(s: Ctl): Ctl
  {
    if Completes(s) then s.(pend := s.pend[1..], k := 0)
    else if Takes(s) then
      var seg := Awaited(s.pend, s.k, s.seg);
      s.(lanes := Took(s.lanes, seg), k := s.k + 1, seg := NextLane(|s.lanes|, seg))
    else s
  }

  // ---- the flat memory ----

  function FlatWrite(mem: seq<bv8>, c: Cmd): (m: seq<bv8>)
    requires c.address + |c.data| <= |mem|
    ensures |m| == |mem|
  {
    mem[..c.address] + c.data + mem[c.address + |c.data|..]
  }

  ghost predicate AllValid(g: Geometry, cmds: seq<Cmd>) { forall i :: 0 <= i < |cmds| ==> cmds[i].Valid(g) }

  // The memory after the first m writes.
  function FlatAll(g: Geometry, init: seq<bv8>, cmds: seq<Cmd>, m: nat): (mem: seq<bv8>)
    requires |init| == g.Size() && AllValid(g, cmds) && m <= |cmds|
    ensures |mem| == |init|
  {
    if m == 0 then init else FlatWrite(FlatAll(g, init, cmds, m - 1), cmds[m - 1])
  }

  predicate Covers(c: Cmd, a: nat) { c.address <= a < c.address + |c.data| }

  // What a write makes of a byte.
  function Newer(c: Cmd, a: nat, was: bv8): bv8 { if Covers(c, a) then c.data[a - c.address] else was }

  lemma FlatByte(g: Geometry, init: seq<bv8>, cmds: seq<Cmd>, m: nat, a: nat)
    requires |init| == g.Size() && AllValid(g, cmds) && m < |cmds| && a < g.Size()
    ensures FlatAll(g, init, cmds, m + 1)[a] == Newer(cmds[m], a, FlatAll(g, init, cmds, m)[a])
  {
    assert FlatAll(g, init, cmds, m + 1) == FlatWrite(FlatAll(g, init, cmds, m), cmds[m]);
  }

  lemma {:induction false} FlatOfPrefix(g: Geometry, init: seq<bv8>, cmds: seq<Cmd>, more: seq<Cmd>, m: nat)
    requires |init| == g.Size() && AllValid(g, cmds) && AllValid(g, cmds + more) && m <= |cmds|
    ensures FlatAll(g, init, cmds + more, m) == FlatAll(g, init, cmds, m)
  {
    if m > 0 { FlatOfPrefix(g, init, cmds, more, m - 1); }
  }

  // ---- what a sequence of lane operations leaves in one byte ----

  // Byte a, first v, after the first n operations.
  function ByteAfter(g: Geometry, ops: seq<Routed<WriteOp>>, n: nat, a: nat, v: bv8): bv8
    requires g.Valid() && n <= |ops|
  {
    if n == 0 then v
    else if Hits(g, ops[n - 1], a) then ops[n - 1].op.word[a % g.width]
    else ByteAfter(g, ops, n - 1, a, v)
  }

  function LaneOf(g: Geometry, a: nat): nat
    requires g.Valid()
  {
    a / g.width % g.segs
  }

  lemma HitsOwnLane(g: Geometry, r: Routed<WriteOp>, a: nat)
    requires g.Valid() && r.lane < g.segs && Hits(g, r, a)
    ensures r.lane == LaneOf(g, a)
  {
    DivModUnique(a / g.width, g.segs, r.op.row, r.lane);
  }

  lemma {:induction false} OtherLanesDoNotTouch(g: Geometry, s: seq<Routed<WriteOp>>, p: nat, q: nat, a: nat, v: bv8)
    requires g.Valid() && p <= q <= |s|
    requires forall i :: p <= i < q ==> s[i].lane < g.segs && s[i].lane != LaneOf(g, a)
    ensures ByteAfter(g, s, q, a, v) == ByteAfter(g, s, p, a, v)
  {
    if p < q {
      if Hits(g, s[q - 1], a) { HitsOwnLane(g, s[q - 1], a); }
      OtherLanesDoNotTouch(g, s, p, q - 1, a, v);
    }
  }

  lemma {:induction false} ByteOfPrefix(g: Geometry, s: seq<Routed<WriteOp>>, x: seq<Routed<WriteOp>>, n: nat, a: nat, v: bv8)
    requires g.Valid() && n <= |s|
    ensures ByteAfter(g, s + x, n, a, v) == ByteAfter(g, s, n, a, v)
  {
    if n > 0 { ByteOfPrefix(g, s, x, n - 1, a, v); }
  }

  // Part of a write done: a byte is new exactly when the write covers it and its word is among the first k.
  lemma {:induction false} PartOfWrite(g: Geometry, pre: seq<Routed<WriteOp>>, c: Cmd, k: nat, a: nat, v: bv8)
    requires g.Valid() && c.Valid(g) && k <= Segments(g, c.address, |c.data|)
    ensures ByteAfter(g, pre + WriteOps(g, c), |pre| + k, a, v)
         == if Covers(c, a) && a / g.width < c.address / g.width + k
            then c.data[a - c.address] else ByteAfter(g, pre, |pre|, a, v)
  {
    var ops := WriteOps(g, c);
    if k == 0 {
      ByteOfPrefix(g, pre, ops, |pre|, a, v);
      if Covers(c, a) {
        WordOfAddress(g, c.address, |c.data|, a);
      }
    } else {
      assert (pre + ops)[|pre| + k - 1] == OpOf(g, c, k - 1);
      OpHits(g, c, k - 1, a);
      PartOfWrite(g, pre, c, k - 1, a, v);
    }
  }

  // Among other operations, those of a write leave a byte as before it or as after it, and surely as after it in
  // the end.
  lemma OldOrNew(g: Geometry, pre: seq<Routed<WriteOp>>, c: Cmd, rest: seq<Routed<WriteOp>>, k: nat, a: nat, v: bv8)
    requires g.Valid() && c.Valid(g) && k <= |WriteOps(g, c)|
    ensures
      var ops := pre + WriteOps(g, c) + rest;
      var was, b := ByteAfter(g, ops, |pre|, a, v), ByteAfter(g, ops, |pre| + k, a, v);
      && (b == was || b == Newer(c, a, was))
      && (k == |WriteOps(g, c)| ==> b == Newer(c, a, was))
  {
    ByteOfPrefix(g, pre + WriteOps(g, c), rest, |pre|, a, v);
    ByteOfPrefix(g, pre + WriteOps(g, c), rest, |pre| + k, a, v);
    ByteOfPrefix(g, pre, WriteOps(g, c), |pre|, a, v);
    PartOfWrite(g, pre, c, k, a, v);
    if Covers(c, a) { WordOfAddress(g, c.address, |c.data|, a); }
  }

  // The jobs of the writes.
  ghost predicate JobsOf(g: Geometry, cmds: seq<Cmd>, jobs: seq<Job<WriteOp>>)
    requires g.Valid()
  {
    |jobs| == |cmds| && forall i :: 0 <= i < |cmds| ==> JobAt(g, cmds, jobs, i)
  }

  ghost predicate JobAt(g: Geometry, cmds: seq<Cmd>, jobs: seq<Job<WriteOp>>, i: nat)
    requires g.Valid() && i < |cmds| && i < |jobs|
  {
    jobs[i] == JobOf(g, cmds[i])
  }

  // A byte the flat memory could hold, given that the first floor of the writes are complete.
  ghost predicate Seen(g: Geometry, init: seq<bv8>, cmds: seq<Cmd>, floor: nat, a: nat, v: bv8)
    requires |init| == g.Size() && AllValid(g, cmds)
  {
    a < |init| && exists m :: floor <= m <= |cmds| && v == FlatAll(g, init, cmds, m)[a]
  }

  lemma SeenAt(g: Geometry, init: seq<bv8>, cmds: seq<Cmd>, floor: nat, a: nat, m: nat)
    requires |init| == g.Size() && AllValid(g, cmds) && a < |init| && floor <= m <= |cmds|
    ensures Seen(g, init, cmds, floor, a, FlatAll(g, init, cmds, m)[a])
  {
  }

  // bs[n] is a byte after the first n operations; those of write m are starts[m] and after it.
  ghost predicate Track(cmds: seq<Cmd>, a: nat, bs: seq<bv8>, starts: seq<nat>) {
    && |starts| == |cmds| + 1 && starts[0] == 0
    && (forall m :: 0 <= m < |starts| ==> starts[m] < |bs|)
    && (forall m :: 0 <= m < |cmds| ==> TrackAt(cmds, a, bs, starts, m))
  }

  ghost predicate TrackAt(cmds: seq<Cmd>, a: nat, bs: seq<bv8>, starts: seq<nat>, m: nat)
    requires m < |cmds| && |starts| == |cmds| + 1 && starts[m] < |bs| && starts[m + 1] < |bs|
  {
    && starts[m] <= starts[m + 1]
    && bs[starts[m + 1]] == Newer(cmds[m], a, bs[starts[m]])
    && forall n :: starts[m] <= n <= starts[m + 1] ==> bs[n] == bs[starts[m]] || bs[n] == Newer(cmds[m], a, bs[starts[m]])
  }

  // At the start of write m the byte is that of the flat memory.
  lemma {:induction false} StartIsFlat(g: Geometry, init: seq<bv8>, cmds: seq<Cmd>, m: nat, a: nat, bs: seq<bv8>, starts: seq<nat>)
    requires |init| == g.Size() && AllValid(g, cmds) && a < g.Size() && m <= |cmds|
    requires Track(cmds, a, bs, starts) && bs[0] == init[a]
    ensures bs[starts[m]] == FlatAll(g, init, cmds, m)[a]
  {
    if m > 0 {
      StartIsFlat(g, init, cmds, m - 1, a, bs, starts);
      assert TrackAt(cmds, a, bs, starts, m - 1);
      FlatByte(g, init, cmds, m - 1, a);
    }
  }

  // Wherever one stands among the operations of the first m writes, past those of the first d.
  lemma {:induction false} PlaceIsFlat(g: Geometry, init: seq<bv8>, cmds: seq<Cmd>, m: nat, p: nat, d: nat, a: nat,
                                       bs: seq<bv8>, starts: seq<nat>)
    requires |init| == g.Size() && AllValid(g, cmds) && a < g.Size() && d <= m <= |cmds|
    requires Track(cmds, a, bs, starts) && bs[0] == init[a] && starts[d] <= p <= starts[m]
    ensures Seen(g, init, cmds, d, a, bs[p])
  {
    StartIsFlat(g, init, cmds, m, a, bs, starts);
    SeenAt(g, init, cmds, d, a, m);
    if m > d {
      if p < starts[m - 1] {
        PlaceIsFlat(g, init, cmds, m - 1, p, d, a, bs, starts);
      } else {
        assert TrackAt(cmds, a, bs, starts, m - 1);
        StartIsFlat(g, init, cmds, m - 1, a, bs, starts);
        SeenAt(g, init, cmds, d, a, m - 1);
      }
    }
  }

  // The operations of write m are followed by those of the later ones.
  lemma {:induction false} IssuedRest(jobs: seq<Job<WriteOp>>, m: nat, e: nat) returns (rest: seq<Routed<WriteOp>>)
    requires m <= e <= |jobs|
    ensures Issued(jobs, e) == Issued(jobs, m) + rest
  {
    rest := [];
    if m < e {
      var r := IssuedRest(jobs, m, e - 1);
      rest := r + jobs[e - 1].ops;
    }
  }

  function Bytes(g: Geometry, ops: seq<Routed<WriteOp>>, a: nat, v: bv8): seq<bv8>
    requires g.Valid()
  {
    seq(|ops| + 1, n requires 0 <= n <= |ops| => ByteAfter(g, ops, n, a, v))
  }

  function Starts(jobs: seq<Job<WriteOp>>): seq<nat> {
    seq(|jobs| + 1, m requires 0 <= m <= |jobs| => |Issued(jobs, m)|)
  }

  lemma StepIsWrite(g: Geometry, cmds: seq<Cmd>, jobs: seq<Job<WriteOp>>, m: nat, a: nat, v: bv8)
    requires g.Valid() && AllValid(g, cmds) && JobsOf(g, cmds, jobs) && m < |cmds|
    ensures |Issued(jobs, m)| <= |Issued(jobs, m + 1)| <= |Issued(jobs, |jobs|)|
    ensures TrackAt(cmds, a, Bytes(g, Issued(jobs, |jobs|), a, v), Starts(jobs), m)
  {
    assert JobAt(g, cmds, jobs, m);
    var rest := IssuedRest(jobs, m + 1, |jobs|);
    var pre, own := Issued(jobs, m), WriteOps(g, cmds[m]);
    var ops := Issued(jobs, |jobs|);
    assert ops == pre + own + rest;
    var was := ByteAfter(g, ops, |pre|, a, v);
    forall n | |pre| <= n <= |pre| + |own|
      ensures ByteAfter(g, ops, n, a, v) == was || ByteAfter(g, ops, n, a, v) == Newer(cmds[m], a, was)
      ensures n == |pre| + |own| ==> ByteAfter(g, ops, n, a, v) == Newer(cmds[m], a, was)
    {
      OldOrNew(g, pre, cmds[m], rest, n - |pre|, a, v);
    }
  }

  /** Wherever a lane stands in the issue order, past the completed writes, its bytes are those of a flat memory
      after some number of whole writes, at least the completed ones. */
  lemma PositionIsFlat(g: Geometry, init: seq<bv8>, cmds: seq<Cmd>, jobs: seq<Job<WriteOp>>, p: nat, d: nat, a: nat)
    requires g.Valid() && |init| == g.Size() && AllValid(g, cmds) && JobsOf(g, cmds, jobs) && a < g.Size()
    requires d <= |cmds| && |Issued(jobs, d)| <= p <= |Issued(jobs, |jobs|)|
    ensures Seen(g, init, cmds, d, a, ByteAfter(g, Issued(jobs, |jobs|), p, a, init[a]))
  {
    var bs, starts := Bytes(g, Issued(jobs, |jobs|), a, init[a]), Starts(jobs);
    forall m | 0 <= m < |starts| ensures starts[m] < |bs| {
      if m < |cmds| { StepIsWrite(g, cmds, jobs, m, a, init[a]); }
    }
    forall m | 0 <= m < |cmds| ensures TrackAt(cmds, a, bs, starts, m) {
      StepIsWrite(g, cmds, jobs, m, a, init[a]);
    }
    PlaceIsFlat(g, init, cmds, |cmds|, p, d, a, bs, starts);
  }

  // ---- every step keeps the lanes and the memory in line with the issue order ----

  ghost predicate LanesOk(segs: nat, ops: seq<Routed<WriteOp>>, pc: nat, cuts: seq<nat>, lanes: seq<Lane>)
  {
    && |lanes| == |cuts| == segs
    && forall l :: 0 <= l < segs ==> OneLaneOk(ops, pc, cuts, lanes, l)
  }

  ghost predicate OneLaneOk(ops: seq<Routed<WriteOp>>, pc: nat, cuts: seq<nat>, lanes: seq<Lane>, l: nat)
    requires l < |cuts| && l < |lanes|
  {
    LaneOk(ops, pc, cuts[l], l, lanes[l].Served(), lanes[l].Todo())
  }

  ghost predicate MemOk(g: Geometry, ops: seq<Routed<WriteOp>>, cuts: seq<nat>, init: seq<bv8>, mem: seq<bv8>)
    requires g.Valid()
  {
    && |init| == |mem| == g.Size() && |cuts| == g.segs
    && (forall i :: 0 <= i < |ops| ==> ops[i].lane < g.segs)
    && (forall l :: 0 <= l < g.segs ==> cuts[l] <= |ops|)
    && forall a :: 0 <= a < g.Size() ==> mem[a] == ByteAfter(g, ops, cuts[LaneOf(g, a)], a, init[a])
  }

  // jobs are the writes so far, done of them complete; cuts says how far each lane has got in the issue order.
  ghost predicate CtlOk(segs: nat, s: Ctl, jobs: seq<Job<WriteOp>>, done: nat, cuts: seq<nat>)
  {
    && done <= |jobs| && PendOk(segs, jobs, done, s.pend, s.k, s.seg)
    && LanesOk(segs, Issued(jobs, |jobs|), |Issued(jobs, done)| + s.k, cuts, s.lanes)
  }

  lemma LanesIssue(segs: nat, ops: seq<Routed<WriteOp>>, x: seq<Routed<WriteOp>>, pc: nat, cuts: seq<nat>, lanes: seq<Lane>)
    requires LanesOk(segs, ops, pc, cuts, lanes)
    ensures LanesOk(segs, ops + x, pc, cuts, Queued(lanes, x))
  {
    forall l | 0 <= l < segs
      ensures OneLaneOk(ops + x, pc, cuts, Queued(lanes, x), l)
    {
      assert OneLaneOk(ops, pc, cuts, lanes, l);
      LaneIssue(ops, x, pc, cuts[l], l, lanes[l].Served(), lanes[l].Todo());
      assert Queued(lanes, x)[l].Todo() == lanes[l].Todo() + Share(x, 0, |x|, l);
    }
  }

  // next is the place of lane l's first operation from cut on.
  ghost predicate NextOp(ops: seq<Routed<WriteOp>>, cut: nat, next: nat, l: nat, op: WriteOp) {
    cut <= next < |ops| && ops[next] == Routed(l, op) && forall i :: cut <= i < next ==> ops[i].lane != l
  }

  lemma OtherLanesStay(segs: nat, ops: seq<Routed<WriteOp>>, pc: nat, cuts: seq<nat>, lanes: seq<Lane>, l: nat, cut: nat,
                       y: Lane)
    requires LanesOk(segs, ops, pc, cuts, lanes) && l < segs && LaneOk(ops, pc, cut, l, y.Served(), y.Todo())
    ensures LanesOk(segs, ops, pc, cuts[l := cut], lanes[l := y])
  {
    var cuts', lanes' := cuts[l := cut], lanes[l := y];
    forall i | 0 <= i < segs ensures OneLaneOk(ops, pc, cuts', lanes', i) {
      assert OneLaneOk(ops, pc, cuts, lanes, i);
    }
  }

  lemma LanesEdge(segs: nat, ops: seq<Routed<WriteOp>>, pc: nat, cuts: seq<nat>, lanes: seq<Lane>, l: nat, y: Lane)
      returns (next: nat)
    requires LanesOk(segs, ops, pc, cuts, lanes) && l < segs && lanes[l].reg.Some?
    requires y.Todo() == lanes[l].Todo()[1..] && y.Served() == lanes[l].Served() + 1
    ensures NextOp(ops, cuts[l], next, l, lanes[l].reg.value)
    ensures LanesOk(segs, ops, pc, cuts[l := next + 1], lanes[l := y])
  {
    assert OneLaneOk(ops, pc, cuts, lanes, l);
    next := LaneServe(ops, pc, cuts[l], l, lanes[l].Served(), lanes[l].Todo());
    OtherLanesStay(segs, ops, pc, cuts, lanes, l, next + 1, y);
  }

  // Every mark stays or moves over one operation of another lane.
  ghost predicate Skips(ops: seq<Routed<WriteOp>>, cuts: seq<nat>, cuts': seq<nat>)
  {
    && |cuts'| == |cuts|
    && forall l :: 0 <= l < |cuts| ==>
         cuts'[l] == cuts[l] || (cuts'[l] == cuts[l] + 1 <= |ops| && ops[cuts[l]].lane != l)
  }

  lemma LanesTake(segs: nat, ops: seq<Routed<WriteOp>>, pc: nat, cuts: seq<nat>, lanes: seq<Lane>, seg: nat)
    requires LanesOk(segs, ops, pc, cuts, lanes) && pc < |ops| && ops[pc].lane == seg < segs && lanes[seg].avail > 0
    ensures LanesOk(segs, ops, pc + 1, Pushed(cuts, pc), Took(lanes, seg)) && Skips(ops, cuts, Pushed(cuts, pc))
  {
    var lanes', cuts' := Took(lanes, seg), Pushed(cuts, pc);
    forall l | 0 <= l < segs
      ensures OneLaneOk(ops, pc + 1, cuts', lanes', l)
      ensures cuts'[l] == cuts[l] || (cuts'[l] == cuts[l] + 1 <= |ops| && ops[cuts[l]].lane != l)
    {
      assert OneLaneOk(ops, pc, cuts, lanes, l);
      var cut := LaneCollect(ops, pc, cuts[l], l, lanes[l].Served(), lanes[l].Todo());
    }
  }

  lemma MemIssue(g: Geometry, ops: seq<Routed<WriteOp>>, x: seq<Routed<WriteOp>>, cuts: seq<nat>, init: seq<bv8>, mem: seq<bv8>)
    requires g.Valid() && MemOk(g, ops, cuts, init, mem) && forall i :: 0 <= i < |x| ==> x[i].lane < g.segs
    ensures MemOk(g, ops + x, cuts, init, mem)
  {
    forall a | 0 <= a < g.Size()
      ensures mem[a] == ByteAfter(g, ops + x, cuts[LaneOf(g, a)], a, init[a])
    {
      ByteOfPrefix(g, ops, x, cuts[LaneOf(g, a)], a, init[a]);
    }
  }

  // A lane's operation reaches the memory: no other byte changes, and this lane's bytes move on with it.
  lemma MemServe(g: Geometry, ops: seq<Routed<WriteOp>>, cuts: seq<nat>, l: nat, next: nat, op: WriteOp, init: seq<bv8>,
                 mem: seq<bv8>)
    requires g.Valid() && MemOk(g, ops, cuts, init, mem) && l < g.segs && NextOp(ops, cuts[l], next, l, op)
    ensures MemOk(g, ops, cuts[l := next + 1], init, ApplyOp(g, mem, ops[next]))
  {
    forall a | 0 <= a < g.Size()
      ensures ApplyOp(g, mem, ops[next])[a] == ByteAfter(g, ops, cuts[l := next + 1][LaneOf(g, a)], a, init[a])
    {
      if LaneOf(g, a) == l {
        OtherLanesDoNotTouch(g, ops, cuts[l], next, a, init[a]);
      } else if Hits(g, ops[next], a) {
        HitsOwnLane(g, ops[next], a);
      }
    }
  }

  // Moving a lane's mark over an operation of another lane changes nothing for its bytes.
  lemma MemSkip(g: Geometry, ops: seq<Routed<WriteOp>>, cuts: seq<nat>, cuts': seq<nat>, init: seq<bv8>, mem: seq<bv8>)
    requires g.Valid() && MemOk(g, ops, cuts, init, mem) && Skips(ops, cuts, cuts')
    ensures MemOk(g, ops, cuts', init, mem)
  {
    forall a | 0 <= a < g.Size()
      ensures mem[a] == ByteAfter(g, ops, cuts'[LaneOf(g, a)], a, init[a])
    {
      var l := LaneOf(g, a);
      if cuts'[l] != cuts[l] {
        OtherLanesDoNotTouch(g, ops, cuts[l], cuts'[l], a, init[a]);
      }
    }
  }

  lemma IssueKeepsCtl(segs: nat, s: Ctl, jobs: seq<Job<WriteOp>>, done: nat, cuts: seq<nat>, j: Job<WriteOp>)
    requires CtlOk(segs, s, jobs, done, cuts) && JobOk(segs, j)
    ensures CtlOk(segs, DoIssue(s, j), jobs + [j], done, cuts)
  {
    var jobs', pc := jobs + [j], |Issued(jobs, done)| + s.k;
    PendIssue(segs, jobs, done, s.pend, s.k, s.seg, j);
    LanesIssue(segs, Issued(jobs, |jobs|), j.ops, pc, cuts, s.lanes);
    IssuedOneMore(jobs, j);
    IssuedOfPrefix(jobs, j, done);
    CtlFrom(segs, DoIssue(s, j), jobs', done, cuts, Issued(jobs', |jobs'|), pc);
  }

  lemma CtlFrom(segs: nat, s: Ctl, jobs: seq<Job<WriteOp>>, done: nat, cuts: seq<nat>, ops: seq<Routed<WriteOp>>, pc: nat)
    requires done <= |jobs| && PendOk(segs, jobs, done, s.pend, s.k, s.seg)
    requires ops == Issued(jobs, |jobs|) && pc == |Issued(jobs, done)| + s.k && LanesOk(segs, ops, pc, cuts, s.lanes)
    ensures CtlOk(segs, s, jobs, done, cuts)
  {
  }

  lemma LanesRest(segs: nat, ops: seq<Routed<WriteOp>>, pc: nat, cuts: seq<nat>, lanes: seq<Lane>, l: nat, y: Lane)
    requires LanesOk(segs, ops, pc, cuts, lanes) && l < segs
    requires y.Todo() == lanes[l].Todo() && y.Served() == lanes[l].Served()
    ensures LanesOk(segs, ops, pc, cuts, lanes[l := y])
  {
    assert OneLaneOk(ops, pc, cuts, lanes, l);
    OtherLanesStay(segs, ops, pc, cuts, lanes, l, cuts[l], y);
    assert cuts[l := cuts[l]] == cuts;
  }

  // The mark of a lane moves to just past the operation that reaches the memory.
  lemma EdgeKeepsCtl(segs: nat, s: Ctl, jobs: seq<Job<WriteOp>>, done: nat, cuts: seq<nat>, l: nat, ready: bool, pause: bool)
      returns (cuts': seq<nat>, next: nat)
    requires CtlOk(segs, s, jobs, done, cuts) && l < segs
    ensures CtlOk(segs, DoEdge(s, l, ready, pause), jobs, done, cuts')
    ensures cuts' == if Shake(s.lanes[l], ready) then cuts[l := next + 1] else cuts
    ensures Shake(s.lanes[l], ready) ==> NextOp(Issued(jobs, |jobs|), cuts[l], next, l, s.lanes[l].reg.value)
  {
    var ops, pc, y := Issued(jobs, |jobs|), |Issued(jobs, done)| + s.k, LaneEdge(s.lanes[l], ready, pause);
    cuts', next := cuts, 0;
    if Shake(s.lanes[l], ready) {
      next := LanesEdge(segs, ops, pc, cuts, s.lanes, l, y);
      cuts' := cuts[l := next + 1];
    } else {
      LanesRest(segs, ops, pc, cuts, s.lanes, l, y);
    }
    CtlFrom(segs, DoEdge(s, l, ready, pause), jobs, done, cuts', ops, pc);
  }

  lemma TakeKeepsCtl(segs: nat, s: Ctl, jobs: seq<Job<WriteOp>>, done: nat, cuts: seq<nat>) returns (cuts': seq<nat>)
    requires CtlOk(segs, s, jobs, done, cuts) && Takes(s)
    ensures CtlOk(segs, DoCollect(s), jobs, done, cuts') && Skips(Issued(jobs, |jobs|), cuts, cuts')
  {
    var ops, pc := Issued(jobs, |jobs|), |Issued(jobs, done)| + s.k;
    PendAwaits(segs, jobs, done, s.pend, s.k, s.seg);
    PendTake(segs, jobs, done, s.pend, s.k, s.seg);
    LanesTake(segs, ops, pc, cuts, s.lanes, Awaited(s.pend, s.k, s.seg));
    cuts' := Pushed(cuts, pc);
    CtlFrom(segs, DoCollect(s), jobs, done, cuts', ops, pc + 1);
  }

  lemma CollectKeepsCtl(segs: nat, s: Ctl, jobs: seq<Job<WriteOp>>, done: nat, cuts: seq<nat>) returns (cuts': seq<nat>)
    requires CtlOk(segs, s, jobs, done, cuts)
    ensures CtlOk(segs, DoCollect(s), jobs, if Completes(s) then done + 1 else done, cuts')
    ensures Skips(Issued(jobs, |jobs|), cuts, cuts')
  {
    cuts' := cuts;
    if Completes(s) {
      PendComplete(segs, jobs, done, s.pend, s.k, s.seg);
    } else if Takes(s) {
      cuts' := TakeKeepsCtl(segs, s, jobs, done, cuts);
    }
  }

  // ---- the commands' own jobs go round the lanes ----

  lemma NextLaneIsSuccessor(segs: nat, seg: nat)
    requires seg < segs
    ensures (seg + 1) % segs == NextLane(segs, seg)
  {
    if seg + 1 == segs { DivModUnique(segs, segs, 1, 0); } else { DivModUnique(seg + 1, segs, 0, seg + 1); }
  }

  lemma LaneGoesRound(g: Geometry, address: nat, k: nat)
    requires g.Valid()
    ensures StripedRam.Lane(g, address, k + 1) == NextLane(g.segs, StripedRam.Lane(g, address, k))
  {
    ModAdd(address / g.width % g.segs + k, 1, g.segs);
    NextLaneIsSuccessor(g.segs, StripedRam.Lane(g, address, k));
  }

  lemma JobOfOk(g: Geometry, c: Cmd)
    requires g.Valid() && c.Valid(g)
    ensures JobOk(g.segs, JobOf(g, c))
  {
    var ops := WriteOps(g, c);
    forall i | 0 <= i < |ops| ensures GoesOn(g.segs, ops, i)
    {
      LaneGoesRound(g, c.address, i);
    }
  }

  // ---- runs ----

  // The state, every write accepted with its job, and how many are complete.
  datatype World = World(s: State, cmds: seq<Cmd>, jobs: seq<Job<WriteOp>>, done: nat)

  function Reset(g: Geometry, init: seq<bv8>): World
  {
    World(State(init, Ctl(seq(g.segs, _ => Lane([], None, false, 0)), [], 0, 0)), [], [], 0)
  }

  function After(g: Geometry, w: World, t: Step): (w': World)
    requires g.Valid() && |w.s.ctl.lanes| == g.segs && (t.Edge? ==> t.lane < g.segs)
    ensures |w'.s.ctl.lanes| == g.segs && |w'.s.mem| == |w.s.mem|
  {
    match t
    case Issue(c) =>
      if c.Valid(g) then
        w.(s := w.s.(ctl := DoIssue(w.s.ctl, JobOf(g, c))), cmds := w.cmds + [c], jobs := w.jobs + [JobOf(g, c)])
      else w
    case Edge(l, ready, pause) =>
      w.(s := State(MemEdge(g, w.s.mem, l, w.s.ctl.lanes[l], ready), DoEdge(w.s.ctl, l, ready, pause)))
    case Collect =>
      w.(s := w.s.(ctl := DoCollect(w.s.ctl)), done := if Completes(w.s.ctl) then w.done + 1 else w.done)
  }

  ghost predicate Inv(g: Geometry, init: seq<bv8>, w: World, cuts: seq<nat>)
  {
    && g.Valid() && AllValid(g, w.cmds) && JobsOf(g, w.cmds, w.jobs)
    && CtlOk(g.segs, w.s.ctl, w.jobs, w.done, cuts)
    && MemOk(g, Issued(w.jobs, |w.jobs|), cuts, init, w.s.mem)
  }

  lemma ResetInv(g: Geometry, init: seq<bv8>)
    requires g.Valid() && |init| == g.Size()
    ensures Inv(g, init, Reset(g, init), seq(g.segs, _ => 0))
  {
  }

  lemma InvFrom(g: Geometry, init: seq<bv8>, s: Ctl, mem: seq<bv8>, cmds: seq<Cmd>, jobs: seq<Job<WriteOp>>, done: nat,
                cuts: seq<nat>)
    requires g.Valid() && AllValid(g, cmds) && JobsOf(g, cmds, jobs)
    requires CtlOk(g.segs, s, jobs, done, cuts) && MemOk(g, Issued(jobs, |jobs|), cuts, init, mem)
    ensures Inv(g, init, World(State(mem, s), cmds, jobs, done), cuts)
  {
  }

  lemma OneJobMore(g: Geometry, cmds: seq<Cmd>, jobs: seq<Job<WriteOp>>, c: Cmd)
    requires g.Valid() && AllValid(g, cmds) && JobsOf(g, cmds, jobs) && c.Valid(g)
    ensures AllValid(g, cmds + [c]) && JobsOf(g, cmds + [c], jobs + [JobOf(g, c)])
  {
    var cmds', jobs' := cmds + [c], jobs + [JobOf(g, c)];
    forall i | 0 <= i < |cmds'| ensures JobAt(g, cmds', jobs', i) {
      if i < |cmds| { assert JobAt(g, cmds, jobs, i); }
    }
  }

  lemma IssueKeepsInv(g: Geometry, init: seq<bv8>, w: World, c: Cmd, cuts: seq<nat>)
    requires Inv(g, init, w, cuts) && c.Valid(g)
    ensures Inv(g, init, After(g, w, Issue(c)), cuts)
  {
    var j := JobOf(g, c);
    JobOfOk(g, c);
    IssueKeepsCtl(g.segs, w.s.ctl, w.jobs, w.done, cuts, j);
    IssuedOneMore(w.jobs, j);
    MemIssue(g, Issued(w.jobs, |w.jobs|), j.ops, cuts, init, w.s.mem);
    OneJobMore(g, w.cmds, w.jobs, c);
    InvFrom(g, init, DoIssue(w.s.ctl, j), w.s.mem, w.cmds + [c], w.jobs + [j], w.done, cuts);
  }

  lemma EdgeKeepsInv(g: Geometry, init: seq<bv8>, w: World, l: nat, ready: bool, pause: bool, cuts: seq<nat>)
      returns (cuts': seq<nat>)
    requires Inv(g, init, w, cuts) && l < g.segs
    ensures Inv(g, init, After(g, w, Edge(l, ready, pause)), cuts')
  {
    var next;
    cuts', next := EdgeKeepsCtl(g.segs, w.s.ctl, w.jobs, w.done, cuts, l, ready, pause);
    if Shake(w.s.ctl.lanes[l], ready) {
      MemServe(g, Issued(w.jobs, |w.jobs|), cuts, l, next, w.s.ctl.lanes[l].reg.value, init, w.s.mem);
    }
  }

  lemma CollectKeepsInv(g: Geometry, init: seq<bv8>, w: World, cuts: seq<nat>) returns (cuts': seq<nat>)
    requires Inv(g, init, w, cuts)
    ensures Inv(g, init, After(g, w, Collect), cuts')
  {
    cuts' := CollectKeepsCtl(g.segs, w.s.ctl, w.jobs, w.done, cuts);
    MemSkip(g, Issued(w.jobs, |w.jobs|), cuts, cuts', init, w.s.mem);
    InvFrom(g, init, DoCollect(w.s.ctl), w.s.mem, w.cmds, w.jobs, After(g, w, Collect).done, cuts');
  }

  lemma AfterKeepsInv(g: Geometry, init: seq<bv8>, w: World, t: Step, cuts: seq<nat>) returns (cuts': seq<nat>)
    requires Inv(g, init, w, cuts) && (t.Edge? ==> t.lane < g.segs)
    ensures Inv(g, init, After(g, w, t), cuts')
  {
    cuts' := cuts;
    match t
    case Issue(c) => if c.Valid(g) { IssueKeepsInv(g, init, w, c, cuts); }
    case Edge(l, ready, pause) => cuts' := EdgeKeepsInv(g, init, w, l, ready, pause, cuts);
    case Collect => cuts' := CollectKeepsInv(g, init, w, cuts);
  }

  // What the mark of a lane says.
  lemma MarkOf(segs: nat, s: Ctl, jobs: seq<Job<WriteOp>>, done: nat, cuts: seq<nat>, l: nat)
    requires CtlOk(segs, s, jobs, done, cuts) && l < segs
    ensures |Issued(jobs, done)| <= cuts[l] <= |Issued(jobs, |jobs|)|
  {
    assert OneLaneOk(Issued(jobs, |jobs|), |Issued(jobs, done)| + s.k, cuts, s.lanes, l);
  }

  /** At every moment each byte of the memory is what the flat memory holds after some number of the accepted
      writes, in order: at least those completed. */
  lemma EveryByteIsFlat(g: Geometry, init: seq<bv8>, w: World, cuts: seq<nat>, a: nat)
    requires Inv(g, init, w, cuts) && a < g.Size()
    ensures Seen(g, init, w.cmds, w.done, a, w.s.mem[a])
  {
    MarkOf(g.segs, w.s.ctl, w.jobs, w.done, cuts, LaneOf(g, a));
    PositionIsFlat(g, init, w.cmds, w.jobs, cuts[LaneOf(g, a)], w.done, a);
  }

  lemma OnlyTheWhole(g: Geometry, init: seq<bv8>, cmds: seq<Cmd>, mem: seq<bv8>)
    requires |init| == |mem| == g.Size() && AllValid(g, cmds)
    requires forall a :: 0 <= a < g.Size() ==> Seen(g, init, cmds, |cmds|, a, mem[a])
    ensures mem == FlatAll(g, init, cmds, |cmds|)
  {
  }

  /** With all of them complete, the memory is the flat memory after all the writes: each has changed exactly the
      bytes [address, address + len), however the lanes stalled. */
  lemma CompletedWritesAreFlat(g: Geometry, init: seq<bv8>, w: World, cuts: seq<nat>)
    requires Inv(g, init, w, cuts) && w.done == |w.cmds|
    ensures w.s.mem == FlatAll(g, init, w.cmds, |w.cmds|)
  {
    forall a | 0 <= a < g.Size()
      ensures Seen(g, init, w.cmds, |w.cmds|, a, w.s.mem[a])
    {
      EveryByteIsFlat(g, init, w, cuts, a);
    }
    OnlyTheWhole(g, init, w.cmds, w.s.mem);
  }

  /** A write that is not complete is never stuck: its response can be taken, or the lane it waits for holds work. */
  lemma WritesNeverStick(segs: nat, s: Ctl, jobs: seq<Job<WriteOp>>, done: nat, cuts: seq<nat>)
    requires CtlOk(segs, s, jobs, done, cuts) && done < |jobs|
    ensures s.pend != [] && (Completes(s) || Awaited(s.pend, s.k, s.seg) < |s.lanes|)
    ensures !Completes(s) ==>
      var x := s.lanes[Awaited(s.pend, s.k, s.seg)];
      x.avail > 0 || x.done || x.reg.Some? || x.queue != []
  {
    if !Completes(s) {
      PendAwaits(segs, jobs, done, s.pend, s.k, s.seg);
      var l := Awaited(s.pend, s.k, s.seg);
      assert OneLaneOk(Issued(jobs, |jobs|), |Issued(jobs, done)| + s.k, cuts, s.lanes, l);
      LaneOwes(Issued(jobs, |jobs|), |Issued(jobs, done)| + s.k, cuts[l], s.lanes[l].Served(), s.lanes[l].Todo());
    }
  }
}

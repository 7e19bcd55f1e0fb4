/**
 Reads beside the writes: per lane a command queue, a bus register, the RAM's one-deep pipeline and output
 register, and a response queue. Every read returns, byte for byte, what the flat memory held after some number of
 the writes, never fewer than were complete when the read was asked for; responses are never mixed.
 */
module StripedRead {
  import opened Arith
  import opened StripedRam
  import opened StripedLanes
  import W = StripedWrite

  type Bytes = seq<bv8>

  datatype Lane = Lane(queue: seq<ReadOp>, reg: Option<ReadOp>, ramReady: bool, pipe: Option<Bytes>,
                       resp: Option<Bytes>, masterReady: bool, words: seq<Bytes>)
  {
    function Todo(): seq<ReadOp> { Opt(reg) + queue }

    // What the lane has read and not handed over, oldest first.
    function Words(): seq<Bytes> { words + Opt(resp) + Opt(pipe) }

    // The RAM accepts only when its pipeline register will be free.
    predicate Valid() { ramReady ==> pipe.None? || resp.None? }
  }

  // The lanes, the response commands, how far the first has got (k segments, at lane seg), and its data so far.
  datatype Ctl = Ctl(lanes: seq<Lane>, pend: seq<Resp>, k: nat, seg: nat, data: Bytes)

  function Queued(lanes: seq<Lane>, x: seq<Routed<ReadOp>>): (r: seq<Lane>)
    ensures |r| == |lanes|
  {
    seq(|lanes|, l requires 0 <= l < |lanes| => lanes[l].(queue := lanes[l].queue + Share(x, 0, |x|, l)))
  }

  function DoIssue(s: Ctl, j: Job<ReadOp>): Ctl
  {
    s.(lanes := Queued(s.lanes, j.ops), pend := s.pend + [j.resp])
  }

  predicate Shake(x: Lane) { x.ramReady && x.reg.Some? }

  // The master's side of the command bus.
  function NextCommand(x: Lane, mPause: bool): (y: Lane)
    ensures y == x.(queue := y.queue, reg := y.reg)
    ensures y.Todo() == if Shake(x) then x.Todo()[1..] else x.Todo()
  {
    if !x.ramReady && x.reg.Some? then x
    else if x.queue != [] && !mPause then x.(queue := x.queue[1..], reg := Some(x.queue[0]))
    else x.(reg := None)
  }

  // The response side; word is what the RAM fetches if it takes the command.
  function NextResponse(x: Lane, word: Bytes): (y: Lane)
    ensures y == x.(pipe := y.pipe, resp := y.resp, words := y.words)
    ensures x.Valid() && Shake(x) ==> y.Words() == x.Words() + [word]
    ensures x.Valid() && !Shake(x) ==> y.Words() == x.Words()
  {
    var move := x.masterReady || x.resp.None?;
    var words := if x.masterReady then x.words + Opt(x.resp) else x.words;
    var y := x.(words := words, resp := if move then x.pipe else x.resp,
                pipe := if Shake(x) then Some(word) else if move then None else x.pipe);
    assert x.Valid() && Shake(x) ==> y.Words() == x.Words() + [word] by {
      assert move ==> words + Opt(x.pipe) == x.Words();
    }
    assert x.Valid() && !Shake(x) ==> y.Words() == x.Words();
    y
  }

  // A clock edge of one lane, master and RAM.
  function LaneEdge(x: Lane, mPause: bool, rPause: bool, word: Bytes): (y: Lane)
    ensures y.Valid()
    ensures y.Todo() == if Shake(x) then x.Todo()[1..] else x.Todo()
    ensures x.Valid() && Shake(x) ==> y.Words() == x.Words() + [word]
    ensures x.Valid() && !Shake(x) ==> y.Words() == x.Words()
  {
    var c, r := NextCommand(x, mPause), NextResponse(x, word);
    Lane(c.queue, c.reg, !rPause && (r.resp.None? || r.pipe.None?), r.pipe, r.resp, !mPause, r.words)
  }

  // What the RAM reads for the command in the bus register of lane l.
  function Fetch(g: Geometry, mem: Bytes, l: nat, x: Lane): Bytes
    requires g.Valid() && |mem| == g.Size() && l < g.segs
  {
    if x.reg.Some? && x.reg.value.row < g.rows then Word(g, mem, l, x.reg.value.row) else []
  }

  function DoEdge(s: Ctl, l: nat, mPause: bool, rPause: bool, word: Bytes): Ctl
    requires l < |s.lanes|
  {
    s.(lanes := s.lanes[l := LaneEdge(s.lanes[l], mPause, rPause, word)])
  }

  function KeepFrom(r: Resp, k: nat): nat { if k == 0 then r.startOffset else 0 }

  function KeepTo(width: nat, r: Resp, k: nat): nat { if k + 1 == r.segments then r.endOffset else width }

  // The bytes of a response word that the reassembly loop keeps.
  function Kept(width: nat, r: Resp, k: nat, word: Bytes): Bytes
  {
    if KeepFrom(r, k) <= KeepTo(width, r, k) <= |word| then word[KeepFrom(r, k)..KeepTo(width, r, k)] else []
  }

  function Took(lanes: seq<Lane>, seg: nat): (r: seq<Lane>)
    requires seg < |lanes| && lanes[seg].words != []
    ensures |r| == |lanes|
  {
    lanes[seg := lanes[seg].(words := lanes[seg].words[1..])]
  }

  predicate Completes(s: Ctl) { s.pend != [] && s.k == s.pend[0].segments }

  predicate Takes(s: Ctl)
  {
    && s.pend != [] && s.k < s.pend[0].segments && Awaited(s.pend, s.k, s.seg) < |s.lanes|
    && s.lanes[Awaited(s.pend, s.k, s.seg)].words != []
  }

  function DoCollect(width: nat, s: Ctl): Ctl
  {
    if Completes(s) then s.(pend := s.pend[1..], k := 0, data := [])
    else if Takes(s) then
      var seg := Awaited(s.pend, s.k, s.seg);
      Ctl(Took(s.lanes, seg), s.pend, s.k + 1, NextLane(|s.lanes|, seg),
          s.data + Kept(width, s.pend[0], s.k, s.lanes[seg].words[0]))
    else s
  }

  // ---- what a read may return ----

  // The writes so far, against which bytes are judged.
  datatype Writes = Writes(init: Bytes, cmds: seq<Cmd>, done: nat)
  {
    ghost predicate Valid(g: Geometry)
    {
      g.Valid() && |init| == g.Size() && W.AllValid(g, cmds) && done <= |cmds|
    }
  }

  // Bytes that a flat memory could have held at address, at or after the time the read was asked for.
  ghost predicate Fresh(g: Geometry, w: Writes, since: nat, address: nat, bytes: Bytes)
    requires w.Valid(g)
  {
    forall i :: 0 <= i < |bytes| ==> W.Seen(g, w.init, w.cmds, since, address + i, bytes[i])
  }

  lemma FreshAppend(g: Geometry, w: Writes, since: nat, address: nat, data: Bytes, base: nat, word: Bytes, start: nat, stop: nat)
    requires w.Valid(g) && Fresh(g, w, since, address, data) && Fresh(g, w, since, base, word)
    requires start <= stop <= |word| && (start < stop ==> base + start == address + |data|)
    ensures Fresh(g, w, since, address, data + word[start..stop])
  {
    var more := data + word[start..stop];
    forall i | 0 <= i < |more|
      ensures W.Seen(g, w.init, w.cmds, since, address + i, more[i])
    {
      if i >= |data| {
        assert W.Seen(g, w.init, w.cmds, since, base + (start + i - |data|), word[start + i - |data|]);
      }
    }
  }

  // ---- the lanes ----

  ghost predicate WordOk(g: Geometry, w: Writes, op: ReadOp, word: Bytes)
    requires w.Valid(g)
  {
    |word| == g.width && Fresh(g, w, op.since, op.at, word)
  }

  ghost predicate WordsOk(g: Geometry, w: Writes, ops: seq<ReadOp>, words: seq<Bytes>)
    requires w.Valid(g)
  {
    |ops| == |words| && forall i :: 0 <= i < |words| ==> WordAt(g, w, ops, words, i)
  }

  ghost predicate WordAt(g: Geometry, w: Writes, ops: seq<ReadOp>, words: seq<Bytes>, i: nat)
    requires w.Valid(g) && i < |ops| && i < |words|
  {
    WordOk(g, w, ops[i], words[i])
  }

  // The words are those of what the lane has served and the collector has not taken; todo is still to be served.
  ghost predicate ShareOk(g: Geometry, w: Writes, ops: seq<Routed<ReadOp>>, pc: nat, cut: nat, l: nat, words: seq<Bytes>,
                          todo: seq<ReadOp>)
    requires w.Valid(g)
  {
    LaneOk(ops, pc, cut, l, |words|, todo) && WordsOk(g, w, Share(ops, pc, cut, l), words)
  }

  ghost predicate OneLaneOk(g: Geometry, w: Writes, ops: seq<Routed<ReadOp>>, pc: nat, cut: nat, l: nat, x: Lane)
    requires w.Valid(g)
  {
    x.Valid() && ShareOk(g, w, ops, pc, cut, l, x.Words(), x.Todo())
  }

  ghost predicate LanesOk(g: Geometry, w: Writes, ops: seq<Routed<ReadOp>>, pc: nat, cuts: seq<nat>, lanes: seq<Lane>)
    requires w.Valid(g)
  {
    && |lanes| == |cuts| == g.segs
    && forall l :: 0 <= l < g.segs ==> LaneAt(g, w, ops, pc, cuts, lanes, l)
  }

  ghost predicate LaneAt(g: Geometry, w: Writes, ops: seq<Routed<ReadOp>>, pc: nat, cuts: seq<nat>, lanes: seq<Lane>, l: nat)
    requires w.Valid(g) && l < |cuts| && l < |lanes|
  {
    OneLaneOk(g, w, ops, pc, cuts[l], l, lanes[l])
  }

  lemma LanesIssue(g: Geometry, w: Writes, ops: seq<Routed<ReadOp>>, x: seq<Routed<ReadOp>>, pc: nat, cuts: seq<nat>, lanes: seq<Lane>)
    requires w.Valid(g) && LanesOk(g, w, ops, pc, cuts, lanes)
    ensures LanesOk(g, w, ops + x, pc, cuts, Queued(lanes, x))
  {
    forall l | 0 <= l < g.segs
      ensures LaneAt(g, w, ops + x, pc, cuts, Queued(lanes, x), l)
    {
      assert LaneAt(g, w, ops, pc, cuts, lanes, l);
      LaneIssue(ops, x, pc, cuts[l], l, |lanes[l].Words()|, lanes[l].Todo());
      assert Queued(lanes, x)[l].Todo() == lanes[l].Todo() + Share(x, 0, |x|, l);
      assert Queued(lanes, x)[l].Words() == lanes[l].Words();
    }
  }

  lemma ServeOne(g: Geometry, w: Writes, ops: seq<Routed<ReadOp>>, pc: nat, cut: nat, l: nat, words: seq<Bytes>,
                 op: ReadOp, rest: seq<ReadOp>, word: Bytes)
      returns (next: nat)
    requires w.Valid(g) && ShareOk(g, w, ops, pc, cut, l, words, [op] + rest) && WordOk(g, w, op, word)
    ensures ShareOk(g, w, ops, pc, next + 1, l, words + [word], rest)
  {
    next := LaneServe(ops, pc, cut, l, |words|, [op] + rest);
    assert ([op] + rest)[1..] == rest;
    WordsOneMore(g, w, Share(ops, pc, cut, l), words, op, word);
  }

  lemma WordsOneMore(g: Geometry, w: Writes, ops: seq<ReadOp>, words: seq<Bytes>, op: ReadOp, word: Bytes)
    requires w.Valid(g) && WordsOk(g, w, ops, words) && WordOk(g, w, op, word)
    ensures WordsOk(g, w, ops + [op], words + [word])
  {
    var ops', words' := ops + [op], words + [word];
    forall i | 0 <= i < |words'| ensures WordAt(g, w, ops', words', i) {
      if i < |words| { assert WordAt(g, w, ops, words, i); }
    }
  }

  // The bus register holds the first of what is to be served.
  lemma RegIsNext(x: Lane)
    requires x.reg.Some?
    ensures x.Todo() == [x.reg.value] + x.queue
  {
  }

  // The operation in the bus register is one of those issued.
  lemma RegIssued(g: Geometry, w: Writes, ops: seq<Routed<ReadOp>>, pc: nat, cut: nat, l: nat, x: Lane) returns (i: nat)
    requires w.Valid(g) && OneLaneOk(g, w, ops, pc, cut, l, x) && x.reg.Some?
    ensures i < |ops| && ops[i] == Routed(l, x.reg.value)
  {
    assert x.Todo()[0] == x.reg.value;
    i := LaneServe(ops, pc, cut, l, |x.Words()|, x.Todo());
  }

  lemma WordsOneLess(g: Geometry, w: Writes, op: ReadOp, ops: seq<ReadOp>, words: seq<Bytes>)
    requires w.Valid(g) && words != [] && WordsOk(g, w, [op] + ops, words)
    ensures WordOk(g, w, op, words[0]) && WordsOk(g, w, ops, words[1..])
  {
    var all, rest := [op] + ops, words[1..];
    assert WordAt(g, w, all, words, 0);
    forall i | 0 <= i < |ops| ensures WordAt(g, w, ops, rest, i) {
      assert WordAt(g, w, all, words, i + 1);
    }
  }

  lemma TakeOwn(g: Geometry, w: Writes, ops: seq<Routed<ReadOp>>, pc: nat, cut: nat, l: nat, x: Lane)
    requires w.Valid(g) && OneLaneOk(g, w, ops, pc, cut, l, x) && pc < |ops| && ops[pc].lane == l && x.words != []
    ensures cut != pc && OneLaneOk(g, w, ops, pc + 1, cut, l, x.(words := x.words[1..]))
    ensures WordOk(g, w, ops[pc].op, x.words[0])
  {
    var cut' := LaneCollect(ops, pc, cut, l, |x.Words()|, x.Todo());
    var y := x.(words := x.words[1..]);
    assert y.Words() == x.Words()[1..] && x.Words()[0] == x.words[0];
    WordsOneLess(g, w, ops[pc].op, Share(ops, pc + 1, cut', l), x.Words());
  }

  lemma TakeOther(g: Geometry, w: Writes, ops: seq<Routed<ReadOp>>, pc: nat, cut: nat, l: nat, x: Lane)
    requires w.Valid(g) && OneLaneOk(g, w, ops, pc, cut, l, x) && pc < |ops| && ops[pc].lane != l
    ensures OneLaneOk(g, w, ops, pc + 1, if cut == pc then pc + 1 else cut, l, x)
  {
    var cut' := LaneCollect(ops, pc, cut, l, |x.Words()|, x.Todo());
    assert [] + Share(ops, pc + 1, cut', l) == Share(ops, pc + 1, cut', l);
  }

  lemma LanesTake(g: Geometry, w: Writes, ops: seq<Routed<ReadOp>>, pc: nat, cuts: seq<nat>, lanes: seq<Lane>, seg: nat)
    requires w.Valid(g) && LanesOk(g, w, ops, pc, cuts, lanes) && pc < |ops| && ops[pc].lane == seg < g.segs
    requires lanes[seg].words != []
    ensures LanesOk(g, w, ops, pc + 1, Pushed(cuts, pc), Took(lanes, seg))
    ensures WordOk(g, w, ops[pc].op, lanes[seg].words[0])
  {
    var lanes', cuts', next := Took(lanes, seg), Pushed(cuts, pc), pc + 1;
    assert LaneAt(g, w, ops, pc, cuts, lanes, seg);
    TakeOwn(g, w, ops, pc, cuts[seg], seg, lanes[seg]);
    forall l | 0 <= l < g.segs
      ensures LaneAt(g, w, ops, next, cuts', lanes', l)
    {
      if l != seg {
        assert LaneAt(g, w, ops, pc, cuts, lanes, l);
        TakeOther(g, w, ops, pc, cuts[l], l, lanes[l]);
      }
    }
  }

  // ---- reassembly ----

  // A read and where the bytes of each of its words go in the data.
  datatype Plan = Plan(address: nat, len: nat, since: nat, offsets: seq<nat>)

  // One word of a plan: the kept bytes go where their address says.
  ghost predicate PieceOk(width: nat, op: ReadOp, r: Resp, k: nat, p: Plan)
    requires k + 1 < |p.offsets|
  {
    && KeepFrom(r, k) <= KeepTo(width, r, k) <= width && op.since == p.since
    && p.offsets[k + 1] == p.offsets[k] + KeepTo(width, r, k) - KeepFrom(r, k)
    && (KeepFrom(r, k) < KeepTo(width, r, k) ==> op.at + KeepFrom(r, k) == p.address + p.offsets[k])
  }

  ghost predicate PlanOk(width: nat, j: Job<ReadOp>, p: Plan)
  {
    && |p.offsets| == |j.ops| + 1 && p.offsets[0] == 0 && p.offsets[|j.ops|] == p.len
    && forall k :: 0 <= k < |j.ops| ==> PieceOk(width, j.ops[k].op, j.resp, k, p)
  }

  ghost predicate DataOk(g: Geometry, w: Writes, p: Plan, k: nat, data: Bytes)
    requires w.Valid(g)
  {
    k < |p.offsets| && |data| == p.offsets[k] && Fresh(g, w, p.since, p.address, data)
  }

  // The bytes kept of word k continue what has been assembled.
  lemma KeptContinues(g: Geometry, w: Writes, op: ReadOp, r: Resp, p: Plan, k: nat, data: Bytes, word: Bytes)
    requires w.Valid(g) && k + 1 < |p.offsets| && PieceOk(g.width, op, r, k, p)
    requires DataOk(g, w, p, k, data) && WordOk(g, w, op, word)
    ensures DataOk(g, w, p, k + 1, data + Kept(g.width, r, k, word))
  {
    FreshAppend(g, w, p.since, p.address, data, op.at, word, KeepFrom(r, k), KeepTo(g.width, r, k));
  }

  /** Every finished read got len bytes, each one that the flat memory held since it was asked for. */
  ghost predicate ResultsOk(g: Geometry, w: Writes, plans: seq<Plan>, results: seq<Bytes>)
    requires w.Valid(g)
  {
    && |results| <= |plans|
    && forall j :: 0 <= j < |results| ==>
         |results[j]| == plans[j].len && Fresh(g, w, plans[j].since, plans[j].address, results[j])
  }

  // The reads so far: their plans and jobs, what the finished ones returned, and how far each lane has got.
  datatype Hist = Hist(plans: seq<Plan>, jobs: seq<Job<ReadOp>>, results: seq<Bytes>, cuts: seq<nat>)

  ghost predicate PlansOk(width: nat, plans: seq<Plan>, jobs: seq<Job<ReadOp>>)
  {
    |plans| == |jobs| && forall i :: 0 <= i < |jobs| ==> PlanOk(width, jobs[i], plans[i])
  }

  ghost predicate CtlOk(g: Geometry, w: Writes, s: Ctl, h: Hist)
    requires w.Valid(g)
  {
    && |h.results| <= |h.jobs| && PendOk(g.segs, h.jobs, |h.results|, s.pend, s.k, s.seg)
    && LanesOk(g, w, Issued(h.jobs, |h.jobs|), |Issued(h.jobs, |h.results|)| + s.k, h.cuts, s.lanes)
  }

  ghost predicate AsmOk(g: Geometry, w: Writes, s: Ctl, h: Hist)
    requires w.Valid(g)
  {
    && PlansOk(g.width, h.plans, h.jobs) && ResultsOk(g, w, h.plans, h.results)
    && if |h.results| == |h.plans| then s.k == 0 && s.data == []
       else DataOk(g, w, h.plans[|h.results|], s.k, s.data)
  }

  function Reset(g: Geometry): Ctl
  {
    Ctl(seq(g.segs, _ => Lane([], None, false, None, None, false, [])), [], 0, 0, [])
  }

  lemma ResetOk(g: Geometry, w: Writes)
    requires w.Valid(g)
    ensures
      var h := Hist([], [], [], seq(g.segs, _ => 0));
      CtlOk(g, w, Reset(g), h) && AsmOk(g, w, Reset(g), h)
  {
  }

  lemma CtlFrom(g: Geometry, w: Writes, s: Ctl, h: Hist, ops: seq<Routed<ReadOp>>, pc: nat)
    requires w.Valid(g) && |h.results| <= |h.jobs| && PendOk(g.segs, h.jobs, |h.results|, s.pend, s.k, s.seg)
    requires ops == Issued(h.jobs, |h.jobs|) && pc == |Issued(h.jobs, |h.results|)| + s.k
    requires LanesOk(g, w, ops, pc, h.cuts, s.lanes)
    ensures CtlOk(g, w, s, h)
  {
  }

  // ---- each step ----

  lemma IssueKeepsCtl(g: Geometry, w: Writes, s: Ctl, h: Hist, j: Job<ReadOp>, p: Plan)
    requires w.Valid(g) && CtlOk(g, w, s, h) && JobOk(g.segs, j)
    ensures CtlOk(g, w, DoIssue(s, j), h.(jobs := h.jobs + [j], plans := h.plans + [p]))
  {
    var h', n, pc := h.(jobs := h.jobs + [j], plans := h.plans + [p]), |h.results|, |Issued(h.jobs, |h.results|)| + s.k;
    PendIssue(g.segs, h.jobs, n, s.pend, s.k, s.seg, j);
    LanesIssue(g, w, Issued(h.jobs, |h.jobs|), j.ops, pc, h.cuts, s.lanes);
    IssuedOneMore(h.jobs, j);
    IssuedOfPrefix(h.jobs, j, n);
    CtlFrom(g, w, DoIssue(s, j), h', Issued(h'.jobs, |h'.jobs|), pc);
  }

  lemma IssueKeepsAsm(g: Geometry, w: Writes, s: Ctl, h: Hist, j: Job<ReadOp>, p: Plan)
    requires w.Valid(g) && AsmOk(g, w, s, h) && PlanOk(g.width, j, p)
    ensures AsmOk(g, w, DoIssue(s, j), h.(jobs := h.jobs + [j], plans := h.plans + [p]))
  {
  }

  // A clock edge as the rest of the system sees it: one operation less and its word more, or the same.
  ghost predicate Edged(x: Lane, y: Lane, word: Bytes) {
    && y.Valid()
    && y.Todo() == (if Shake(x) then x.queue else x.Todo())
    && y.Words() == if Shake(x) then x.Words() + [word] else x.Words()
  }

  lemma EdgeIsEdged(x: Lane, mPause: bool, rPause: bool, word: Bytes)
    requires x.Valid()
    ensures Edged(x, LaneEdge(x, mPause, rPause, word), word)
  {
    assert Shake(x) ==> x.Todo()[1..] == x.queue;
  }

  lemma EdgeShare(g: Geometry, w: Writes, ops: seq<Routed<ReadOp>>, pc: nat, cut: nat, l: nat, words: seq<Bytes>,
                  todo: seq<ReadOp>, served: Option<ReadOp>, word: Bytes, words': seq<Bytes>, todo': seq<ReadOp>)
      returns (cut': nat)
    requires w.Valid(g) && ShareOk(g, w, ops, pc, cut, l, words, todo)
    requires served.Some? ==> todo == [served.value] + todo' && WordOk(g, w, served.value, word)
    requires if served.Some? then words' == words + [word] else words' == words && todo' == todo
    ensures ShareOk(g, w, ops, pc, cut', l, words', todo')
  {
    cut' := cut;
    if served.Some? {
      var next := ServeOne(g, w, ops, pc, cut, l, words, served.value, todo', word);
      cut' := next + 1;
    }
  }

  lemma EdgeOne(g: Geometry, w: Writes, ops: seq<Routed<ReadOp>>, pc: nat, cut: nat, l: nat, x: Lane, y: Lane, word: Bytes)
      returns (cut': nat)
    requires w.Valid(g) && OneLaneOk(g, w, ops, pc, cut, l, x) && Edged(x, y, word)
    requires Shake(x) ==> WordOk(g, w, x.reg.value, word)
    ensures OneLaneOk(g, w, ops, pc, cut', l, y)
  {
    if Shake(x) { RegIsNext(x); }
    cut' := EdgeShare(g, w, ops, pc, cut, l, x.Words(), x.Todo(), if Shake(x) then x.reg else None, word, y.Words(), y.Todo());
  }

  lemma EdgeKeepsCtl(g: Geometry, w: Writes, s: Ctl, h: Hist, l: nat, mPause: bool, rPause: bool, word: Bytes) returns (h': Hist)
    requires w.Valid(g) && CtlOk(g, w, s, h) && l < g.segs
    requires Shake(s.lanes[l]) ==> WordOk(g, w, s.lanes[l].reg.value, word)
    ensures CtlOk(g, w, DoEdge(s, l, mPause, rPause, word), h') && h' == h.(cuts := h'.cuts)
  {
    var ops, pc, y := Issued(h.jobs, |h.jobs|), |Issued(h.jobs, |h.results|)| + s.k, LaneEdge(s.lanes[l], mPause, rPause, word);
    assert LaneAt(g, w, ops, pc, h.cuts, s.lanes, l);
    EdgeIsEdged(s.lanes[l], mPause, rPause, word);
    var cut := EdgeOne(g, w, ops, pc, h.cuts[l], l, s.lanes[l], y, word);
    LanesUpdate(g, w, ops, pc, h.cuts, s.lanes, l, cut, y);
    h' := h.(cuts := h.cuts[l := cut]);
    CtlFrom(g, w, DoEdge(s, l, mPause, rPause, word), h', ops, pc);
  }

  lemma LanesUpdate(g: Geometry, w: Writes, ops: seq<Routed<ReadOp>>, pc: nat, cuts: seq<nat>, lanes: seq<Lane>, l: nat,
                    cut: nat, y: Lane)
    requires w.Valid(g) && LanesOk(g, w, ops, pc, cuts, lanes) && l < g.segs && OneLaneOk(g, w, ops, pc, cut, l, y)
    ensures LanesOk(g, w, ops, pc, cuts[l := cut], lanes[l := y])
  {
    var cuts', lanes' := cuts[l := cut], lanes[l := y];
    forall i | 0 <= i < g.segs ensures LaneAt(g, w, ops, pc, cuts', lanes', i) {
      if i != l { assert LaneAt(g, w, ops, pc, cuts, lanes, i); }
    }
  }

  // The collector stands at the operation whose word it waits for.
  lemma Reached(g: Geometry, w: Writes, s: Ctl, h: Hist)
    requires w.Valid(g) && CtlOk(g, w, s, h) && s.pend != [] && s.k < s.pend[0].segments
    ensures
      var n, pc := |h.results|, |Issued(h.jobs, |h.results|)| + s.k;
      && n < |h.jobs| && s.pend[0] == h.jobs[n].resp && s.k < |h.jobs[n].ops| && pc < |Issued(h.jobs, |h.jobs|)|
      && Issued(h.jobs, |h.jobs|)[pc] == h.jobs[n].ops[s.k]
      && h.jobs[n].ops[s.k].lane == Awaited(s.pend, s.k, s.seg) < g.segs == |s.lanes|
  {
    PendAwaits(g.segs, h.jobs, |h.results|, s.pend, s.k, s.seg);
  }

  lemma TakeLanes(g: Geometry, w: Writes, s: Ctl, h: Hist)
    requires w.Valid(g) && CtlOk(g, w, s, h) && Takes(s)
    ensures
      var ops, pc, seg := Issued(h.jobs, |h.jobs|), |Issued(h.jobs, |h.results|)| + s.k, Awaited(s.pend, s.k, s.seg);
      && LanesOk(g, w, ops, pc + 1, Pushed(h.cuts, pc), Took(s.lanes, seg))
      && pc < |ops| && WordOk(g, w, ops[pc].op, s.lanes[seg].words[0])
  {
    Reached(g, w, s, h);
    LanesTake(g, w, Issued(h.jobs, |h.jobs|), |Issued(h.jobs, |h.results|)| + s.k, h.cuts, s.lanes, Awaited(s.pend, s.k, s.seg));
  }

  lemma TakePend(g: Geometry, w: Writes, s: Ctl, h: Hist)
    requires w.Valid(g) && CtlOk(g, w, s, h) && Takes(s)
    ensures PendOk(g.segs, h.jobs, |h.results|, s.pend, s.k + 1, NextLane(|s.lanes|, Awaited(s.pend, s.k, s.seg)))
  {
    PendTake(g.segs, h.jobs, |h.results|, s.pend, s.k, s.seg);
  }

  lemma TakeKeepsCtl(g: Geometry, w: Writes, s: Ctl, h: Hist, s': Ctl, h': Hist)
    requires w.Valid(g) && CtlOk(g, w, s, h) && Takes(s) && s' == DoCollect(g.width, s)
    requires h' == h.(cuts := Pushed(h.cuts, |Issued(h.jobs, |h.results|)| + s.k))
    ensures CtlOk(g, w, s', h')
  {
    TakePend(g, w, s, h);
    TakeLanes(g, w, s, h);
    CtlFrom(g, w, s', h', Issued(h.jobs, |h.jobs|), |Issued(h.jobs, |h.results|)| + s.k + 1);
  }

  lemma TakeWord(g: Geometry, w: Writes, s: Ctl, h: Hist)
    requires w.Valid(g) && CtlOk(g, w, s, h) && Takes(s)
    ensures |h.results| < |h.jobs| && s.k < |h.jobs[|h.results|].ops| && s.pend[0] == h.jobs[|h.results|].resp
    ensures WordOk(g, w, h.jobs[|h.results|].ops[s.k].op, s.lanes[Awaited(s.pend, s.k, s.seg)].words[0])
  {
    Reached(g, w, s, h);
    TakeLanes(g, w, s, h);
  }

  lemma TakeKeepsAsm(g: Geometry, w: Writes, s: Ctl, h: Hist)
    requires w.Valid(g) && AsmOk(g, w, s, h) && Takes(s)
    requires |h.results| < |h.jobs| && s.k < |h.jobs[|h.results|].ops| && s.pend[0] == h.jobs[|h.results|].resp
    requires WordOk(g, w, h.jobs[|h.results|].ops[s.k].op, s.lanes[Awaited(s.pend, s.k, s.seg)].words[0])
    ensures AsmOk(g, w, DoCollect(g.width, s), h)
  {
    var n := |h.results|;
    assert PlanOk(g.width, h.jobs[n], h.plans[n]);
    KeptContinues(g, w, h.jobs[n].ops[s.k].op, s.pend[0], h.plans[n], s.k, s.data, s.lanes[Awaited(s.pend, s.k, s.seg)].words[0]);
  }

  lemma CompleteKeepsCtl(g: Geometry, w: Writes, s: Ctl, h: Hist)
    requires w.Valid(g) && CtlOk(g, w, s, h) && Completes(s)
    ensures CtlOk(g, w, DoCollect(g.width, s), h.(results := h.results + [s.data]))
    ensures |h.results| < |h.jobs| && s.k == |h.jobs[|h.results|].ops|
  {
    var n := |h.results|;
    PendComplete(g.segs, h.jobs, n, s.pend, s.k, s.seg);
    assert RespOk(h.jobs, n, s.pend, 0) && JobOk(g.segs, h.jobs[n]);
    CtlFrom(g, w, DoCollect(g.width, s), h.(results := h.results + [s.data]), Issued(h.jobs, |h.jobs|), |Issued(h.jobs, n + 1)|);
  }

  lemma CompleteKeepsAsm(g: Geometry, w: Writes, s: Ctl, h: Hist)
    requires w.Valid(g) && AsmOk(g, w, s, h) && Completes(s)
    requires |h.results| < |h.jobs| && s.k == |h.jobs[|h.results|].ops|
    ensures AsmOk(g, w, DoCollect(g.width, s), h.(results := h.results + [s.data]))
  {
    var n := |h.results|;
    assert PlanOk(g.width, h.jobs[n], h.plans[n]);
    if n + 1 < |h.jobs| { assert PlanOk(g.width, h.jobs[n + 1], h.plans[n + 1]); }
    ResultsOneMore(g, w, h.plans, h.results, s.data);
  }

  lemma ResultsOneMore(g: Geometry, w: Writes, plans: seq<Plan>, results: seq<Bytes>, data: Bytes)
    requires w.Valid(g) && ResultsOk(g, w, plans, results) && |results| < |plans|
    requires |data| == plans[|results|].len && Fresh(g, w, plans[|results|].since, plans[|results|].address, data)
    ensures ResultsOk(g, w, plans, results + [data])
  {
  }

  predicate Busy(x: Lane) { x.words != [] || x.resp.Some? || x.pipe.Some? || x.reg.Some? || x.queue != [] }

  // A lane that the collector waits for holds the word or has still to fetch it.
  lemma LaneHolds(g: Geometry, w: Writes, ops: seq<Routed<ReadOp>>, pc: nat, cuts: seq<nat>, lanes: seq<Lane>, l: nat)
    requires w.Valid(g) && LanesOk(g, w, ops, pc, cuts, lanes) && l < g.segs && pc < |ops| && ops[pc].lane == l
    ensures Busy(lanes[l])
  {
    assert LaneAt(g, w, ops, pc, cuts, lanes, l);
    LaneOwes(ops, pc, cuts[l], |lanes[l].Words()|, lanes[l].Todo());
  }

  /** A read that is not complete is never stuck: its next word can be taken, or the lane it waits for holds it or
      has still to fetch it. */
  lemma ReadsNeverStick(g: Geometry, w: Writes, s: Ctl, h: Hist)
    requires w.Valid(g) && CtlOk(g, w, s, h) && |h.results| < |h.jobs|
    ensures s.pend != [] && (Completes(s) || Awaited(s.pend, s.k, s.seg) < |s.lanes|)
    ensures !Completes(s) ==> Busy(s.lanes[Awaited(s.pend, s.k, s.seg)])
  {
    if !Completes(s) {
      Reached(g, w, s, h);
      var pc := |Issued(h.jobs, |h.results|)| + s.k;
      LaneHolds(g, w, Issued(h.jobs, |h.jobs|), pc, h.cuts, s.lanes, Awaited(s.pend, s.k, s.seg));
    }
  }

  // ---- the commands' own jobs and plans ----

  function JobOf(g: Geometry, c: ReadCmd): Job<ReadOp>
    requires g.Valid()
  {
    Job(ReadOps(g, c), W.RespOf(g, c.address, c.len))
  }

  function PlanOf(g: Geometry, c: ReadCmd): Plan
    requires g.Valid() && c.Valid(g)
  {
    var s := Segments(g, c.address, c.len);
    Plan(c.address, c.len, c.since, seq(s + 1, k requires 0 <= k <= s => if k < s then PlacedAt(g, c, k) else c.len))
  }

  function PlacedAt(g: Geometry, c: ReadCmd, k: nat): nat
    requires g.Valid() && k < Segments(g, c.address, c.len)
  {
    NextSegment(g, c.address, c.len, k);
    Offset(g, c.address, k)
  }

  lemma JobOfOk(g: Geometry, c: ReadCmd)
    requires g.Valid() && c.Valid(g)
    ensures JobOk(g.segs, JobOf(g, c))
  {
    var ops := ReadOps(g, c);
    forall i | 0 <= i < |ops| ensures GoesOn(g.segs, ops, i)
    {
      W.LaneGoesRound(g, c.address, i);
    }
  }

  lemma PieceOfOk(g: Geometry, c: ReadCmd, k: nat)
    requires g.Valid() && c.Valid(g) && k < Segments(g, c.address, c.len)
    ensures PieceOk(g.width, ReadOpOf(g, c, k).op, W.RespOf(g, c.address, c.len), k, PlanOf(g, c))
  {
    var p := PlanOf(g, c);
    assert p.offsets[k] == Offset(g, c.address, k);
    StartBeforeStop(g, c.address, c.len, k);
    NextSegment(g, c.address, c.len, k);
    AssembledLength(g, c.address, c.len, k);
    if Start(g, c.address, k) < Stop(g, c.address, c.len, k) {
      AssembledByte(g, c.address, c.len, k, Start(g, c.address, k));
    }
  }

  lemma PlanOfOk(g: Geometry, c: ReadCmd)
    requires g.Valid() && c.Valid(g)
    ensures PlanOk(g.width, JobOf(g, c), PlanOf(g, c))
  {
    if Segments(g, c.address, c.len) == 0 { NothingToAssemble(g, c.address, c.len); }
    forall k | 0 <= k < Segments(g, c.address, c.len)
      ensures PieceOk(g.width, JobOf(g, c).ops[k].op, JobOf(g, c).resp, k, PlanOf(g, c))
    {
      PieceOfOk(g, c, k);
    }
  }

  // What every issued operation names: a word of the memory, and no later time than now.
  ghost predicate OpOk(g: Geometry, r: Routed<ReadOp>, done: nat)
  {
    r.lane < g.segs && r.op.row < g.rows && r.op.at == WordAddress(g, r.lane, r.op.row) && r.op.since <= done
  }

  ghost predicate OpsOk(g: Geometry, ops: seq<Routed<ReadOp>>, done: nat)
  {
    forall i :: 0 <= i < |ops| ==> OpOk(g, ops[i], done)
  }

  lemma ReadOpsOk(g: Geometry, c: ReadCmd, done: nat)
    requires g.Valid() && c.Valid(g) && c.since <= done
    ensures OpsOk(g, ReadOps(g, c), done)
  {
    forall k | 0 <= k < Segments(g, c.address, c.len)
      ensures OpOk(g, ReadOpOf(g, c, k), done)
    {
      WordInMemory(g, c.address, c.len, k);
      WordPlace(g, c.address, k);
    }
  }

  lemma FetchOk(g: Geometry, w: Writes, mem: Bytes, l: nat, op: ReadOp)
    requires w.Valid(g) && |mem| == g.Size() && OpOk(g, Routed(l, op), w.done)
    requires forall a :: 0 <= a < |mem| ==> W.Seen(g, w.init, w.cmds, w.done, a, mem[a])
    ensures WordOk(g, w, op, Word(g, mem, l, op.row))
  {
    WordBytes(g, l, op.row, 0);
    forall i | 0 <= i < g.width
      ensures W.Seen(g, w.init, w.cmds, op.since, op.at + i, Word(g, mem, l, op.row)[i])
    {
      assert W.Seen(g, w.init, w.cmds, w.done, op.at + i, mem[op.at + i]);
    }
  }
}

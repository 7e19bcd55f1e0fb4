/** Writes and reads together: any interleaving of commands, stalls and responses on both sides of one memory. */
module StripedSystem {
  import opened Arith
  import opened StripedRam
  import opened StripedLanes
  import W = StripedWrite
  import R = StripedRead

  // ---- what a read may return only grows ----

  ghost predicate Later(g: Geometry, w: R.Writes, w': R.Writes)
  {
    && w.Valid(g) && w'.Valid(g) && w'.init == w.init && w.done <= w'.done
    && (w'.cmds == w.cmds || exists c :: w'.cmds == w.cmds + [c])
  }

  lemma SeenGrows(g: Geometry, w: R.Writes, w': R.Writes, since: nat, a: nat, v: bv8)
    requires Later(g, w, w') && W.Seen(g, w.init, w.cmds, since, a, v)
    ensures W.Seen(g, w'.init, w'.cmds, since, a, v)
  {
    if w'.cmds != w.cmds {
      var c :| w'.cmds == w.cmds + [c];
      var m :| since <= m <= |w.cmds| && v == W.FlatAll(g, w.init, w.cmds, m)[a];
      W.FlatOfPrefix(g, w.init, w.cmds, [c], m);
      W.SeenAt(g, w.init, w'.cmds, since, a, m);
    }
  }

  lemma FreshGrows(g: Geometry, w: R.Writes, w': R.Writes, since: nat, address: nat, bytes: R.Bytes)
    requires Later(g, w, w') && R.Fresh(g, w, since, address, bytes)
    ensures R.Fresh(g, w', since, address, bytes)
  {
    forall i | 0 <= i < |bytes|
      ensures W.Seen(g, w'.init, w'.cmds, since, address + i, bytes[i])
    {
      SeenGrows(g, w, w', since, address + i, bytes[i]);
    }
  }

  lemma WordsGrow(g: Geometry, w: R.Writes, w': R.Writes, ops: seq<ReadOp>, words: seq<R.Bytes>)
    requires Later(g, w, w') && R.WordsOk(g, w, ops, words)
    ensures R.WordsOk(g, w', ops, words)
  {
    forall i | 0 <= i < |words|
      ensures R.WordAt(g, w', ops, words, i)
    {
      assert R.WordAt(g, w, ops, words, i);
      FreshGrows(g, w, w', ops[i].since, ops[i].at, words[i]);
    }
  }

  lemma LanesGrow(g: Geometry, w: R.Writes, w': R.Writes, ops: seq<Routed<ReadOp>>, pc: nat, cuts: seq<nat>, lanes: seq<R.Lane>)
    requires Later(g, w, w') && R.LanesOk(g, w, ops, pc, cuts, lanes)
    ensures R.LanesOk(g, w', ops, pc, cuts, lanes)
  {
    forall l | 0 <= l < g.segs
      ensures R.LaneAt(g, w', ops, pc, cuts, lanes, l)
    {
      assert R.LaneAt(g, w, ops, pc, cuts, lanes, l);
      WordsGrow(g, w, w', Share(ops, pc, cuts[l], l), lanes[l].Words());
    }
  }

  lemma ResultsGrow(g: Geometry, w: R.Writes, w': R.Writes, plans: seq<R.Plan>, results: seq<R.Bytes>)
    requires Later(g, w, w') && R.ResultsOk(g, w, plans, results)
    ensures R.ResultsOk(g, w', plans, results)
  {
    forall j | 0 <= j < |results|
      ensures R.Fresh(g, w', plans[j].since, plans[j].address, results[j])
    {
      FreshGrows(g, w, w', plans[j].since, plans[j].address, results[j]);
    }
  }

  lemma ReadsGrow(g: Geometry, w: R.Writes, w': R.Writes, s: R.Ctl, h: R.Hist)
    requires Later(g, w, w') && R.CtlOk(g, w, s, h) && R.AsmOk(g, w, s, h)
    ensures R.CtlOk(g, w', s, h) && R.AsmOk(g, w', s, h)
  {
    LanesGrow(g, w, w', Issued(h.jobs, |h.jobs|), |Issued(h.jobs, |h.results|)| + s.k, h.cuts, s.lanes);
    ResultsGrow(g, w, w', h.plans, h.results);
    if |h.results| < |h.plans| {
      FreshGrows(g, w, w', h.plans[|h.results|].since, h.plans[|h.results|].address, s.data);
    }
  }

  // ---- the whole system ----

  // Both sides, every read accepted, and what the finished reads returned.
  datatype World = World(w: W.World, r: R.Ctl, asked: seq<ReadCmd>, results: seq<R.Bytes>)

  datatype Step =
    | Write(t: W.Step)
    | Read(address: nat, len: nat)
    | ReadEdge(lane: nat, mPause: bool, rPause: bool)
    | ReadCollect
  {
    predicate Valid(g: Geometry)
    {
      (Write? && t.Edge? ==> t.lane < g.segs) && (ReadEdge? ==> lane < g.segs)
    }
  }

  predicate Shaped(g: Geometry, x: World)
  {
    g.Valid() && |x.w.s.ctl.lanes| == |x.r.lanes| == g.segs && |x.w.s.mem| == g.Size()
  }

  function DoRead(g: Geometry, x: World, c: ReadCmd): World
    requires g.Valid()
  {
    if c.Valid(g) then x.(r := R.DoIssue(x.r, R.JobOf(g, c)), asked := x.asked + [c]) else x
  }

  function Do(g: Geometry, x: World, t: Step): (y: World)
    requires Shaped(g, x) && t.Valid(g)
    ensures Shaped(g, y)
  {
    match t
    case Write(u) => x.(w := W.After(g, x.w, u))
    case Read(address, len) => DoRead(g, x, ReadCmd(address, len, x.w.done))
    case ReadEdge(l, mPause, rPause) =>
      x.(r := R.DoEdge(x.r, l, mPause, rPause, R.Fetch(g, x.w.s.mem, l, x.r.lanes[l])))
    case ReadCollect =>
      x.(r := R.DoCollect(g.width, x.r), results := if R.Completes(x.r) then x.results + [x.r.data] else x.results)
  }

  /** A command is accepted exactly when its first byte and its end lie in the memory, and is then the last of its kind;
      otherwise it changes nothing. */
  lemma AcceptedIffInside(g: Geometry, x: World, c: Cmd, address: nat, len: nat)
    requires Shaped(g, x)
    ensures
      var y := Do(g, x, Write(W.Issue(c)));
      if c.address < g.Size() && c.address + |c.data| <= g.Size() then y.w.cmds == x.w.cmds + [c] && y.r == x.r else y == x
    ensures
      var y := Do(g, x, Read(address, len));
      if address < g.Size() && address + len <= g.Size() then y.asked == x.asked + [ReadCmd(address, len, x.w.done)] && y.w == x.w
      else y == x
  {
  }

  function WritesOf(init: R.Bytes, w: W.World): R.Writes { R.Writes(init, w.cmds, w.done) }

  ghost predicate PlansMatch(g: Geometry, asked: seq<ReadCmd>, plans: seq<R.Plan>, done: nat)
  {
    && |plans| == |asked|
    && forall i :: 0 <= i < |asked| ==>
         && asked[i].Valid(g)
         && plans[i].address == asked[i].address && plans[i].len == asked[i].len && plans[i].since == asked[i].since <= done
  }

  // The read side, given the writes so far.
  ghost predicate ReadInv(g: Geometry, w: R.Writes, s: R.Ctl, asked: seq<ReadCmd>, h: R.Hist)
  {
    && w.Valid(g) && R.CtlOk(g, w, s, h) && R.AsmOk(g, w, s, h)
    && PlansMatch(g, asked, h.plans, w.done) && R.OpsOk(g, Issued(h.jobs, |h.jobs|), w.done)
  }

  // cuts and h are what the two sides keep besides the state.
  ghost predicate Inv(g: Geometry, init: R.Bytes, x: World, cuts: seq<nat>, h: R.Hist)
  {
    && W.Inv(g, init, x.w, cuts) && ReadInv(g, WritesOf(init, x.w), x.r, x.asked, h) && h.results == x.results
  }

  function Reset(g: Geometry, init: R.Bytes): World { World(W.Reset(g, init), R.Reset(g), [], []) }

  // ---- the read side by itself ----

  lemma OpsLater(g: Geometry, ops: seq<Routed<ReadOp>>, done: nat, done': nat)
    requires R.OpsOk(g, ops, done) && done <= done'
    ensures R.OpsOk(g, ops, done')
  {
  }

  lemma ReadInvGrows(g: Geometry, w: R.Writes, w': R.Writes, s: R.Ctl, asked: seq<ReadCmd>, h: R.Hist)
    requires Later(g, w, w') && ReadInv(g, w, s, asked, h)
    ensures ReadInv(g, w', s, asked, h)
  {
    ReadsGrow(g, w, w', s, h);
    OpsLater(g, Issued(h.jobs, |h.jobs|), w.done, w'.done);
  }

  lemma OpsOneMore(g: Geometry, jobs: seq<Job<ReadOp>>, c: ReadCmd, done: nat)
    requires g.Valid() && c.Valid(g) && c.since <= done && R.OpsOk(g, Issued(jobs, |jobs|), done)
    ensures
      var jobs' := jobs + [R.JobOf(g, c)];
      R.OpsOk(g, Issued(jobs', |jobs'|), done)
  {
    IssuedOneMore(jobs, R.JobOf(g, c));
    R.ReadOpsOk(g, c, done);
  }

  lemma ReadIssued(g: Geometry, w: R.Writes, s: R.Ctl, asked: seq<ReadCmd>, h: R.Hist, c: ReadCmd) returns (h': R.Hist)
    requires ReadInv(g, w, s, asked, h) && c.Valid(g) && c.since <= w.done
    ensures ReadInv(g, w, R.DoIssue(s, R.JobOf(g, c)), asked + [c], h') && h'.results == h.results
  {
    var j, p := R.JobOf(g, c), R.PlanOf(g, c);
    R.JobOfOk(g, c);
    R.PlanOfOk(g, c);
    OpsOneMore(g, h.jobs, c, w.done);
    R.IssueKeepsCtl(g, w, s, h, j, p);
    R.IssueKeepsAsm(g, w, s, h, j, p);
    h' := h.(jobs := h.jobs + [j], plans := h.plans + [p]);
    assert PlansMatch(g, asked + [c], h'.plans, w.done);
  }

  // The read in the bus register of a lane is one of those issued.
  lemma RegisterOk(g: Geometry, w: R.Writes, s: R.Ctl, asked: seq<ReadCmd>, h: R.Hist, l: nat)
    requires ReadInv(g, w, s, asked, h) && l < g.segs && s.lanes[l].reg.Some?
    ensures R.OpOk(g, Routed(l, s.lanes[l].reg.value), w.done)
  {
    assert R.LaneAt(g, w, Issued(h.jobs, |h.jobs|), |Issued(h.jobs, |h.results|)| + s.k, h.cuts, s.lanes, l);
    var i := R.RegIssued(g, w, Issued(h.jobs, |h.jobs|), |Issued(h.jobs, |h.results|)| + s.k, h.cuts[l], l, s.lanes[l]);
    assert R.OpOk(g, Issued(h.jobs, |h.jobs|)[i], w.done);
  }

  lemma ReadEdged(g: Geometry, w: R.Writes, s: R.Ctl, asked: seq<ReadCmd>, h: R.Hist, l: nat, mPause: bool, rPause: bool, mem: R.Bytes)
      returns (h': R.Hist)
    requires ReadInv(g, w, s, asked, h) && l < g.segs && |mem| == g.Size()
    requires forall a :: 0 <= a < g.Size() ==> W.Seen(g, w.init, w.cmds, w.done, a, mem[a])
    ensures ReadInv(g, w, R.DoEdge(s, l, mPause, rPause, R.Fetch(g, mem, l, s.lanes[l])), asked, h') && h'.results == h.results
  {
    var word := R.Fetch(g, mem, l, s.lanes[l]);
    if R.Shake(s.lanes[l]) {
      RegisterOk(g, w, s, asked, h, l);
      R.FetchOk(g, w, mem, l, s.lanes[l].reg.value);
    }
    h' := R.EdgeKeepsCtl(g, w, s, h, l, mPause, rPause, word);
    AsmIgnoresLanes(g, w, s, h, R.DoEdge(s, l, mPause, rPause, word), h');
  }

  lemma AsmIgnoresLanes(g: Geometry, w: R.Writes, s: R.Ctl, h: R.Hist, s': R.Ctl, h': R.Hist)
    requires w.Valid(g) && R.AsmOk(g, w, s, h) && h' == h.(cuts := h'.cuts) && s'.k == s.k && s'.data == s.data
    ensures R.AsmOk(g, w, s', h')
  {
  }

  lemma ReadTaken(g: Geometry, w: R.Writes, s: R.Ctl, asked: seq<ReadCmd>, h: R.Hist, s': R.Ctl, h': R.Hist)
    requires ReadInv(g, w, s, asked, h) && R.Takes(s) && s' == R.DoCollect(g.width, s)
    requires h' == h.(cuts := Pushed(h.cuts, |Issued(h.jobs, |h.results|)| + s.k))
    ensures ReadInv(g, w, s', asked, h')
  {
    R.TakeKeepsCtl(g, w, s, h, s', h');
    R.TakeWord(g, w, s, h);
    R.TakeKeepsAsm(g, w, s, h);
    AsmIgnoresLanes(g, w, s', h, s', h');
  }

  lemma ReadCompleted(g: Geometry, w: R.Writes, s: R.Ctl, asked: seq<ReadCmd>, h: R.Hist)
    requires ReadInv(g, w, s, asked, h) && R.Completes(s)
    ensures ReadInv(g, w, R.DoCollect(g.width, s), asked, h.(results := h.results + [s.data]))
  {
    R.CompleteKeepsCtl(g, w, s, h);
    R.CompleteKeepsAsm(g, w, s, h);
  }

  lemma ReadCollected(g: Geometry, w: R.Writes, s: R.Ctl, asked: seq<ReadCmd>, h: R.Hist) returns (h': R.Hist)
    requires ReadInv(g, w, s, asked, h)
    ensures ReadInv(g, w, R.DoCollect(g.width, s), asked, h')
    ensures h'.results == if R.Completes(s) then h.results + [s.data] else h.results
  {
    h' := h;
    if R.Completes(s) {
      ReadCompleted(g, w, s, asked, h);
      h' := h.(results := h.results + [s.data]);
    } else if R.Takes(s) {
      h' := h.(cuts := Pushed(h.cuts, |Issued(h.jobs, |h.results|)| + s.k));
      ReadTaken(g, w, s, asked, h, R.DoCollect(g.width, s), h');
    }
  }

  // ---- both sides ----

  lemma WriteGrows(g: Geometry, init: R.Bytes, w: W.World, t: W.Step, cuts: seq<nat>) returns (cuts': seq<nat>)
    requires W.Inv(g, init, w, cuts) && |init| == g.Size() && Step.Write(t).Valid(g)
    ensures W.Inv(g, init, W.After(g, w, t), cuts')
    ensures Later(g, WritesOf(init, w), WritesOf(init, W.After(g, w, t)))
  {
    cuts' := W.AfterKeepsInv(g, init, w, t, cuts);
  }

  lemma MemorySeen(g: Geometry, init: R.Bytes, w: W.World, cuts: seq<nat>)
    requires W.Inv(g, init, w, cuts) && |init| == g.Size()
    ensures forall a :: 0 <= a < g.Size() ==> W.Seen(g, init, w.cmds, w.done, a, w.s.mem[a])
  {
    forall a | 0 <= a < g.Size()
      ensures W.Seen(g, init, w.cmds, w.done, a, w.s.mem[a])
    {
      W.EveryByteIsFlat(g, init, w, cuts, a);
    }
  }

  lemma StepKeepsInv(g: Geometry, init: R.Bytes, x: World, t: Step, cuts: seq<nat>, h: R.Hist)
      returns (cuts': seq<nat>, h': R.Hist)
    requires Inv(g, init, x, cuts, h) && |init| == g.Size() && t.Valid(g)
    ensures Inv(g, init, Do(g, x, t), cuts', h')
  {
    var w := WritesOf(init, x.w);
    cuts', h' := cuts, h;
    match t
    case Write(u) =>
      cuts' := WriteGrows(g, init, x.w, u, cuts);
      ReadInvGrows(g, w, WritesOf(init, W.After(g, x.w, u)), x.r, x.asked, h);
    case Read(address, len) =>
      if ReadCmd(address, len, x.w.done).Valid(g) {
        h' := ReadIssued(g, w, x.r, x.asked, h, ReadCmd(address, len, x.w.done));
      }
    case ReadEdge(l, mPause, rPause) =>
      MemorySeen(g, init, x.w, cuts);
      h' := ReadEdged(g, w, x.r, x.asked, h, l, mPause, rPause, x.w.s.mem);
    case ReadCollect => h' := ReadCollected(g, w, x.r, x.asked, h);
  }

  ghost predicate Legal(g: Geometry, steps: seq<Step>) { forall i :: 0 <= i < |steps| ==> steps[i].Valid(g) }

  // The state after the first n steps of a run.
  ghost function Run(g: Geometry, init: R.Bytes, steps: seq<Step>, n: nat): (x: World)
    requires g.Valid() && |init| == g.Size() && n <= |steps| && Legal(g, steps)
    ensures Shaped(g, x)
  {
    if n == 0 then Reset(g, init) else Do(g, Run(g, init, steps, n - 1), steps[n - 1])
  }

  lemma ResetInv(g: Geometry, init: R.Bytes) returns (cuts: seq<nat>, h: R.Hist)
    requires g.Valid() && |init| == g.Size()
    ensures Inv(g, init, Reset(g, init), cuts, h)
  {
    cuts := seq(g.segs, _ => 0);
    h := R.Hist([], [], [], cuts);
    W.ResetInv(g, init);
    R.ResetOk(g, R.Writes(init, [], 0));
  }

  lemma {:induction false} RunKeepsInv(g: Geometry, init: R.Bytes, steps: seq<Step>, n: nat) returns (cuts: seq<nat>, h: R.Hist)
    requires g.Valid() && |init| == g.Size() && n <= |steps| && Legal(g, steps)
    ensures Inv(g, init, Run(g, init, steps, n), cuts, h)
  {
    if n == 0 {
      cuts, h := ResetInv(g, init);
    } else {
      cuts, h := RunKeepsInv(g, init, steps, n - 1);
      cuts, h := StepKeepsInv(g, init, Run(g, init, steps, n - 1), steps[n - 1], cuts, h);
    }
  }

  /** Whenever all writes of a run are complete, the memory is the flat memory after them, one after the other. */
  lemma WritesAreFlat(g: Geometry, init: R.Bytes, steps: seq<Step>, n: nat, x: World)
    requires g.Valid() && |init| == g.Size() && n <= |steps| && Legal(g, steps)
    requires x == Run(g, init, steps, n) && x.w.done == |x.w.cmds|
    ensures W.AllValid(g, x.w.cmds) && x.w.s.mem == W.FlatAll(g, init, x.w.cmds, |x.w.cmds|)
  {
    var cuts, h := RunKeepsInv(g, init, steps, n);
    W.CompletedWritesAreFlat(g, init, x.w, cuts);
  }

  // The reads of a state, in the order asked: len bytes each, none of them older than the read.
  ghost predicate ReadsFlat(g: Geometry, init: R.Bytes, x: World)
  {
    && |init| == g.Size() && W.AllValid(g, x.w.cmds) && |x.results| <= |x.asked|
    && forall j :: 0 <= j < |x.results| ==> ReadFlat(g, init, x.w.cmds, x.asked[j], x.results[j])
  }

  ghost predicate ReadFlat(g: Geometry, init: R.Bytes, cmds: seq<Cmd>, c: ReadCmd, data: R.Bytes)
    requires |init| == g.Size() && W.AllValid(g, cmds)
  {
    |data| == c.len && forall i :: 0 <= i < |data| ==> W.Seen(g, init, cmds, c.since, c.address + i, data[i])
  }

  lemma InvGivesReads(g: Geometry, init: R.Bytes, x: World, cuts: seq<nat>, h: R.Hist)
    requires Inv(g, init, x, cuts, h) && |init| == g.Size()
    ensures ReadsFlat(g, init, x)
  {
    forall j | 0 <= j < |x.results|
      ensures ReadFlat(g, init, x.w.cmds, x.asked[j], x.results[j])
    {
      assert R.Fresh(g, WritesOf(init, x.w), h.plans[j].since, h.plans[j].address, x.results[j]);
    }
  }

  /** Every finished read of every run, in the order asked, has len bytes, and each is what the flat memory holds
      after some number of whole writes, none of those complete when the read was asked for missing. */
  lemma ReadsAreFlat(g: Geometry, init: R.Bytes, steps: seq<Step>, n: nat)
    requires g.Valid() && |init| == g.Size() && n <= |steps| && Legal(g, steps)
    ensures ReadsFlat(g, init, Run(g, init, steps, n))
  {
    var cuts, h := RunKeepsInv(g, init, steps, n);
    InvGivesReads(g, init, Run(g, init, steps, n), cuts, h);
  }

  lemma WholeByte(g: Geometry, init: R.Bytes, cmds: seq<Cmd>, a: nat, v: bv8)
    requires |init| == g.Size() && W.AllValid(g, cmds) && W.Seen(g, init, cmds, |cmds|, a, v)
    ensures a < g.Size() && v == W.FlatAll(g, init, cmds, |cmds|)[a]
  {
  }

  lemma SliceOf(mem: R.Bytes, address: nat, data: R.Bytes)
    requires address + |data| <= |mem| && forall i :: 0 <= i < |data| ==> data[i] == mem[address + i]
    ensures data == mem[address..address + |data|]
  {
  }

  lemma QuietRead(g: Geometry, init: R.Bytes, cmds: seq<Cmd>, c: ReadCmd, data: R.Bytes)
    requires |init| == g.Size() && W.AllValid(g, cmds) && c.Valid(g) && c.since == |cmds|
    requires ReadFlat(g, init, cmds, c, data)
    ensures data == W.FlatAll(g, init, cmds, |cmds|)[c.address..c.address + c.len]
  {
    var mem := W.FlatAll(g, init, cmds, |cmds|);
    forall i | 0 <= i < |data|
      ensures data[i] == mem[c.address + i]
    {
      WholeByte(g, init, cmds, c.address + i, data[i]);
    }
    SliceOf(mem, c.address, data);
  }

  lemma ReadOfInv(g: Geometry, init: R.Bytes, x: World, cuts: seq<nat>, h: R.Hist, j: nat)
    requires Inv(g, init, x, cuts, h) && |init| == g.Size() && j < |x.results|
    ensures W.AllValid(g, x.w.cmds) && j < |x.asked| && x.asked[j].Valid(g)
    ensures ReadFlat(g, init, x.w.cmds, x.asked[j], x.results[j])
  {
    InvGivesReads(g, init, x, cuts, h);
  }

  lemma ReadOfRun(g: Geometry, init: R.Bytes, steps: seq<Step>, n: nat, x: World, j: nat)
    requires g.Valid() && |init| == g.Size() && n <= |steps| && Legal(g, steps)
    requires x == Run(g, init, steps, n) && j < |x.results|
    ensures W.AllValid(g, x.w.cmds) && j < |x.asked| && x.asked[j].Valid(g)
    ensures ReadFlat(g, init, x.w.cmds, x.asked[j], x.results[j])
  {
    var cuts, h := RunKeepsInv(g, init, steps, n);
    ReadOfInv(g, init, x, cuts, h, j);
  }

  /** A read of any run that was asked for when every write of the run was complete returns exactly the bytes the
      flat memory holds. */
  lemma QuietReadIsFlat(g: Geometry, init: R.Bytes, steps: seq<Step>, n: nat, x: World, j: nat)
    requires g.Valid() && |init| == g.Size() && n <= |steps| && Legal(g, steps)
    requires x == Run(g, init, steps, n) && j < |x.results| <= |x.asked| && x.asked[j].since == |x.w.cmds|
    ensures W.AllValid(g, x.w.cmds) && x.asked[j].address + x.asked[j].len <= g.Size()
    ensures x.results[j]
         == W.FlatAll(g, init, x.w.cmds, |x.w.cmds|)[x.asked[j].address..x.asked[j].address + x.asked[j].len]
  {
    ReadOfRun(g, init, steps, n, x, j);
    QuietRead(g, init, x.w.cmds, x.asked[j], x.results[j]);
  }
}

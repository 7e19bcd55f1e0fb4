/**
 Every command accepted is finished: once each lane has had enough edges without a stall, and the collectors enough
 turns, all writes are complete and all reads have returned, whatever stalls lie in between.
 */
module StripedProgress {
  import opened Arith
  import opened StripedRam
  import opened StripedLanes
  import W = StripedWrite
  import R = StripedRead
  import opened StripedSystem

  // ---- runs without new commands ----

  ghost predicate Quiet(g: Geometry, t: Step) { t.Valid(g) && !t.Read? && (t.Write? ==> !t.t.Issue?) }

  // xs are the states that the steps lead through, the first included; none of them brings a command.
  ghost predicate Path(g: Geometry, xs: seq<World>, steps: seq<Step>) {
    |xs| == |steps| + 1 && Shaped(g, xs[0]) && forall k :: 0 <= k < |steps| ==> StepAt(g, xs, steps, k)
  }

  ghost predicate StepAt(g: Geometry, xs: seq<World>, steps: seq<Step>, k: nat)
    requires k < |steps| && |xs| == |steps| + 1
  {
    Quiet(g, steps[k]) && Shaped(g, xs[k]) && xs[k + 1] == Do(g, xs[k], steps[k])
  }

  lemma PathShaped(g: Geometry, xs: seq<World>, steps: seq<Step>, n: nat)
    requires Path(g, xs, steps) && n <= |steps|
    ensures Shaped(g, xs[n])
  {
    if n > 0 { assert StepAt(g, xs, steps, n - 1); }
  }

  // Step n, on the two states.
  lemma StepOf(g: Geometry, xs: seq<World>, steps: seq<Step>, n: nat) returns (x: World, t: Step, y: World)
    requires Path(g, xs, steps) && 0 < n <= |steps|
    ensures x == xs[n - 1] && t == steps[n - 1] && y == xs[n]
    ensures Quiet(g, t) && Shaped(g, x) && y == Do(g, x, t)
  {
    assert StepAt(g, xs, steps, n - 1);
    x, t, y := xs[n - 1], steps[n - 1], xs[n];
  }

  // Steps of one kind among the first n.
  function CountSteps(steps: seq<Step>, n: nat, t: Step): nat
    requires n <= |steps|
  {
    if n == 0 then 0 else CountSteps(steps, n - 1, t) + if steps[n - 1] == t then 1 else 0
  }

  // ---- the write lanes ----

  // How many moves the work in a write lane is away from its responses.
  function WriteWork(x: W.Lane): nat { 3 * |x.queue| + (if x.reg.Some? then 2 else 0) + if x.done then 1 else 0 }

  // An edge never adds work, and takes some away when neither side stalls.
  lemma WriteEdgeWorks(x: W.Lane, ready: bool, pause: bool)
    ensures WriteWork(W.LaneEdge(x, ready, pause)) <= WriteWork(x)
    ensures ready && !pause && WriteWork(x) > 0 ==> WriteWork(W.LaneEdge(x, ready, pause)) < WriteWork(x)
  {
  }

  // An edge of a write lane at which neither side stalls.
  function WriteEdge(l: nat): Step { Write(W.Edge(l, true, false)) }

  // The work of write lane l in state n.
  function WorkAt(xs: seq<World>, n: nat, l: nat): nat
    requires n < |xs| && l < |xs[n].w.s.ctl.lanes|
  {
    WriteWork(xs[n].w.s.ctl.lanes[l])
  }

  lemma WriteLaneStep(g: Geometry, xs: seq<World>, steps: seq<Step>, n: nat, l: nat)
    requires Path(g, xs, steps) && 0 < n <= |steps| && l < g.segs
    ensures Shaped(g, xs[n - 1]) && Shaped(g, xs[n]) && WorkAt(xs, n, l) <= WorkAt(xs, n - 1, l)
    ensures steps[n - 1] == WriteEdge(l) && WorkAt(xs, n - 1, l) > 0 ==> WorkAt(xs, n, l) < WorkAt(xs, n - 1, l)
  {
    var x, t, y := StepOf(g, xs, steps, n);
    if t.Write? && t.t.Edge? { WriteEdgeWorks(x.w.s.ctl.lanes[t.t.lane], t.t.ready, t.t.pause); }
  }

  lemma {:induction false} WriteLaneDrains(g: Geometry, xs: seq<World>, steps: seq<Step>, n: nat, l: nat)
    requires Path(g, xs, steps) && n <= |steps| && l < g.segs
    ensures Shaped(g, xs[n])
    ensures WorkAt(xs, n, l) == 0 || WorkAt(xs, n, l) + CountSteps(steps, n, WriteEdge(l)) <= WorkAt(xs, 0, l)
  {
    if n > 0 {
      WriteLaneDrains(g, xs, steps, n - 1, l);
      WriteLaneStep(g, xs, steps, n, l);
    }
  }

  // ---- the read lanes ----

  // How many moves the work in a read lane is away from its words.
  function ReadWork(x: R.Lane): nat {
    4 * |x.queue| + (if x.reg.Some? then 3 else 0) + (if x.pipe.Some? then 2 else 0) + if x.resp.Some? then 1 else 0
  }

  // Both ready lines are up, as far as the pipeline register allows.
  predicate Primed(x: R.Lane) { x.masterReady && (x.ramReady || (x.resp.Some? && x.pipe.Some?)) }

  // An edge never adds work; one without a stall primes the lane, and takes work away from a primed one.
  lemma ReadEdgeWorks(x: R.Lane, mPause: bool, rPause: bool, word: R.Bytes)
    requires x.Valid()
    ensures
      var y := R.LaneEdge(x, mPause, rPause, word);
      && ReadWork(y) <= ReadWork(x) && (!mPause && !rPause ==> Primed(y))
      && (!mPause && !rPause && Primed(x) && ReadWork(x) > 0 ==> ReadWork(y) < ReadWork(x))
  {
  }

  // The last edge of the lane among the first n steps, if any, was without a stall.
  predicate WasFree(steps: seq<Step>, n: nat, l: nat)
    requires n <= |steps|
  {
    n > 0 && if steps[n - 1].ReadEdge? && steps[n - 1].lane == l then steps[n - 1] == ReadEdge(l, false, false)
             else WasFree(steps, n - 1, l)
  }

  // Edges of a read lane without a stall that follow another such edge of the lane.
  function ReadTurns(steps: seq<Step>, n: nat, l: nat): nat
    requires n <= |steps|
  {
    if n == 0 then 0
    else ReadTurns(steps, n - 1, l) + if steps[n - 1] == ReadEdge(l, false, false) && WasFree(steps, n - 1, l) then 1 else 0
  }

  ghost predicate LanesValid(x: World) { forall l :: 0 <= l < |x.r.lanes| ==> x.r.lanes[l].Valid() }

  ghost predicate ReadLaneMoves(a: R.Lane, b: R.Lane, t: Step, l: nat) {
    && ReadWork(b) <= ReadWork(a)
    && (if t.ReadEdge? && t.lane == l then t == ReadEdge(l, false, false) ==> Primed(b) else Primed(b) == Primed(a))
    && (t == ReadEdge(l, false, false) && Primed(a) && ReadWork(a) > 0 ==> ReadWork(b) < ReadWork(a))
  }

  lemma ReadLaneMove(g: Geometry, x: World, t: Step, y: World, l: nat)
    requires Quiet(g, t) && Shaped(g, x) && y == Do(g, x, t) && LanesValid(x) && l < g.segs
    ensures y.r.lanes[l].Valid() && ReadLaneMoves(x.r.lanes[l], y.r.lanes[l], t, l)
  {
    if t.ReadEdge? && t.lane == l {
      ReadEdgeWorks(x.r.lanes[l], t.mPause, t.rPause, R.Fetch(g, x.w.s.mem, l, x.r.lanes[l]));
    }
  }

  lemma ReadLaneStep(g: Geometry, xs: seq<World>, steps: seq<Step>, n: nat, l: nat)
    requires Path(g, xs, steps) && 0 < n <= |steps| && LanesValid(xs[n - 1]) && l < g.segs
    ensures Shaped(g, xs[n - 1]) && Shaped(g, xs[n]) && LanesValid(xs[n])
    ensures ReadLaneMoves(xs[n - 1].r.lanes[l], xs[n].r.lanes[l], steps[n - 1], l)
  {
    var x, t, y := StepOf(g, xs, steps, n);
    forall i | 0 <= i < g.segs
      ensures y.r.lanes[i].Valid() && (i == l ==> ReadLaneMoves(x.r.lanes[l], y.r.lanes[l], t, l))
    {
      ReadLaneMove(g, x, t, y, i);
    }
  }

  lemma {:induction false} ReadLaneDrains(g: Geometry, xs: seq<World>, steps: seq<Step>, n: nat, l: nat)
    requires Path(g, xs, steps) && LanesValid(xs[0]) && n <= |steps| && l < g.segs
    ensures Shaped(g, xs[n]) && LanesValid(xs[n]) && (WasFree(steps, n, l) ==> Primed(xs[n].r.lanes[l]))
    ensures
      var a, b := ReadWork(xs[0].r.lanes[l]), ReadWork(xs[n].r.lanes[l]);
      b == 0 || b + ReadTurns(steps, n, l) <= a
  {
    if n > 0 {
      ReadLaneDrains(g, xs, steps, n - 1, l);
      ReadLaneStep(g, xs, steps, n, l);
    }
  }

  // ---- the collectors ----

  // How many turns of a collector finish the commands pend.
  function TurnsFor(pend: seq<Resp>): nat { if pend == [] then 0 else pend[0].segments + 1 + TurnsFor(pend[1..]) }

  function WriteOwed(x: World): int { TurnsFor(x.w.s.ctl.pend) - x.w.s.ctl.k }

  function ReadOwed(x: World): int { TurnsFor(x.r.pend) - x.r.k }

  // No lane holds work, so what the collectors wait for is there.
  ghost predicate Drained(x: World) {
    && (forall l :: 0 <= l < |x.w.s.ctl.lanes| ==> WriteWork(x.w.s.ctl.lanes[l]) == 0)
    && (forall l :: 0 <= l < |x.r.lanes| ==> ReadWork(x.r.lanes[l]) == 0)
  }

  lemma DrainedStays(g: Geometry, xs: seq<World>, steps: seq<Step>, n: nat)
    requires Path(g, xs, steps) && 0 < n <= |steps| && LanesValid(xs[n - 1]) && Drained(xs[n - 1])
    ensures Drained(xs[n]) && LanesValid(xs[n])
  {
    PathShaped(g, xs, steps, n - 1);
    PathShaped(g, xs, steps, n);
    var y := xs[n];
    forall l | 0 <= l < g.segs
      ensures WriteWork(y.w.s.ctl.lanes[l]) == 0 && ReadWork(y.r.lanes[l]) == 0 && y.r.lanes[l].Valid()
    {
      WriteLaneStep(g, xs, steps, n, l);
      ReadLaneStep(g, xs, steps, n, l);
    }
  }

  // A step without a command: fewer turns are owed, surely after a turn when no lane holds work.
  ghost predicate Falls(x: World, y: World, t: Step) {
    && WriteOwed(y) <= WriteOwed(x) && ReadOwed(y) <= ReadOwed(x)
    && (Drained(x) && t == Write(W.Collect) && WriteOwed(x) > 0 ==> WriteOwed(y) < WriteOwed(x))
    && (Drained(x) && t == ReadCollect && ReadOwed(x) > 0 ==> ReadOwed(y) < ReadOwed(x))
  }

  // The first command of each side is finished or waits for a lane, which holds work unless its response is there.
  ghost predicate GoesOn(x: World) {
    var s, r := x.w.s.ctl, x.r;
    && (s.pend != [] ==> s.k <= s.pend[0].segments)
    && (s.pend != [] && !W.Completes(s) ==>
          Awaited(s.pend, s.k, s.seg) < |s.lanes| &&
          var l := s.lanes[Awaited(s.pend, s.k, s.seg)]; l.avail > 0 || WriteWork(l) > 0)
    && (r.pend != [] ==> r.k <= r.pend[0].segments)
    && (r.pend != [] && !R.Completes(r) ==>
          Awaited(r.pend, r.k, r.seg) < |r.lanes| &&
          var l := r.lanes[Awaited(r.pend, r.k, r.seg)]; l.words != [] || ReadWork(l) > 0)
  }

  lemma InvGoesOn(g: Geometry, init: R.Bytes, x: World, cuts: seq<nat>, h: R.Hist)
    requires Inv(g, init, x, cuts, h)
    ensures GoesOn(x)
  {
    if x.w.s.ctl.pend != [] { W.WritesNeverStick(g.segs, x.w.s.ctl, x.w.jobs, x.w.done, cuts); }
    if x.r.pend != [] { R.ReadsNeverStick(g, WritesOf(init, x.w), x.r, h); }
  }

  lemma OwedFalls(g: Geometry, x: World, t: Step, y: World)
    requires Quiet(g, t) && Shaped(g, x) && y == Do(g, x, t) && GoesOn(x)
    ensures Falls(x, y, t)
  {
  }

  // What the two sides keep besides the state, for each state of a path.
  ghost predicate Kept(g: Geometry, init: R.Bytes, xs: seq<World>, cs: seq<seq<nat>>, hs: seq<R.Hist>) {
    |cs| == |hs| <= |xs| && forall k :: 0 <= k < |cs| ==> KeptAt(g, init, xs, cs, hs, k)
  }

  ghost predicate KeptAt(g: Geometry, init: R.Bytes, xs: seq<World>, cs: seq<seq<nat>>, hs: seq<R.Hist>, k: nat)
    requires k < |cs| == |hs| <= |xs|
  {
    Inv(g, init, xs[k], cs[k], hs[k])
  }

  lemma KeptMore(g: Geometry, init: R.Bytes, xs: seq<World>, cs: seq<seq<nat>>, hs: seq<R.Hist>, c: seq<nat>, h: R.Hist)
    requires Kept(g, init, xs, cs, hs) && |cs| < |xs| && Inv(g, init, xs[|cs|], c, h)
    ensures Kept(g, init, xs, cs + [c], hs + [h])
  {
    forall k | 0 <= k < |cs + [c]|
      ensures KeptAt(g, init, xs, cs + [c], hs + [h], k)
    {
      if k < |cs| { assert KeptAt(g, init, xs, cs, hs, k); }
    }
  }

  lemma KeptNext(g: Geometry, init: R.Bytes, xs: seq<World>, steps: seq<Step>, n: nat, cs: seq<seq<nat>>, hs: seq<R.Hist>)
      returns (c: seq<nat>, h: R.Hist)
    requires Path(g, xs, steps) && |init| == g.Size() && 0 < n <= |steps| && Kept(g, init, xs, cs, hs) && |cs| == n
    ensures Inv(g, init, xs[n], c, h)
  {
    assert KeptAt(g, init, xs, cs, hs, n - 1);
    var x, t, y := StepOf(g, xs, steps, n);
    c, h := StepKeepsInv(g, init, x, t, cs[n - 1], hs[n - 1]);
  }

  lemma {:induction false} PathKeeps(g: Geometry, init: R.Bytes, xs: seq<World>, steps: seq<Step>, n: nat, cuts: seq<nat>, h: R.Hist)
      returns (cs: seq<seq<nat>>, hs: seq<R.Hist>)
    requires Path(g, xs, steps) && n <= |steps| && Inv(g, init, xs[0], cuts, h) && |init| == g.Size()
    ensures Kept(g, init, xs, cs, hs) && |cs| == n + 1
    decreases n, 0
  {
    if n == 0 {
      assert Kept(g, init, xs, [], []);
      KeptMore(g, init, xs, [], [], cuts, h);
      cs, hs := [] + [cuts], [] + [h];
    } else {
      cs, hs := PathKeeps(g, init, xs, steps, n - 1, cuts, h);
      var c, k := KeptNext(g, init, xs, steps, n, cs, hs);
      KeptMore(g, init, xs, cs, hs, c, k);
      cs, hs := cs + [c], hs + [k];
    }
  }

  lemma KeptLast(g: Geometry, init: R.Bytes, xs: seq<World>, n: nat, cs: seq<seq<nat>>, hs: seq<R.Hist>)
    requires Kept(g, init, xs, cs, hs) && n < |cs|
    ensures Inv(g, init, xs[n], cs[n], hs[n])
  {
    assert KeptAt(g, init, xs, cs, hs, n);
  }

  ghost predicate GoOn(xs: seq<World>) { forall k :: 0 <= k < |xs| ==> GoesOn(xs[k]) }

  lemma PathGoesOn(g: Geometry, init: R.Bytes, xs: seq<World>, cs: seq<seq<nat>>, hs: seq<R.Hist>)
    requires Kept(g, init, xs, cs, hs) && |cs| == |xs|
    ensures GoOn(xs)
  {
    forall k | 0 <= k < |xs|
      ensures GoesOn(xs[k])
    {
      assert KeptAt(g, init, xs, cs, hs, k);
      InvGoesOn(g, init, xs[k], cs[k], hs[k]);
    }
  }

  lemma FallsAt(g: Geometry, xs: seq<World>, steps: seq<Step>, n: nat)
    requires Path(g, xs, steps) && 0 < n <= |steps| && GoOn(xs)
    ensures Falls(xs[n - 1], xs[n], steps[n - 1])
  {
    var x, t, y := StepOf(g, xs, steps, n);
    OwedFalls(g, x, t, y);
  }

  lemma {:induction false} OwedNeverGrows(g: Geometry, xs: seq<World>, steps: seq<Step>, n: nat)
    requires Path(g, xs, steps) && n <= |steps| && GoOn(xs)
    ensures WriteOwed(xs[n]) <= WriteOwed(xs[0]) && ReadOwed(xs[n]) <= ReadOwed(xs[0])
    decreases n, 0
  {
    if n > 0 {
      OwedNeverGrows(g, xs, steps, n - 1);
      FallsAt(g, xs, steps, n);
    }
  }

  lemma {:induction false} Collected(g: Geometry, xs: seq<World>, steps: seq<Step>, n: nat)
    requires Path(g, xs, steps) && n <= |steps| && GoOn(xs) && LanesValid(xs[0]) && Drained(xs[0])
    ensures Drained(xs[n]) && LanesValid(xs[n])
    ensures WriteOwed(xs[n]) <= 0 || WriteOwed(xs[n]) + CountSteps(steps, n, Write(W.Collect)) <= WriteOwed(xs[0])
    ensures ReadOwed(xs[n]) <= 0 || ReadOwed(xs[n]) + CountSteps(steps, n, ReadCollect) <= ReadOwed(xs[0])
    decreases n, 0
  {
    if n > 0 {
      Collected(g, xs, steps, n - 1);
      DrainedStays(g, xs, steps, n);
      FallsAt(g, xs, steps, n);
    }
  }

  // With no turn owed, every command is finished.
  lemma NothingOwed(g: Geometry, init: R.Bytes, x: World, cuts: seq<nat>, h: R.Hist)
    requires Inv(g, init, x, cuts, h) && |init| == g.Size() && WriteOwed(x) <= 0 && ReadOwed(x) <= 0
    ensures x.w.done == |x.w.cmds| && |x.results| == |x.asked|
  {
  }

  lemma InvLanes(g: Geometry, init: R.Bytes, x: World, cuts: seq<nat>, h: R.Hist)
    requires Inv(g, init, x, cuts, h) && |init| == g.Size()
    ensures LanesValid(x)
  {
    forall l | 0 <= l < |x.r.lanes|
      ensures x.r.lanes[l].Valid()
    {
      assert R.LaneAt(g, WritesOf(init, x.w), Issued(h.jobs, |h.jobs|), |Issued(h.jobs, |h.results|)| + x.r.k, h.cuts, x.r.lanes, l);
    }
  }

  // Enough edges without a stall for the work of every lane.
  ghost predicate EnoughEdges(g: Geometry, x: World, steps: seq<Step>)
    requires Shaped(g, x)
  {
    forall l :: 0 <= l < g.segs ==>
      && CountSteps(steps, |steps|, WriteEdge(l)) >= WriteWork(x.w.s.ctl.lanes[l])
      && ReadTurns(steps, |steps|, l) >= ReadWork(x.r.lanes[l])
  }

  // Enough turns of both collectors for the commands that are not finished.
  ghost predicate EnoughTurns(x: World, steps: seq<Step>) {
    && CountSteps(steps, |steps|, Write(W.Collect)) >= WriteOwed(x)
    && CountSteps(steps, |steps|, ReadCollect) >= ReadOwed(x)
  }

  lemma EdgesDrain(g: Geometry, xs: seq<World>, steps: seq<Step>)
    requires Path(g, xs, steps) && LanesValid(xs[0]) && EnoughEdges(g, xs[0], steps)
    ensures Drained(xs[|steps|]) && LanesValid(xs[|steps|])
  {
    var y := xs[|steps|];
    PathShaped(g, xs, steps, |steps|);
    forall l | 0 <= l < g.segs
      ensures WriteWork(y.w.s.ctl.lanes[l]) == 0 && ReadWork(y.r.lanes[l]) == 0 && y.r.lanes[l].Valid()
    {
      WriteLaneDrains(g, xs, steps, |steps|, l);
      ReadLaneDrains(g, xs, steps, |steps|, l);
    }
  }

  lemma {:induction false} SameCommands(g: Geometry, xs: seq<World>, steps: seq<Step>, n: nat)
    requires Path(g, xs, steps) && n <= |steps|
    ensures xs[n].w.cmds == xs[0].w.cmds && xs[n].asked == xs[0].asked
  {
    if n > 0 {
      assert StepAt(g, xs, steps, n - 1);
      SameCommands(g, xs, steps, n - 1);
    }
  }

  // The last state of a path after another has finished every command of the first state.
  ghost predicate Finished(x: World, y: World) {
    y.w.done == |y.w.cmds| == |x.w.cmds| && |y.results| == |y.asked| == |x.asked|
  }

  lemma AllFinished(g: Geometry, init: R.Bytes, xs: seq<World>, edges: seq<Step>, ys: seq<World>, turns: seq<Step>,
                    cuts: seq<nat>, h: R.Hist)
    requires Path(g, xs, edges) && Path(g, ys, turns) && ys[0] == xs[|edges|]
    requires Inv(g, init, xs[0], cuts, h) && |init| == g.Size()
    requires EnoughEdges(g, xs[0], edges) && EnoughTurns(xs[0], turns)
    ensures Finished(xs[0], ys[|turns|])
  {
    InvLanes(g, init, xs[0], cuts, h);
    EdgesDrain(g, xs, edges);
    var cs, hs := PathKeeps(g, init, xs, edges, |edges|, cuts, h);
    PathGoesOn(g, init, xs, cs, hs);
    OwedNeverGrows(g, xs, edges, |edges|);
    KeptLast(g, init, xs, |edges|, cs, hs);
    cs, hs := PathKeeps(g, init, ys, turns, |turns|, cs[|edges|], hs[|edges|]);
    PathGoesOn(g, init, ys, cs, hs);
    Collected(g, ys, turns, |turns|);
    KeptLast(g, init, ys, |turns|, cs, hs);
    NothingOwed(g, init, ys[|turns|], cs[|turns|], hs[|turns|]);
    SameCommands(g, xs, edges, |edges|);
    SameCommands(g, ys, turns, |turns|);
  }

  lemma ReachedInv(g: Geometry, init: R.Bytes, steps: seq<Step>, x: World) returns (cuts: seq<nat>, h: R.Hist)
    requires g.Valid() && |init| == g.Size() && Legal(g, steps) && x == StripedSystem.Run(g, init, steps, |steps|)
    ensures Inv(g, init, x, cuts, h)
  {
    cuts, h := RunKeepsInv(g, init, steps, |steps|);
  }

  /** Every command gets done: from every reachable state, after enough edges without a stall on every lane for the work
      it holds and then enough turns of the collectors, with any stalls and any other edges in between, all writes are
      complete and all reads have returned. */
  lemma EveryCommandFinishes(g: Geometry, init: R.Bytes, steps: seq<Step>, xs: seq<World>, edges: seq<Step>, ys: seq<World>,
                             turns: seq<Step>)
    requires g.Valid() && |init| == g.Size() && Legal(g, steps)
    requires Path(g, xs, edges) && xs[0] == StripedSystem.Run(g, init, steps, |steps|)
    requires Path(g, ys, turns) && ys[0] == xs[|edges|]
    requires EnoughEdges(g, xs[0], edges) && EnoughTurns(xs[0], turns)
    ensures Finished(xs[0], ys[|turns|])
  {
    var cuts, h := ReachedInv(g, init, steps, xs[0]);
    AllFinished(g, init, xs, edges, ys, turns, cuts, h);
  }
}

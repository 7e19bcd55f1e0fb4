/**
 Operations issued in one order, served lane by lane at any relative speed, and collected in issue order: what
 lies between the collector and a lane is that lane's share of the operations, in order.
 */
module StripedLanes {
  import opened StripedRam

  lemma {:induction false} ShareSplit<T>(s: seq<Routed<T>>, p: nat, q: nat, r: nat, l: nat)
    requires p <= q <= r <= |s|
    ensures Share(s, p, r, l) == Share(s, p, q, l) + Share(s, q, r, l)
  {
    if q < r { ShareSplit(s, p, q, r - 1, l); }
  }

  lemma {:induction false} ShareOfPrefix<T>(s: seq<Routed<T>>, x: seq<Routed<T>>, p: nat, q: nat, l: nat)
    requires p <= q <= |s|
    ensures Share(s + x, p, q, l) == Share(s, p, q, l)
  {
    if p < q { ShareOfPrefix(s, x, p, q - 1, l); }
  }

  lemma {:induction false} ShareOfRest<T>(s: seq<Routed<T>>, x: seq<Routed<T>>, p: nat, n: nat, l: nat)
    requires p <= |s| && n <= |x|
    ensures Share(s + x, p, |s| + n, l) == Share(s, p, |s|, l) + Share(x, 0, n, l)
  {
    if n > 0 { ShareOfRest(s, x, p, n - 1, l); } else { ShareOfPrefix(s, x, p, |s|, l); }
  }

  // Lane l has served what lies before cut, n of it not yet collected by the collector at pc; todo is still queued.
  ghost predicate LaneOk<T>(s: seq<Routed<T>>, pc: nat, cut: nat, l: nat, n: nat, todo: seq<T>)
  {
    pc <= cut <= |s| && |Share(s, pc, cut, l)| == n && Share(s, cut, |s|, l) == todo
  }

  lemma LaneIssue<T>(s: seq<Routed<T>>, x: seq<Routed<T>>, pc: nat, cut: nat, l: nat, n: nat, todo: seq<T>)
    requires LaneOk(s, pc, cut, l, n, todo)
    ensures LaneOk(s + x, pc, cut, l, n, todo + Share(x, 0, |x|, l))
    ensures Share(s + x, pc, cut, l) == Share(s, pc, cut, l)
  {
    ShareOfPrefix(s, x, pc, cut, l);
    ShareOfRest(s, x, cut, |x|, l);
  }

  // Operations of other lanes are no part of the share.
  lemma {:induction false} ShareSkips<T>(s: seq<Routed<T>>, p: nat, r: nat, l: nat)
    requires p < r <= |s| && s[p].lane != l
    ensures Share(s, p, r, l) == Share(s, p + 1, r, l)
  {
    if p + 1 < r { ShareSkips(s, p, r - 1, l); }
  }

  // The place of the next operation of a lane.
  lemma {:induction false} NextOf<T>(s: seq<Routed<T>>, cut: nat, l: nat) returns (next: nat)
    requires cut <= |s| && Share(s, cut, |s|, l) != []
    ensures cut <= next < |s| && s[next].lane == l && Share(s, cut, next, l) == []
    ensures forall i :: cut <= i < next ==> s[i].lane != l
    decreases |s| - cut
  {
    assert cut < |s|;
    if s[cut].lane == l {
      next := cut;
    } else {
      ShareSkips(s, cut, |s|, l);
      next := NextOf(s, cut + 1, l);
      ShareSkips(s, cut, next, l);
    }
  }

  lemma LaneServe<T>(s: seq<Routed<T>>, pc: nat, cut: nat, l: nat, n: nat, todo: seq<T>) returns (next: nat)
    requires LaneOk(s, pc, cut, l, n, todo) && todo != []
    ensures cut <= next < |s| && s[next] == Routed(l, todo[0]) && forall i :: cut <= i < next ==> s[i].lane != l
    ensures LaneOk(s, pc, next + 1, l, n + 1, todo[1..])
    ensures Share(s, pc, next + 1, l) == Share(s, pc, cut, l) + [todo[0]]
  {
    next := NextOf(s, cut, l);
    ShareSplit(s, cut, next + 1, |s|, l);
    assert Share(s, cut, next + 1, l) == [s[next].op];
    ShareSplit(s, pc, cut, next + 1, l);
  }

  // The collector moves over one operation, which its lane must have served; a mark at the collector moves along.
  lemma LaneCollect<T>(s: seq<Routed<T>>, pc: nat, cut: nat, l: nat, n: nat, todo: seq<T>) returns (cut': nat)
    requires LaneOk(s, pc, cut, l, n, todo) && pc < |s|
    requires s[pc].lane == l ==> n > 0
    ensures cut' == if cut == pc then pc + 1 else cut
    ensures cut' != cut ==> s[cut].lane != l
    ensures LaneOk(s, pc + 1, cut', l, if s[pc].lane == l then n - 1 else n, todo)
    ensures Share(s, pc, cut, l) == (if s[pc].lane == l then [s[pc].op] else []) + Share(s, pc + 1, cut', l)
  {
    assert Share(s, pc, pc + 1, l) == if s[pc].lane == l then [s[pc].op] else [] by {
      assert Share(s, pc, pc, l) == [];
    }
    if cut == pc {
      cut' := pc + 1;
      assert Share(s, pc, cut, l) == [] && Share(s, pc + 1, cut', l) == [];
      ShareSplit(s, pc, pc + 1, |s|, l);
    } else {
      cut' := cut;
      ShareSplit(s, pc, pc + 1, cut, l);
    }
  }

  // What a lane owes the collector has been served or is still queued: the collector never waits in vain.
  lemma LaneOwes<T>(s: seq<Routed<T>>, pc: nat, cut: nat, n: nat, todo: seq<T>)
    requires pc < |s| && LaneOk(s, pc, cut, s[pc].lane, n, todo)
    ensures n > 0 || todo != []
  {
    var l := s[pc].lane;
    ShareSplit(s, pc, cut, |s|, l);
    ShareSplit(s, pc, pc + 1, |s|, l);
    assert Share(s, pc, pc + 1, l) != [];
  }

  // Marks that stand at the collector move on with it.
  function Pushed(cuts: seq<nat>, pc: nat): (r: seq<nat>)
    ensures |r| == |cuts|
  {
    seq(|cuts|, l requires 0 <= l < |cuts| => if cuts[l] == pc then pc + 1 else cuts[l])
  }

  // ---- commands one after the other ----

  // What the response side knows of a command; the offsets cut the first and the last word of a read.
  datatype Resp = Resp(segments: nat, firstSeg: nat, startOffset: nat, endOffset: nat)

  // A command: its operations and its entry in the response queue.
  datatype Job<T> = Job(ops: seq<Routed<T>>, resp: Resp)

  // (seg + 1) % seg_count
  function NextLane(segs: nat, seg: nat): nat { if seg + 1 == segs then 0 else seg + 1 }

  // The operations of a command go round the lanes, from the first segment on.
  ghost predicate JobOk<T>(segs: nat, j: Job<T>)
  {
    && |j.ops| == j.resp.segments && (j.ops != [] ==> j.ops[0].lane == j.resp.firstSeg)
    && (forall i :: 0 <= i < |j.ops| ==> j.ops[i].lane < segs)
    && (forall i :: 0 <= i < |j.ops| ==> GoesOn(segs, j.ops, i))
  }

  ghost predicate GoesOn<T>(segs: nat, ops: seq<Routed<T>>, i: nat) {
    i + 1 < |ops| ==> ops[i + 1].lane == NextLane(segs, ops[i].lane)
  }

  // All operations of the first d commands, in issue order.
  function Issued<T>(jobs: seq<Job<T>>, d: nat): seq<Routed<T>>
    requires d <= |jobs|
  {
    if d == 0 then [] else Issued(jobs, d - 1) + jobs[d - 1].ops
  }

  lemma {:induction false} IssuedOfPrefix<T>(jobs: seq<Job<T>>, j: Job<T>, d: nat)
    requires d <= |jobs|
    ensures Issued(jobs + [j], d) == Issued(jobs, d)
  {
    if d > 0 { IssuedOfPrefix(jobs, j, d - 1); }
  }

  lemma IssuedOneMore<T>(jobs: seq<Job<T>>, j: Job<T>)
    ensures Issued(jobs + [j], |jobs + [j]|) == Issued(jobs, |jobs|) + j.ops
  {
    IssuedOfPrefix(jobs, j, |jobs|);
  }

  // The k-th operation of command d, and where it stands in the issue order.
  lemma {:induction false} Locate<T>(jobs: seq<Job<T>>, d: nat, e: nat)
    requires d < e <= |jobs|
    ensures |Issued(jobs, d)| + |jobs[d].ops| <= |Issued(jobs, e)|
    ensures forall k :: 0 <= k < |jobs[d].ops| ==> Issued(jobs, e)[|Issued(jobs, d)| + k] == jobs[d].ops[k]
  {
    if d + 1 < e { Locate(jobs, d, e - 1); }
  }

  lemma {:induction false} IssuedLanes<T>(segs: nat, jobs: seq<Job<T>>, d: nat)
    requires d <= |jobs| && forall i :: 0 <= i < |jobs| ==> JobOk(segs, jobs[i])
    ensures forall i :: 0 <= i < |Issued(jobs, d)| ==> Issued(jobs, d)[i].lane < segs
  {
    if d > 0 { IssuedLanes(segs, jobs, d - 1); }
  }

  // The response side has finished done commands and taken k responses of the next; seg is the lane it is at.
  ghost predicate PendOk<T>(segs: nat, jobs: seq<Job<T>>, done: nat, pend: seq<Resp>, k: nat, seg: nat)
  {
    && done + |pend| == |jobs| && (forall i :: 0 <= i < |jobs| ==> JobOk(segs, jobs[i]))
    && (forall i :: 0 <= i < |pend| ==> RespOk(jobs, done, pend, i))
    && k <= (if pend == [] then 0 else pend[0].segments)
    && (0 < k < |jobs[done].ops| ==> jobs[done].ops[k].lane == seg)
  }

  ghost predicate RespOk<T>(jobs: seq<Job<T>>, done: nat, pend: seq<Resp>, i: nat)
    requires i < |pend|
  {
    done + i < |jobs| && pend[i] == jobs[done + i].resp
  }

  // The lane whose response the collector waits for.
  function Awaited(pend: seq<Resp>, k: nat, seg: nat): nat
    requires pend != []
  {
    if k == 0 then pend[0].firstSeg else seg
  }

  lemma PendIssue<T>(segs: nat, jobs: seq<Job<T>>, done: nat, pend: seq<Resp>, k: nat, seg: nat, j: Job<T>)
    requires PendOk(segs, jobs, done, pend, k, seg) && JobOk(segs, j)
    ensures PendOk(segs, jobs + [j], done, pend + [j.resp], k, seg)
  {
    var jobs', pend' := jobs + [j], pend + [j.resp];
    forall i | 0 <= i < |pend'| ensures RespOk(jobs', done, pend', i) {
      if i < |pend| { assert RespOk(jobs, done, pend, i); }
    }
  }

  // The operation the collector has reached.
  lemma PendAwaits<T>(segs: nat, jobs: seq<Job<T>>, done: nat, pend: seq<Resp>, k: nat, seg: nat)
    requires PendOk(segs, jobs, done, pend, k, seg) && pend != [] && k < pend[0].segments
    ensures done < |jobs| && pend[0] == jobs[done].resp && k < |jobs[done].ops|
    ensures |Issued(jobs, done)| + k < |Issued(jobs, |jobs|)|
    ensures Issued(jobs, |jobs|)[|Issued(jobs, done)| + k] == jobs[done].ops[k]
    ensures jobs[done].ops[k].lane == Awaited(pend, k, seg) < segs
  {
    assert RespOk(jobs, done, pend, 0) && JobOk(segs, jobs[done]);
    Locate(jobs, done, |jobs|);
  }

  lemma PendTake<T>(segs: nat, jobs: seq<Job<T>>, done: nat, pend: seq<Resp>, k: nat, seg: nat)
    requires PendOk(segs, jobs, done, pend, k, seg) && pend != [] && k < pend[0].segments
    ensures PendOk(segs, jobs, done, pend, k + 1, NextLane(segs, Awaited(pend, k, seg)))
  {
    PendAwaits(segs, jobs, done, pend, k, seg);
    assert JobOk(segs, jobs[done]) && GoesOn(segs, jobs[done].ops, k);
  }

  lemma PendComplete<T>(segs: nat, jobs: seq<Job<T>>, done: nat, pend: seq<Resp>, k: nat, seg: nat)
    requires PendOk(segs, jobs, done, pend, k, seg) && pend != [] && k == pend[0].segments
    ensures done < |jobs| && PendOk(segs, jobs, done + 1, pend[1..], 0, seg)
    ensures |Issued(jobs, done + 1)| == |Issued(jobs, done)| + k
  {
    assert RespOk(jobs, done, pend, 0) && JobOk(segs, jobs[done]);
    var rest, next := pend[1..], done + 1;
    forall i | 0 <= i < |rest| ensures RespOk(jobs, next, rest, i) {
      assert RespOk(jobs, done, pend, i + 1);
    }
  }
}

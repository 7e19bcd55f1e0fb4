/**
 The polling loops of the driver as methods over the shared ring memory, which the device goes on writing, and what
 they take in a run of the protocol.
 */
module CplDriver {
  import opened Arith
  import P = CplProtocol
  import T = CplTheorems
  import opened CplQueueManager

  function Advance(cons32: nat, n: nat): nat { (cons32 + n) % U32 }

  // What the ring memory holds at each phase test; it stays as it is after the last.
  ghost predicate Memories(views: seq<seq<P.Record>>, size: nat) {
    views != [] && size > 0 && |views[0]| == size && (|views| > 1 ==> Memories(views[1..], size))
  }

  lemma {:induction false} MemoryAt(views: seq<seq<P.Record>>, size: nat, k: nat)
    requires Memories(views, size) && k < |views|
    ensures |views[k]| == size > 0
  {
    if k > 0 { MemoryAt(views[1..], size, k - 1); }
  }

  function Rest(views: seq<seq<P.Record>>): (r: seq<seq<P.Record>>)
    requires views != []
    ensures r != []
  {
    if |views| > 1 then views[1..] else views
  }

  // What a loop with this budget takes.
  function Drained(views: seq<seq<P.Record>>, size: nat, cons32: nat, budget: nat): seq<nat>
    requires Memories(views, size)
    decreases |views|, budget
  {
    if budget == 0 || !P.Ready(views[0], cons32) then []
    else [views[0][P.IndexOf(cons32, size)].payload] + Drained(Rest(views), size, Advance(cons32, 1), budget - 1)
  }

  // The loop invariant: what has been taken, and what a loop from here with the rest of the budget would take.
  ghost predicate Taking(all: seq<nat>, size: nat, start: nat, taken: seq<nat>, rest: seq<seq<P.Record>>, cons: nat, left: nat) {
    && Memories(rest, size) && cons == Advance(start, |taken|)
    && all == taken + Drained(rest, size, cons, left)
  }

  lemma TakingStarts(views: seq<seq<P.Record>>, size: nat, start: nat, left: nat)
    requires Memories(views, size) && start < U32
    ensures Taking(Drained(views, size, start, left), size, start, [], views, start, left)
  {
    DivModUnique(start, U32, 0, start);
    assert [] + Drained(views, size, start, left) == Drained(views, size, start, left);
  }

  lemma TakingOne(all: seq<nat>, size: nat, start: nat, taken: seq<nat>, rest: seq<seq<P.Record>>, cons: nat, left: nat)
    requires Taking(all, size, start, taken, rest, cons, left) && left > 0 && P.Ready(rest[0], cons)
    ensures Taking(all, size, start, taken + [rest[0][P.IndexOf(cons, size)].payload], Rest(rest), Advance(cons, 1), left - 1)
    ensures |Rest(rest)[0]| == size
  {
    AdvanceTwice(start, |taken|, 1);
    var x, more := rest[0][P.IndexOf(cons, size)].payload, Drained(Rest(rest), size, Advance(cons, 1), left - 1);
    assert Drained(rest, size, cons, left) == [x] + more;
    assert taken + ([x] + more) == taken + [x] + more;
  }

  lemma TakingEnds(all: seq<nat>, size: nat, start: nat, taken: seq<nat>, rest: seq<seq<P.Record>>, cons: nat, left: nat)
    requires Taking(all, size, start, taken, rest, cons, left) && (left == 0 || !P.Ready(rest[0], cons))
    ensures taken == all
  {
    assert Drained(rest, size, cons, left) == [];
  }

  lemma AdvanceTwice(cons32: nat, m: nat, n: nat)
    ensures Advance(Advance(cons32, m), n) == Advance(cons32, m + n)
  {
    ModAdd(cons32 + m, n, U32);
  }

  // One lap later the same slot fails the test it passed before.
  lemma LapEnds(buf: seq<P.Record>, cons32: nat, logSize: nat)
    requires logSize < 16 && |buf| == Pow2(logSize) && cons32 < U32
    ensures P.Ready(buf, cons32) ==> !P.Ready(buf, Advance(cons32, |buf|))
  {
    P.DriverSeesLap(cons32, logSize);
    P.DriverSeesLap(cons32 + |buf|, logSize);
    P.NextLap(cons32, |buf|);
    DivModUnique(cons32, U32, 0, cons32);
  }

  // A completion or event queue of the driver: cons_ptr, the ring buffer, and the value last written to the device.
  class RingConsumer {
    const logSize: nat
    const buf: array<P.Record>
    var consPtr: nat
    var written: nat

    ghost predicate Valid()
      reads this
    {
      consPtr < U32 && logSize < 16 && buf.Length == Pow2(logSize)
    }

    constructor (logSize: nat)
      requires logSize < 16
      ensures Valid() && fresh(buf) && this.logSize == logSize && consPtr == 0
      ensures forall k :: 0 <= k < buf.Length ==> !buf[k].phase
    {
      this.logSize := logSize;
      buf := new P.Record[Pow2(logSize)](_ => P.Record(false, 0x01));
      consPtr, written := 0, 0;
    }

    // The device writes records until the memory is this.
    method Arrive(mem: seq<P.Record>)
      requires |mem| == buf.Length
      modifies buf
      ensures buf[..] == mem
    {
      var k := 0;
      while k < buf.Length
        invariant k <= buf.Length && buf[..k] == mem[..k]
      {
        buf[k] := mem[k];
        k := k + 1;
      }
    }

    // The phase test on the memory as it then is, and the record at the consumer position.
    method Test(mem: seq<P.Record>, cons: nat) returns (ready: bool, payload: nat)
      requires |mem| == buf.Length > 0
      modifies buf
      ensures buf[..] == mem && ready == P.Ready(mem, cons) && payload == mem[P.IndexOf(cons, |mem|)].payload
    {
      Arrive(mem);
      var index := P.IndexOf(cons, buf.Length);
      ready, payload := buf[index].phase != ((cons / buf.Length) % 2 == 1), buf[index].payload;
      assert buf[index] == buf[..][index];
    }

    // mqnic_process_tx_cq and mqnic_process_rx_cq: consume until the phase test fails or the budget is spent.
    method Process(views: seq<seq<P.Record>>, budget: nat) returns (taken: seq<nat>)
      requires Valid() && Memories(views, buf.Length)
      modifies this, buf
      ensures Valid() && taken == Drained(views, buf.Length, old(consPtr), budget)
      ensures consPtr == Advance(old(consPtr), |taken|) && written == consPtr % PTR
    {
      ghost var start, all := consPtr, Drained(views, buf.Length, consPtr, budget);
      taken := [];
      var cons, rest := consPtr, views;
      TakingStarts(views, buf.Length, start, budget);
      var ready, payload := Test(rest[0], cons);
      while |taken| < budget && ready
        invariant |taken| <= budget && Tested(rest, cons, ready, payload)
        invariant Taking(all, buf.Length, start, taken, rest, cons, budget - |taken|)
      {
        TakingOne(all, buf.Length, start, taken, rest, cons, budget - |taken|);
        taken := taken + [payload];
        cons, rest := Advance(cons, 1), Rest(rest);
        ready, payload := Test(rest[0], cons);
      }
      TakingEnds(all, buf.Length, start, taken, rest, cons, budget - |taken|);
      consPtr := cons;
      written := consPtr % PTR;
    }

    // mqnic_process_eq: no budget; the loop ends at most one lap after the last change of the memory.
    method ProcessAll(views: seq<seq<P.Record>>) returns (taken: seq<nat>)
      requires Valid() && Memories(views, buf.Length)
      modifies this, buf
      ensures Valid() && |taken| < |views| + buf.Length
      ensures taken == Drained(views, buf.Length, old(consPtr), |views| + buf.Length)
      ensures consPtr == Advance(old(consPtr), |taken|) && written == consPtr % PTR
      ensures !P.Ready(buf[..], consPtr)
    {
      ghost var start, bound := consPtr, |views| + buf.Length;
      ghost var all := Drained(views, buf.Length, consPtr, bound);
      taken := [];
      var cons, rest := consPtr, views;
      TakingStarts(views, buf.Length, start, bound);
      DrainedIsShort(views, logSize, start, bound);
      var ready, payload := Test(rest[0], cons);
      while ready
        invariant |taken| <= |all| && Tested(rest, cons, ready, payload) && buf[..] == rest[0]
        invariant Taking(all, buf.Length, start, taken, rest, cons, bound - |taken|)
        decreases bound - |taken|
      {
        TakingOne(all, buf.Length, start, taken, rest, cons, bound - |taken|);
        taken := taken + [payload];
        cons, rest := Advance(cons, 1), Rest(rest);
        ready, payload := Test(rest[0], cons);
      }
      TakingEnds(all, buf.Length, start, taken, rest, cons, bound - |taken|);
      consPtr := cons;
      written := consPtr % PTR;
    }
  }

  predicate Tested(rest: seq<seq<P.Record>>, cons: nat, ready: bool, payload: nat) {
    && rest != [] && rest[0] != []
    && ready == P.Ready(rest[0], cons) && payload == rest[0][P.IndexOf(cons, |rest[0]|)].payload
  }

  lemma DrainedTail(view: seq<P.Record>, cons32: nat, budget: nat)
    requires view != [] && Drained([view], |view|, cons32, budget) != []
    ensures budget > 0 && P.Ready(view, cons32)
    ensures |Drained([view], |view|, cons32, budget)| == 1 + |Drained([view], |view|, Advance(cons32, 1), budget - 1)|
  {
    assert Rest([view]) == [view];
  }

  // In a memory that does not change, every record taken has passed the test.
  lemma {:induction false} DrainedIsReady(view: seq<P.Record>, cons32: nat, budget: nat, j: nat)
    requires view != [] && cons32 < U32 && j < |Drained([view], |view|, cons32, budget)|
    ensures P.Ready(view, Advance(cons32, j))
    decreases j
  {
    DrainedTail(view, cons32, budget);
    if j == 0 {
      DivModUnique(cons32, U32, 0, cons32);
    } else {
      DrainedIsReady(view, Advance(cons32, 1), budget - 1, j - 1);
      AdvanceTwice(cons32, 1, j - 1);
    }
  }

  /** However much the budget, a loop takes at most one lap of records after the memory has changed for the last time,
      because no slot passes the test twice. */
  lemma {:induction false} DrainedIsShort(views: seq<seq<P.Record>>, logSize: nat, cons32: nat, budget: nat)
    requires logSize < 16 && Memories(views, Pow2(logSize)) && cons32 < U32
    ensures |Drained(views, Pow2(logSize), cons32, budget)| <= |views| - 1 + Pow2(logSize)
    decreases |views|
  {
    var taken := Drained(views, Pow2(logSize), cons32, budget);
    if |views| > 1 {
      if taken != [] { DrainedIsShort(views[1..], logSize, Advance(cons32, 1), budget - 1); }
    } else {
      assert views == [views[0]];
      OneLap(views[0], logSize, cons32, budget);
    }
  }

  lemma OneLap(view: seq<P.Record>, logSize: nat, cons32: nat, budget: nat)
    requires logSize < 16 && |view| == Pow2(logSize) > 0 && cons32 < U32
    ensures |Drained([view], |view|, cons32, budget)| <= |view|
  {
    if |Drained([view], |view|, cons32, budget)| > |view| {
      DrainedIsReady(view, cons32, budget, |view|);
      DrainedTail(view, cons32, budget);
      LapEnds(view, cons32, logSize);
      assert false;
    }
  }

  // ---- against the protocol ----

  // How many records from position p on have been written without a gap, up to the budget.
  ghost function Backlog(written: map<nat, nat>, p: nat, budget: nat): nat
    decreases |written|, budget
  {
    if budget == 0 || p !in written then 0 else 1 + Backlog(written, p + 1, budget - 1)
  }

  // The state after taking one record, with the loop counter back at zero.
  ghost function TakeOne(s: P.Sys, q: nat): P.Sys
    requires P.Open(s, q) && s.sides[q].pc.Scan? && |s.sides[q].buf| > 0
  {
    s.(sides := s.sides[q := P.Take(s.sides[q]).(pc := P.Scan(0))])
  }

  lemma TakeOneInv(s: P.Sys, q: nat)
    requires P.Inv(s) && P.Open(s, q) && s.sides[q].pc.Scan? && |s.sides[q].buf| > 0 && P.Available(s.sides[q])
    ensures P.Inv(TakeOne(s, q))
  {
    P.PollKeepsInv(s, q);
    var s1 := s.(sides := s.sides[q := P.Take(s.sides[q])]);
    RestartLoop(s1, q);
    assert TakeOne(s, q) == s1.(sides := s1.sides[q := s1.sides[q].(pc := P.Scan(0))]);
  }

  // out is the records written at p and after it.
  ghost predicate AreRecords(written: map<nat, nat>, p: nat, out: seq<nat>) {
    forall k :: p <= k < p + |out| ==> k in written && out[k - p] == written[k]
  }

  // The records from d's position on that a drain returns are those written there.
  ghost predicate Delivers(d: P.Side, out: seq<nat>, budget: nat) {
    && |out| == Backlog(d.written, d.consumed, budget) <= budget
    && AreRecords(d.written, d.consumed, out)
    && (|out| < budget ==> d.consumed + |out| !in d.written)
  }

  /** From any state of the protocol, a loop run takes exactly the written records that follow the consumer
      position without a gap, in order, up to its budget, if none is written meanwhile. */
  lemma {:induction false} DrainsTheBacklog(s: P.Sys, q: nat, budget: nat)
    requires P.Inv(s) && P.Open(s, q) && s.sides[q].pc.Scan?
    ensures |s.sides[q].buf| > 0
    ensures Delivers(s.sides[q], Drained([s.sides[q].buf], |s.sides[q].buf|, s.sides[q].cons32, budget), budget)
    decreases budget
  {
    P.PhaseAgrees(s, q);
    var d := s.sides[q];
    if budget > 0 && P.Available(d) {
      TakeOneInv(s, q);
      var d1 := TakeOne(s, q).sides[q];
      DrainsTheBacklog(TakeOne(s, q), q, budget - 1);
      DeliverOneMore(d, d1, Drained([d1.buf], |d1.buf|, d1.cons32, budget - 1), budget);
    }
  }

  lemma OneRecordMore(written: map<nat, nat>, p: nat, rest: seq<nat>)
    requires p in written && AreRecords(written, p + 1, rest)
    ensures AreRecords(written, p, [written[p]] + rest)
  {
    var out := [written[p]] + rest;
    forall k | p <= k < p + |out| ensures k in written && out[k - p] == written[k] {
      if k > p { assert out[k - p] == rest[k - (p + 1)]; }
    }
  }

  lemma DeliverOneMore(d: P.Side, d1: P.Side, rest: seq<nat>, budget: nat)
    requires budget > 0 && d.consumed in d.written && d1.written == d.written && d1.consumed == d.consumed + 1
    requires Delivers(d1, rest, budget - 1)
    ensures Delivers(d, [d.written[d.consumed]] + rest, budget)
  {
    OneRecordMore(d.written, d.consumed, rest);
    assert d1.consumed + |rest| == d.consumed + |[d.written[d.consumed]] + rest|;
  }

  lemma RestartLoop(s: P.Sys, q: nat)
    requires P.Inv(s) && P.Open(s, q) && s.sides[q].pc.Scan?
    ensures P.Inv(s.(sides := s.sides[q := s.sides[q].(pc := P.Scan(0))]))
  {
    var w, d' := s.a.queues[q], s.sides[q].(pc := P.Scan(0));
    assert P.QueueInv(s, q);
    P.SameRing(s.sides[q], d', s.a.Started(q), w.fin, w.cons, w.Size());
    P.SideStepKeepsInv(s, q, d');
  }

  // ---- records arriving while the loop runs ----

  // Not a step of queue q's own driver routine.
  predicate OfOthers(x: P.Step, q: nat) {
    match x
    case Wake(p) => p != q
    case Poll(p) => p != q
    case Stop(p) => p != q
    case WriteBack(p) => p != q
    case Rearm(p) => p != q
    case EnableQueue(p) => p != q
    case CloseQueue(p) => p != q
    case _ => true
  }

  // The driver's own variables of a queue stay, and what was written stays written.
  ghost predicate Undisturbed(s: P.Sys, r: P.Sys, q: nat) {
    && P.Open(s, q) && P.Open(r, q)
    && var d, e := s.sides[q], r.sides[q];
       e.cons32 == d.cons32 && e.pc == d.pc && e.consumed == d.consumed && e.got == d.got && |e.buf| == |d.buf|
  }

  lemma HardwareUndisturbed(s: P.Sys, x: P.Step, q: nat, budget: nat, cplSize: nat)
    requires P.Valid(s) && P.CanStep(s, x, budget) && cplSize > 0 && P.Open(s, q)
    requires T.OfHardware(x) || x.HwFinalize?
    ensures Undisturbed(s, P.Next(s, x, budget, cplSize), q)
  {
    if x.HwFinalize? { P.S.FinalizeSimulates(s.m, s.a, P.Head(s.m).queue, P.Head(s.m).ptr, cplSize); }
  }

  lemma LoopUndisturbed(s: P.Sys, x: P.Step, q: nat, budget: nat, cplSize: nat)
    requires P.Valid(s) && P.CanStep(s, x, budget) && cplSize > 0 && P.Open(s, q) && OfOthers(x, q)
    requires T.OfLoop(x) || x.Rearm?
    ensures Undisturbed(s, P.Next(s, x, budget, cplSize), q)
  {
  }

  lemma RegistersUndisturbed(s: P.Sys, x: P.Step, q: nat, budget: nat, cplSize: nat)
    requires P.Valid(s) && P.CanStep(s, x, budget) && cplSize > 0 && P.Open(s, q) && OfOthers(x, q)
    requires !T.OfHardware(x) && !x.HwFinalize? && !T.OfLoop(x) && !x.Rearm?
    ensures Undisturbed(s, P.Next(s, x, budget, cplSize), q)
  {
  }

  lemma {:induction false} RunUndisturbed(s: P.Sys, xs: seq<P.Step>, r: P.Sys, q: nat, budget: nat, cplSize: nat)
    requires P.Inv(s) && 0 < cplSize <= 0x1_0000_0000 && T.Runs(s, xs, r, budget, cplSize) && P.Open(s, q)
    requires forall i :: 0 <= i < |xs| ==> OfOthers(xs[i], q)
    ensures P.Inv(r) && Undisturbed(s, r, q)
    decreases |xs|
  {
    if xs != [] {
      var x := xs[0];
      P.StepKeepsInv(s, x, budget, cplSize);
      if T.OfHardware(x) || x.HwFinalize? { HardwareUndisturbed(s, x, q, budget, cplSize); }
      else if T.OfLoop(x) || x.Rearm? { LoopUndisturbed(s, x, q, budget, cplSize); }
      else { RegistersUndisturbed(s, x, q, budget, cplSize); }
      RunUndisturbed(P.Next(s, x, budget, cplSize), xs[1..], r, q, budget, cplSize);
    }
  }

  // One phase test of a loop: the state the loop left, what the others do from there, and the state at the test.
  datatype Round = Round(from: P.Sys, gap: seq<P.Step>, at: P.Sys)

  ghost predicate Gap(x: Round, q: nat, budget: nat, cplSize: nat)
    requires cplSize > 0
  {
    T.Runs(x.from, x.gap, x.at, budget, cplSize) && forall i :: 0 <= i < |x.gap| ==> OfOthers(x.gap[i], q)
  }

  // A test that passes within the budget is a Poll step; one that does not is the last.
  ghost predicate RoundAt(rounds: seq<Round>, k: nat, q: nat, left: nat, budget: nat, cplSize: nat)
    requires k < |rounds| && cplSize > 0
  {
    var m := rounds[k].at;
    && Gap(rounds[k], q, budget, cplSize) && P.Open(m, q) && m.sides[q].pc.Scan? && |m.sides[q].buf| > 0 && P.Valid(m)
    && if left <= k || !P.Available(m.sides[q]) then k + 1 == |rounds|
       else k + 1 < |rounds| && T.Leads(m, P.Poll(q), rounds[k + 1].from, budget, cplSize)
  }

  // A loop of the driver, with this much of its budget left, in a run of the protocol.
  ghost predicate Loops(s: P.Sys, rounds: seq<Round>, q: nat, left: nat, budget: nat, cplSize: nat)
    requires cplSize > 0
  {
    && P.Inv(s) && P.Open(s, q) && rounds != [] && rounds[0].from == s
    && forall k :: 0 <= k < |rounds| ==> RoundAt(rounds, k, q, left, budget, cplSize)
  }

  // ---- what the tests see ----

  // es are the driver's side at the tests: each shows exactly whether the next record is written, and the next one is
  // the state after taking it.
  ghost predicate TestAt(es: seq<P.Side>, k: nat, size: nat, left: nat)
    requires k < |es|
  {
    && |es[k].buf| == size > 0 && (P.Ready(es[k].buf, es[k].cons32) <==> es[k].consumed in es[k].written)
    && if left <= k || !P.Ready(es[k].buf, es[k].cons32) then k + 1 == |es|
       else k + 1 < |es| && Took(es[k], es[k + 1], [es[k].buf[P.IndexOf(es[k].cons32, size)].payload])
  }

  // From d the loop has taken these records and is at e.
  predicate Took(d: P.Side, e: P.Side, taken: seq<nat>) {
    e.got == d.got + taken && e.consumed == d.consumed + |taken| && e.cons32 == Advance(d.cons32, |taken|)
  }

  lemma TookMore(d: P.Side, n: P.Side, e: P.Side, payload: nat, rest: seq<nat>)
    requires Took(d, n, [payload]) && Took(n, e, rest)
    ensures Took(d, e, [payload] + rest)
  {
    AdvanceTwice(d.cons32, 1, |rest|);
    assert d.got + [payload] + rest == d.got + ([payload] + rest);
  }

  function Views(es: seq<P.Side>): seq<seq<P.Record>> { seq(|es|, k requires 0 <= k < |es| => es[k].buf) }

  lemma {:induction false} ViewsFit(es: seq<P.Side>, size: nat, left: nat, k: nat)
    requires k < |es| && forall i :: 0 <= i < |es| ==> TestAt(es, i, size, left)
    ensures Memories(Views(es)[k..], size) && Views(es)[k..][0] == es[k].buf
    ensures k + 1 < |es| ==> Rest(Views(es)[k..]) == Views(es)[k + 1..]
    decreases |es| - k
  {
    assert TestAt(es, k, size, left);
    if k + 1 < |es| {
      ViewsFit(es, size, left, k + 1);
      assert Views(es)[k..][1..] == Views(es)[k + 1..];
    }
  }

  // From the k-th test on.
  lemma {:induction false} FromTest(es: seq<P.Side>, size: nat, left: nat, k: nat)
    requires k < |es| && es[k].cons32 < U32 && k <= left && forall i :: 0 <= i < |es| ==> TestAt(es, i, size, left)
    ensures Memories(Views(es)[k..], size)
    ensures
      var taken, e := Drained(Views(es)[k..], size, es[k].cons32, left - k), es[|es| - 1];
      |taken| <= left - k && Took(es[k], e, taken) && (|taken| < left - k ==> e.consumed !in e.written)
    decreases |es| - k
  {
    ViewsFit(es, size, left, k);
    assert TestAt(es, k, size, left);
    if k + 1 < |es| {
      FromTest(es, size, left, k + 1);
      TookMore(es[k], es[k + 1], es[|es| - 1], es[k].buf[P.IndexOf(es[k].cons32, size)].payload,
               Drained(Views(es)[k + 1..], size, es[k + 1].cons32, left - k - 1));
    } else {
      assert es[k].got + [] == es[k].got;
      DivModUnique(es[k].cons32, U32, 0, es[k].cons32);
    }
  }

  // ---- and the protocol ----

  lemma GapKeeps(x: Round, q: nat, budget: nat, cplSize: nat)
    requires 0 < cplSize <= 0x1_0000_0000 && P.Inv(x.from) && P.Open(x.from, q) && Gap(x, q, budget, cplSize)
    ensures P.Inv(x.at) && Undisturbed(x.from, x.at, q)
  {
    RunUndisturbed(x.from, x.gap, x.at, q, budget, cplSize);
  }

  lemma PollTakes(m: P.Sys, n: P.Sys, q: nat, budget: nat, cplSize: nat)
    requires cplSize > 0 && P.Inv(m) && P.Open(m, q) && T.Leads(m, P.Poll(q), n, budget, cplSize)
    ensures P.Inv(n) && P.Open(n, q) && 0 < |n.sides[q].buf| == |m.sides[q].buf|
    ensures Took(m.sides[q], n.sides[q], [m.sides[q].buf[P.IndexOf(m.sides[q].cons32, |m.sides[q].buf|)].payload])
  {
    P.PollKeepsInv(m, q);
  }

  lemma RoundGap(s: P.Sys, rounds: seq<Round>, k: nat, q: nat, left: nat, budget: nat, cplSize: nat)
    requires cplSize > 0 && Loops(s, rounds, q, left, budget, cplSize) && k < |rounds|
    ensures Gap(rounds[k], q, budget, cplSize)
    ensures k + 1 < |rounds| ==> k < left && T.Leads(rounds[k].at, P.Poll(q), rounds[k + 1].from, budget, cplSize)
  {
    assert RoundAt(rounds, k, q, left, budget, cplSize);
  }

  // What holds where the loop was and at the test that follows.
  ghost predicate Sound(x: Round, q: nat, size: nat) {
    P.Inv(x.from) && P.Inv(x.at) && Undisturbed(x.from, x.at, q) && |x.at.sides[q].buf| == size
  }

  lemma RoundFirst(x: Round, q: nat, budget: nat, cplSize: nat)
    requires 0 < cplSize <= 0x1_0000_0000 && P.Inv(x.from) && P.Open(x.from, q) && Gap(x, q, budget, cplSize)
    ensures Sound(x, q, |x.from.sides[q].buf|)
  {
    GapKeeps(x, q, budget, cplSize);
  }

  lemma RoundNext(x: Round, y: Round, q: nat, size: nat, budget: nat, cplSize: nat)
    requires 0 < cplSize <= 0x1_0000_0000 && Sound(x, q, size)
    requires T.Leads(x.at, P.Poll(q), y.from, budget, cplSize) && Gap(y, q, budget, cplSize)
    ensures Sound(y, q, size)
  {
    PollTakes(x.at, y.from, q, budget, cplSize);
    GapKeeps(y, q, budget, cplSize);
  }

  lemma RoundAfter(s: P.Sys, rounds: seq<Round>, k: nat, q: nat, left: nat, budget: nat, cplSize: nat)
    requires 0 < cplSize <= 0x1_0000_0000 && Loops(s, rounds, q, left, budget, cplSize) && k + 1 < |rounds|
    requires Sound(rounds[k], q, |s.sides[q].buf|)
    ensures Sound(rounds[k + 1], q, |s.sides[q].buf|)
  {
    RoundGap(s, rounds, k, q, left, budget, cplSize);
    RoundGap(s, rounds, k + 1, q, left, budget, cplSize);
    RoundNext(rounds[k], rounds[k + 1], q, |s.sides[q].buf|, budget, cplSize);
  }

  lemma {:induction false} RoundKeeps(s: P.Sys, rounds: seq<Round>, k: nat, q: nat, left: nat, budget: nat, cplSize: nat)
    requires 0 < cplSize <= 0x1_0000_0000 && Loops(s, rounds, q, left, budget, cplSize) && k < |rounds|
    ensures Sound(rounds[k], q, |s.sides[q].buf|)
  {
    if k > 0 {
      RoundKeeps(s, rounds, k - 1, q, left, budget, cplSize);
      RoundAfter(s, rounds, k - 1, q, left, budget, cplSize);
    } else {
      RoundGap(s, rounds, 0, q, left, budget, cplSize);
      RoundFirst(rounds[0], q, budget, cplSize);
    }
  }

  // What a round shows of a test.
  lemma RoundTest(s: P.Sys, rounds: seq<Round>, k: nat, q: nat, left: nat, budget: nat, cplSize: nat)
    requires 0 < cplSize <= 0x1_0000_0000 && Loops(s, rounds, q, left, budget, cplSize) && k < |rounds|
    requires Sound(rounds[k], q, |s.sides[q].buf|)
    ensures
      var e := rounds[k].at.sides[q];
      && |e.buf| == |s.sides[q].buf| > 0 && e.cons32 < U32 && (P.Ready(e.buf, e.cons32) <==> e.consumed in e.written)
      && if left <= k || !P.Ready(e.buf, e.cons32) then k + 1 == |rounds|
         else k + 1 < |rounds|
  {
    assert RoundAt(rounds, k, q, left, budget, cplSize);
    P.PhaseAgrees(rounds[k].at, q);
    assert P.QueueInv(rounds[k].at, q);
  }

  // The driver's side at each test.
  ghost predicate SidesAt(rounds: seq<Round>, q: nat, es: seq<P.Side>) {
    |es| == |rounds| && forall k :: 0 <= k < |es| ==> SideAt(rounds, q, es, k)
  }

  ghost predicate SideAt(rounds: seq<Round>, q: nat, es: seq<P.Side>, k: nat)
    requires k < |rounds| && k < |es|
  {
    q < |rounds[k].at.sides| && es[k] == rounds[k].at.sides[q]
  }

  // A round later the record has been taken.
  lemma RoundTakes(s: P.Sys, rounds: seq<Round>, k: nat, q: nat, left: nat, budget: nat, cplSize: nat)
    requires 0 < cplSize <= 0x1_0000_0000 && Loops(s, rounds, q, left, budget, cplSize) && k + 1 < |rounds|
    requires Sound(rounds[k], q, |s.sides[q].buf|) && Sound(rounds[k + 1], q, |s.sides[q].buf|) && |s.sides[q].buf| > 0
    ensures
      var d, e := rounds[k].at.sides[q], rounds[k + 1].at.sides[q];
      Took(d, e, [d.buf[P.IndexOf(d.cons32, |s.sides[q].buf|)].payload])
  {
    RoundGap(s, rounds, k, q, left, budget, cplSize);
    PollTakes(rounds[k].at, rounds[k + 1].from, q, budget, cplSize);
  }

  lemma TestHolds(s: P.Sys, rounds: seq<Round>, es: seq<P.Side>, k: nat, q: nat, left: nat, budget: nat, cplSize: nat)
    requires 0 < cplSize <= 0x1_0000_0000 && Loops(s, rounds, q, left, budget, cplSize) && k < |rounds| && SidesAt(rounds, q, es)
    ensures TestAt(es, k, |s.sides[q].buf|, left) && es[k].cons32 < U32
  {
    RoundKeeps(s, rounds, k, q, left, budget, cplSize);
    RoundTest(s, rounds, k, q, left, budget, cplSize);
    assert SideAt(rounds, q, es, k);
    if k + 1 < |rounds| {
      RoundKeeps(s, rounds, k + 1, q, left, budget, cplSize);
      RoundTakes(s, rounds, k, q, left, budget, cplSize);
      assert SideAt(rounds, q, es, k + 1);
    }
  }

  /** A loop run while the hardware and the writer go on: what the method takes from the memories at its phase tests is
      what the protocol's Poll steps hand to the driver, and it stops where the budget is spent or the next record is
      not yet written. */
  lemma LoopIsPolls(s: P.Sys, rounds: seq<Round>, es: seq<P.Side>, q: nat, left: nat, budget: nat, cplSize: nat)
    requires 0 < cplSize <= 0x1_0000_0000 && Loops(s, rounds, q, left, budget, cplSize) && SidesAt(rounds, q, es)
    ensures Memories(Views(es), |s.sides[q].buf|)
    ensures
      var taken, e := Drained(Views(es), |s.sides[q].buf|, s.sides[q].cons32, left), es[|es| - 1];
      && |taken| <= left && Took(s.sides[q], e, taken) && (|taken| < left ==> e.consumed !in e.written)
      && AreRecords(e.written, s.sides[q].consumed, taken)
  {
    LoopTests(s, rounds, es, q, left, budget, cplSize);
    FromTest(es, |s.sides[q].buf|, left, 0);
    assert Views(es)[0..] == Views(es);
    LoopRecords(s, rounds, es, q, left, budget, cplSize, Drained(Views(es), |s.sides[q].buf|, s.sides[q].cons32, left));
  }

  lemma LoopTests(s: P.Sys, rounds: seq<Round>, es: seq<P.Side>, q: nat, left: nat, budget: nat, cplSize: nat)
    requires 0 < cplSize <= 0x1_0000_0000 && Loops(s, rounds, q, left, budget, cplSize) && SidesAt(rounds, q, es)
    ensures forall k :: 0 <= k < |es| ==> TestAt(es, k, |s.sides[q].buf|, left)
    ensures es != [] && es[0].cons32 == s.sides[q].cons32 < U32
    ensures es[0].got == s.sides[q].got && es[0].consumed == s.sides[q].consumed
  {
    forall k | 0 <= k < |es| ensures TestAt(es, k, |s.sides[q].buf|, left) {
      TestHolds(s, rounds, es, k, q, left, budget, cplSize);
    }
    TestHolds(s, rounds, es, 0, q, left, budget, cplSize);
    RoundKeeps(s, rounds, 0, q, left, budget, cplSize);
    assert SideAt(rounds, q, es, 0);
  }

  lemma LoopRecords(s: P.Sys, rounds: seq<Round>, es: seq<P.Side>, q: nat, left: nat, budget: nat, cplSize: nat, taken: seq<nat>)
    requires 0 < cplSize <= 0x1_0000_0000 && Loops(s, rounds, q, left, budget, cplSize) && SidesAt(rounds, q, es)
    requires Took(s.sides[q], es[|es| - 1], taken)
    ensures AreRecords(es[|es| - 1].written, s.sides[q].consumed, taken)
  {
    var n := |es| - 1;
    RoundKeeps(s, rounds, n, q, left, budget, cplSize);
    assert SideAt(rounds, q, es, n);
    TakenAreRecords(s, rounds[n].at, q, taken);
  }

  // The records handed over are those written.
  lemma TakenAreRecords(s: P.Sys, r: P.Sys, q: nat, taken: seq<nat>)
    requires P.Inv(s) && P.Open(s, q) && P.Inv(r) && P.Open(r, q) && Took(s.sides[q], r.sides[q], taken)
    ensures AreRecords(r.sides[q].written, s.sides[q].consumed, taken)
  {
    GotIsWritten(s, q);
    GotIsWritten(r, q);
    var d, e := s.sides[q], r.sides[q];
    forall k | d.consumed <= k < d.consumed + |taken|
      ensures k in e.written && taken[k - d.consumed] == e.written[k]
    {
      assert e.got[k] == taken[k - d.consumed];
    }
  }

  lemma GotIsWritten(r: P.Sys, q: nat)
    requires P.Inv(r) && P.Open(r, q)
    ensures |r.sides[q].got| == r.sides[q].consumed
    ensures forall i :: 0 <= i < r.sides[q].consumed ==> i in r.sides[q].written && r.sides[q].got[i] == r.sides[q].written[i]
  {
    assert P.QueueInv(r, q);
  }
}

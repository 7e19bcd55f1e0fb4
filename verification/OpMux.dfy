/**
 The completion operation mux: input registers in front of an arbiter, an output register with a one-deep
 spill register behind it, and a demultiplexer that sends each status back to the port that asked.
 */
module CplOpMux {
  import opened Arith

  datatype Req = Req(sel: nat, queue: nat, tag: nat, data: nat)

  datatype Params = Params(ports: nat, tagWidth: nat, outWidth: nat)
  {
    // M_REQ_TAG_WIDTH has room for the port number above the tag.
    predicate Valid()
    {
      ports >= 1 && tagWidth <= outWidth && ports <= Pow2(outWidth - tagWidth)
    }
  }

  datatype Regs = Regs(inp: seq<Option<Req>>, out: Option<Req>, temp: Option<Req>, readyInt: bool)

  datatype Input = Input(offered: seq<Option<Req>>, grant: seq<bool>, grantValid: bool, encoded: nat, sinkReady: bool)
  {
    // What the arbiter promises (one grant, matching grant_encoded) and the width of the tags.
    predicate Valid(p: Params)
    {
      && |offered| == |grant| == p.ports
      && (grantValid ==> encoded < p.ports)
      && (forall k :: 0 <= k < p.ports ==> grant[k] == (grantValid && k == encoded))
      && (forall k :: 0 <= k < p.ports && offered[k].Some? ==> offered[k].value.tag < Pow2(p.tagWidth))
    }
  }

  function Reset(p: Params): Regs { Regs(seq(p.ports, _ => None), None, None, false) }

  predicate InputReady(s: Regs, i: Input, k: nat)
    requires k < |s.inp| == |i.grant|
  {
    s.inp[k].None? || (s.readyInt && i.grant[k])
  }

  // {grant_encoded, tag} in M_REQ_TAG_WIDTH bits.
  function Extend(p: Params, port: nat, r: Req): Req
  {
    r.(tag := (port * Pow2(p.tagWidth) + r.tag) % Pow2(p.outWidth))
  }

  // The request the mux passes to the output registers this cycle.
  function Internal(p: Params, s: Regs, i: Input): Option<Req>
    requires |s.inp| == p.ports && i.Valid(p)
  {
    if s.readyInt && i.grantValid && s.inp[i.encoded].Some?
    then Some(Extend(p, i.encoded, s.inp[i.encoded].value)) else None
  }

  function NextInputs(s: Regs, i: Input): (r: seq<Option<Req>>)
    requires |s.inp| == |i.grant| == |i.offered|
  {
    seq(|s.inp|, k requires 0 <= k < |s.inp| => if InputReady(s, i, k) then i.offered[k] else s.inp[k])
  }

  function NextOut(s: Regs, i: Input, x: Option<Req>): Option<Req>
  {
    if s.readyInt then (if i.sinkReady || s.out.None? then x else s.out)
    else if i.sinkReady then s.temp else s.out
  }

  function NextTemp(s: Regs, i: Input, x: Option<Req>): Option<Req>
  {
    if s.readyInt then (if i.sinkReady || s.out.None? then s.temp else x)
    else if i.sinkReady then None else s.temp
  }

  function Next(p: Params, s: Regs, i: Input): Regs
    requires |s.inp| == p.ports && i.Valid(p)
  {
    var x := Internal(p, s, i);
    Regs(NextInputs(s, i), NextOut(s, i, x), NextTemp(s, i, x), i.sinkReady || (s.temp.None? && s.out.None?))
  }

  class OpMux {
    const p: Params
    const inp: array<Option<Req>>
    var out: Option<Req>
    var temp: Option<Req>
    var readyInt: bool

    function View(): Regs
      reads this, inp
    {
      Regs(inp[..], out, temp, readyInt)
    }

    constructor (p: Params)
      requires p.Valid()
      ensures this.p == p && fresh(inp) && View() == Reset(p)
    {
      this.p := p;
      inp := new Option<Req>[p.ports](_ => None);
      out, temp, readyInt := None, None, false;
      new;
      assert inp[..] == seq(p.ports, _ => None);
    }

    // posedge clk.
    method Clock(i: Input)
      requires inp.Length == p.ports && i.Valid(p)
      modifies this, inp
      ensures View() == Next(p, old(View()), i)
    {
      ghost var s := View();
      var x := None;
      if readyInt && i.grantValid && inp[i.encoded].Some? {
        x := Some(Extend(p, i.encoded, inp[i.encoded].value));
      }
      var k := 0;
      while k < p.ports
        invariant k <= p.ports && out == s.out && temp == s.temp && readyInt == s.readyInt
        invariant forall j :: 0 <= j < p.ports ==> inp[j] == if j < k then NextInputs(s, i)[j] else s.inp[j]
      {
        if inp[k].None? || (readyInt && i.grant[k]) {
          inp[k] := i.offered[k];
        }
        k := k + 1;
      }
      assert inp[..] == NextInputs(s, i);
      var early := i.sinkReady || (temp.None? && out.None?);
      if readyInt {
        if i.sinkReady || out.None? {
          out := x;
        } else {
          temp := x;
        }
      } else if i.sinkReady {
        out, temp := temp, None;
      }
      readyInt := early;
    }
  }

  // ---- what has gone in and come out ----

  datatype Sent = Sent(port: nat, req: Req)

  // What each port had accepted, what the mux has passed on and for whom, and what the sink has taken.
  datatype Log = Log(accepted: seq<seq<Req>>, sent: seq<Sent>, delivered: seq<Req>)

  predicate Passes(s: Regs, i: Input)
    requires |s.inp| == |i.grant| && (i.grantValid ==> i.encoded < |s.inp|)
  {
    s.readyInt && i.grantValid && s.inp[i.encoded].Some?
  }

  function Observe(p: Params, s: Regs, i: Input, g: Log): (g': Log)
    requires |s.inp| == p.ports == |g.accepted| && i.Valid(p)
    ensures |g'.accepted| == p.ports
  {
    Log(seq(|s.inp|, k requires 0 <= k < |s.inp| =>
              g.accepted[k] + if InputReady(s, i, k) then Opt(i.offered[k]) else []),
        g.sent + (if Passes(s, i) then [Sent(i.encoded, s.inp[i.encoded].value)] else []),
        g.delivered + if i.sinkReady then Opt(s.out) else [])
  }

  // The requests of port k among the first n.
  function OfPort(sent: seq<Sent>, n: nat, k: nat): seq<Req>
    requires n <= |sent|
  {
    if n == 0 then [] else OfPort(sent, n - 1, k) + if sent[n - 1].port == k then [sent[n - 1].req] else []
  }

  lemma {:induction false} OfPortPrefix(sent: seq<Sent>, more: seq<Sent>, n: nat, k: nat)
    requires n <= |sent|
    ensures OfPort(sent + more, n, k) == OfPort(sent, n, k)
  {
    if n > 0 { OfPortPrefix(sent, more, n - 1, k); }
  }

  // Everything that has passed the mux, in order, as it is on the wire.
  function Passed(s: Regs, g: Log): seq<Req> { g.delivered + Opt(s.out) + Opt(s.temp) }

  ghost predicate OnWire(p: Params, wire: seq<Req>, sent: seq<Sent>)
  {
    |wire| == |sent| && forall j :: 0 <= j < |sent| ==> wire[j] == Extend(p, sent[j].port, sent[j].req)
  }

  ghost predicate PortOk(s: Regs, g: Log, k: nat)
    requires k < |s.inp| == |g.accepted|
  {
    OfPort(g.sent, |g.sent|, k) + Opt(s.inp[k]) == g.accepted[k]
  }

  ghost predicate TagsOk(p: Params, s: Regs, g: Log)
  {
    && (forall k :: 0 <= k < |s.inp| && s.inp[k].Some? ==> s.inp[k].value.tag < Pow2(p.tagWidth))
    && (forall j :: 0 <= j < |g.sent| ==> g.sent[j].port < p.ports && g.sent[j].req.tag < Pow2(p.tagWidth))
  }

  /** For every port: delivered ++ output ++ temp, then the input register, is what was accepted; and the spill
      register is only filled when it is empty. */
  ghost predicate Inv(p: Params, s: Regs, g: Log)
  {
    && |s.inp| == |g.accepted| == p.ports
    && (s.readyInt ==> s.temp.None?) && (s.temp.Some? ==> s.out.Some?)
    && TagsOk(p, s, g) && OnWire(p, Passed(s, g), g.sent)
    && (forall k :: 0 <= k < p.ports ==> PortOk(s, g, k))
  }

  // Moving requests between the registers loses and reorders nothing.
  lemma PassedShifts(p: Params, s: Regs, i: Input, g: Log)
    requires Inv(p, s, g) && i.Valid(p)
    ensures Passed(Next(p, s, i), Observe(p, s, i, g)) == Passed(s, g) + Opt(Internal(p, s, i))
    ensures s.temp.Some? && !i.sinkReady ==> Next(p, s, i).temp == s.temp && Next(p, s, i).out == s.out
    ensures Next(p, s, i).readyInt ==> Next(p, s, i).temp.None?
    ensures Next(p, s, i).temp.Some? ==> Next(p, s, i).out.Some?
  {
    Shifts(s.readyInt, i.sinkReady, g.delivered, s.out, s.temp, Internal(p, s, i));
  }

  lemma Shifts(readyInt: bool, sinkReady: bool, delivered: seq<Req>, out: Option<Req>, temp: Option<Req>, x: Option<Req>)
    requires (readyInt ==> temp.None?) && (!readyInt ==> x.None?) && (temp.Some? ==> out.Some?)
    ensures
      var out' := if readyInt then (if sinkReady || out.None? then x else out) else if sinkReady then temp else out;
      var temp' := if readyInt then (if sinkReady || out.None? then temp else x) else if sinkReady then None else temp;
      (delivered + if sinkReady then Opt(out) else []) + Opt(out') + Opt(temp') == delivered + Opt(out) + Opt(temp) + Opt(x)
  {
  }

  // One port's share of a cycle.
  lemma PortStep(p: Params, s: Regs, i: Input, g: Log, k: nat)
    requires i.Valid(p) && |s.inp| == |g.accepted| == p.ports && k < p.ports && PortOk(s, g, k)
    ensures PortOk(Next(p, s, i), Observe(p, s, i, g), k)
  {
    if Passes(s, i) {
      OfPortPrefix(g.sent, [Sent(i.encoded, s.inp[i.encoded].value)], |g.sent|, k);
    } else {
      assert g.sent + [] == g.sent;
    }
  }

  lemma WireStep(p: Params, s: Regs, i: Input, g: Log)
    requires i.Valid(p) && |s.inp| == |g.accepted| == p.ports && OnWire(p, Passed(s, g), g.sent)
    ensures OnWire(p, Passed(s, g) + Opt(Internal(p, s, i)), Observe(p, s, i, g).sent)
  {
  }

  lemma TagsStep(p: Params, s: Regs, i: Input, g: Log)
    requires i.Valid(p) && |s.inp| == |g.accepted| == p.ports && TagsOk(p, s, g)
    ensures TagsOk(p, Next(p, s, i), Observe(p, s, i, g))
  {
  }

  lemma StepKeepsInv(p: Params, s: Regs, i: Input, g: Log)
    requires Inv(p, s, g) && i.Valid(p)
    ensures Inv(p, Next(p, s, i), Observe(p, s, i, g))
  {
    PassedShifts(p, s, i, g);
    WireStep(p, s, i, g);
    TagsStep(p, s, i, g);
    forall k | 0 <= k < p.ports
      ensures PortOk(Next(p, s, i), Observe(p, s, i, g), k)
    {
      PortStep(p, s, i, g, k);
    }
  }

  // A run of the mux from reset.
  function Runs(p: Params, ins: seq<Input>, n: nat): (r: (Regs, Log))
    requires n <= |ins| && forall i :: 0 <= i < |ins| ==> ins[i].Valid(p)
    ensures |r.0.inp| == |r.1.accepted| == p.ports
  {
    if n == 0 then (Reset(p), Log(seq(p.ports, _ => []), [], [])) else
    var r := Runs(p, ins, n - 1);
    (Next(p, r.0, ins[n - 1]), Observe(p, r.0, ins[n - 1], r.1))
  }

  /** Over every run each port's requests leave once and in order: delivered ++ output ++ temp ++ input register
      is exactly what the port was accepted for, and the spill register is never filled while it is valid. */
  lemma {:induction false} NothingLostOrDuplicated(p: Params, ins: seq<Input>, n: nat)
    requires n <= |ins| && forall i :: 0 <= i < |ins| ==> ins[i].Valid(p)
    ensures Inv(p, Runs(p, ins, n).0, Runs(p, ins, n).1)
  {
    if n > 0 {
      NothingLostOrDuplicated(p, ins, n - 1);
      StepKeepsInv(p, Runs(p, ins, n - 1).0, ins[n - 1], Runs(p, ins, n - 1).1);
    }
  }

  // ---- the way back ----

  // m_axis_req_status_valid for a status with this tag, and the tag every port sees.
  function StatusValid(p: Params, tag: nat): (v: seq<bool>)
  {
    var shift := if p.ports > 1 then tag / Pow2(p.tagWidth) else 0;
    seq(p.ports, k => k == shift)
  }

  function StatusTag(p: Params, tag: nat): nat { tag % Pow2(p.tagWidth) }

  /** The demultiplexer of the status path undoes the tag extension: the status of a request that port sent is
      raised at that port alone, with the tag the port gave it. */
  lemma ExtendRoundTrip(p: Params, port: nat, r: Req)
    requires p.Valid() && port < p.ports && r.tag < Pow2(p.tagWidth)
    ensures StatusTag(p, Extend(p, port, r).tag) == r.tag
    ensures forall k :: 0 <= k < p.ports ==> StatusValid(p, Extend(p, port, r).tag)[k] == (k == port)
  {
    var w, t := Pow2(p.tagWidth), port * Pow2(p.tagWidth) + r.tag;
    Pow2Split(p.tagWidth, p.outWidth);
    TwoDigits(port, r.tag, Pow2(p.outWidth - p.tagWidth), w);
    DivModUnique(t, Pow2(p.outWidth), 0, t);
    DivModUnique(t, w, port, r.tag);
  }

  lemma {:induction false} OfPortAt(sent: seq<Sent>, j: nat, n: nat)
    requires j < n <= |sent|
    ensures
      var k := sent[j].port;
      |OfPort(sent, j, k)| < |OfPort(sent, n, k)| && OfPort(sent, n, k)[|OfPort(sent, j, k)|] == sent[j].req
  {
    if j + 1 < n { OfPortAt(sent, j, n - 1); }
  }

  /** The j-th request the sink takes is the n-th one accepted from its port, n being how many of that port left
      before it; a status with its tag is raised at that port alone, with the tag of that request. */
  ghost predicate Answered(p: Params, g: Log, j: nat)
    requires j < |g.delivered|
  {
    && j < |g.sent| && g.sent[j].port < |g.accepted| == p.ports
    && var port, d := g.sent[j].port, g.delivered[j];
       var n := |OfPort(g.sent, j, port)|;
       && n < |g.accepted[port]| && d == Extend(p, port, g.accepted[port][n])
       && StatusTag(p, d.tag) == g.accepted[port][n].tag
       && forall k :: 0 <= k < p.ports ==> StatusValid(p, d.tag)[k] == (k == port)
  }

  lemma DeliveredIsSent(p: Params, s: Regs, g: Log, j: nat)
    requires Inv(p, s, g) && j < |g.delivered|
    ensures j < |g.sent| && g.delivered[j] == Extend(p, g.sent[j].port, g.sent[j].req)
    ensures g.sent[j].port < p.ports == |g.accepted| && g.sent[j].req.tag < Pow2(p.tagWidth)
  {
    assert Passed(s, g)[j] == g.delivered[j];
  }

  lemma SentIsAccepted(p: Params, s: Regs, g: Log, j: nat)
    requires Inv(p, s, g) && j < |g.sent| && g.sent[j].port < p.ports
    ensures
      var port := g.sent[j].port;
      var n := |OfPort(g.sent, j, port)|;
      n < |g.accepted[port]| && g.accepted[port][n] == g.sent[j].req
  {
    OfPortAt(g.sent, j, |g.sent|);
    assert PortOk(s, g, g.sent[j].port);
  }

  /** Every status returns to the port that sent the request. */
  lemma StatusReturnsToSender(p: Params, ins: seq<Input>, n: nat, j: nat)
    requires p.Valid() && n <= |ins| && forall i :: 0 <= i < |ins| ==> ins[i].Valid(p)
    requires j < |Runs(p, ins, n).1.delivered|
    ensures Answered(p, Runs(p, ins, n).1, j)
  {
    var s, g := Runs(p, ins, n).0, Runs(p, ins, n).1;
    NothingLostOrDuplicated(p, ins, n);
    DeliveredIsSent(p, s, g, j);
    SentIsAccepted(p, s, g, j);
    ExtendRoundTrip(p, g.sent[j].port, g.sent[j].req);
  }
}

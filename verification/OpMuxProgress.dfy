/**
 The mux gets there: what is offered to an empty input register is taken, a granted request reaches the output
 registers, and the sink takes every one, within stated numbers of edges.
 */
module CplOpMuxProgress {
  import opened Arith
  import opened CplOpMux

  // The registers and the log after n edges from reset.
  function At(p: Params, ins: seq<Input>, n: nat): (s: Regs)
    requires n <= |ins| && forall i :: 0 <= i < |ins| ==> ins[i].Valid(p)
    ensures |s.inp| == p.ports
  {
    Runs(p, ins, n).0
  }

  function Taken(p: Params, ins: seq<Input>, n: nat): seq<Req>
    requires n <= |ins| && forall i :: 0 <= i < |ins| ==> ins[i].Valid(p)
  {
    Runs(p, ins, n).1.delivered
  }

  // Port k is granted at the edges n and after, before m.
  predicate Granted(p: Params, ins: seq<Input>, k: nat, n: nat, m: nat)
    requires m <= |ins|
  {
    forall j :: n <= j < m ==> ins[j].grantValid && ins[j].encoded == k
  }

  // The mux passes on what is in the input register of port k.
  predicate Passes(s: Regs, i: Input, k: nat) { s.readyInt && i.grantValid && i.encoded == k }

  /** What is offered to a port whose input register is empty, or is being passed on, is in the register after the edge. */
  lemma EmptyInputAccepts(p: Params, ins: seq<Input>, n: nat, k: nat)
    requires n < |ins| && (forall i :: 0 <= i < |ins| ==> ins[i].Valid(p)) && k < p.ports
    requires At(p, ins, n).inp[k] == None || Passes(At(p, ins, n), ins[n], k)
    ensures At(p, ins, n + 1).inp[k] == ins[n].offered[k]
  {
  }

  // A request waits in its register until the mux passes it on.
  lemma WaitsForGrant(p: Params, ins: seq<Input>, n: nat, k: nat)
    requires n < |ins| && (forall i :: 0 <= i < |ins| ==> ins[i].Valid(p)) && k < p.ports
    requires At(p, ins, n).inp[k].Some? && !Passes(At(p, ins, n), ins[n], k)
    ensures At(p, ins, n + 1).inp[k] == At(p, ins, n).inp[k]
  {
  }

  // After an edge at which both output registers are empty or the sink is ready, the mux is ready.
  lemma ReadyAfter(p: Params, ins: seq<Input>, n: nat)
    requires n < |ins| && forall i :: 0 <= i < |ins| ==> ins[i].Valid(p)
    requires ins[n].sinkReady || (At(p, ins, n).out == None && At(p, ins, n).temp == None)
    ensures At(p, ins, n + 1).readyInt
  {
  }

  /** Whatever the sink does: a granted request is in the output register within two edges of the output registers being
      empty. */
  lemma OutWithinTwo(p: Params, ins: seq<Input>, n: nat, k: nat, r: Req)
    requires n + 2 <= |ins| && (forall i :: 0 <= i < |ins| ==> ins[i].Valid(p)) && k < p.ports
    requires At(p, ins, n).inp[k] == Some(r) && At(p, ins, n).out == None && At(p, ins, n).temp == None
    requires Granted(p, ins, k, n, n + 2)
    ensures At(p, ins, n + 1).out == Some(Extend(p, k, r)) || At(p, ins, n + 2).out == Some(Extend(p, k, r))
  {
    assert At(p, ins, n + 1) == Next(p, At(p, ins, n), ins[n]);
    assert At(p, ins, n + 2) == Next(p, At(p, ins, n + 1), ins[n + 1]);
    if !At(p, ins, n).readyInt {
      WaitsForGrant(p, ins, n, k);
      ReadyAfter(p, ins, n);
    }
  }

  // ---- a sink that answers ----

  // Whenever the output register holds a request, the sink is ready at one of this and the next b - 1 edges.
  ghost predicate Answers(p: Params, ins: seq<Input>, b: nat)
    requires forall i :: 0 <= i < |ins| ==> ins[i].Valid(p)
  {
    forall m :: 0 <= m && m + b <= |ins| && At(p, ins, m).out.Some? ==> exists j :: m <= j < m + b && ins[j].sinkReady
  }

  // The first such edge; until then the request stays, and the sink takes it there.
  lemma {:induction false} TakenAt(p: Params, ins: seq<Input>, m: nat, j: nat) returns (f: nat)
    requires m <= j < |ins| && (forall i :: 0 <= i < |ins| ==> ins[i].Valid(p)) && At(p, ins, m).out.Some? && ins[j].sinkReady
    ensures m <= f <= j && ins[f].sinkReady && |Taken(p, ins, f + 1)| == |Taken(p, ins, m)| + 1
    ensures At(p, ins, f).out == At(p, ins, m).out && forall i :: m <= i < f ==> !ins[i].sinkReady
    ensures forall i :: m <= i <= f ==> |Taken(p, ins, i)| == |Taken(p, ins, m)|
    decreases j - m
  {
    if ins[m].sinkReady {
      f := m;
    } else {
      OutStays(p, ins, m);
      f := TakenAt(p, ins, m + 1, j);
    }
  }

  lemma OutStays(p: Params, ins: seq<Input>, m: nat)
    requires m < |ins| && (forall i :: 0 <= i < |ins| ==> ins[i].Valid(p)) && At(p, ins, m).out.Some? && !ins[m].sinkReady
    ensures At(p, ins, m + 1).out == At(p, ins, m).out && Taken(p, ins, m + 1) == Taken(p, ins, m)
  {
    assert Taken(p, ins, m) + [] == Taken(p, ins, m);
  }

  lemma {:induction false} TakenGrows(p: Params, ins: seq<Input>, m: nat, n: nat)
    requires m <= n <= |ins| && forall i :: 0 <= i < |ins| ==> ins[i].Valid(p)
    ensures |Taken(p, ins, m)| <= |Taken(p, ins, n)| && Taken(p, ins, n)[..|Taken(p, ins, m)|] == Taken(p, ins, m)
  {
    if m < n {
      TakenGrows(p, ins, m, n - 1);
      assert Taken(p, ins, n)[..|Taken(p, ins, n - 1)|] == Taken(p, ins, n - 1);
    }
  }

  // Within b edges one more is taken, if anything is on its way.
  lemma OneTaken(p: Params, ins: seq<Input>, b: nat, m: nat)
    requires (forall i :: 0 <= i < |ins| ==> ins[i].Valid(p)) && Answers(p, ins, b) && m + b <= |ins|
    requires At(p, ins, m).out.Some?
    ensures |Taken(p, ins, m + b)| > |Taken(p, ins, m)|
  {
    var j :| m <= j < m + b && ins[j].sinkReady;
    var f := TakenAt(p, ins, m, j);
    TakenGrows(p, ins, f + 1, m + b);
  }

  // ---- from the input register to the sink ----

  function Sends(p: Params, ins: seq<Input>, n: nat): seq<Sent>
    requires n <= |ins| && forall i :: 0 <= i < |ins| ==> ins[i].Valid(p)
  {
    Runs(p, ins, n).1.sent
  }

  // A ready mux passes the granted request on.
  lemma PassesOn(p: Params, ins: seq<Input>, m: nat, k: nat, r: Req)
    requires m < |ins| && (forall i :: 0 <= i < |ins| ==> ins[i].Valid(p)) && k < p.ports
    requires At(p, ins, m).readyInt && At(p, ins, m).inp[k] == Some(r) && ins[m].grantValid && ins[m].encoded == k
    ensures Sends(p, ins, m + 1) == Sends(p, ins, m) + [Sent(k, r)]
  {
  }

  // A mux that is not ready stays so while the sink does not take the request in the output register.
  lemma NotReadyStays(p: Params, ins: seq<Input>, m: nat)
    requires m < |ins| && (forall i :: 0 <= i < |ins| ==> ins[i].Valid(p))
    requires !At(p, ins, m).readyInt && At(p, ins, m).out.Some? && !ins[m].sinkReady
    ensures !At(p, ins, m + 1).readyInt && At(p, ins, m + 1).out.Some?
  {
  }

  lemma {:induction false} ReadyBy(p: Params, ins: seq<Input>, n: nat, j: nat, k: nat, r: Req) returns (m: nat)
    requires n <= j < |ins| && (forall i :: 0 <= i < |ins| ==> ins[i].Valid(p)) && k < p.ports && ins[j].sinkReady
    requires !At(p, ins, n).readyInt && At(p, ins, n).out.Some? && At(p, ins, n).inp[k] == Some(r)
    ensures n < m <= j + 1 && At(p, ins, m).readyInt && At(p, ins, m).inp[k] == Some(r)
    decreases j - n
  {
    WaitsForGrant(p, ins, n, k);
    if ins[n].sinkReady {
      ReadyAfter(p, ins, n);
      m := n + 1;
    } else {
      NotReadyStays(p, ins, n);
      m := ReadyBy(p, ins, n + 1, j, k, r);
    }
  }

  // A request whose grant stays is passed on within b + 1 edges.
  lemma PassedWithin(p: Params, ins: seq<Input>, b: nat, n: nat, k: nat, r: Req) returns (m: nat)
    requires (forall i :: 0 <= i < |ins| ==> ins[i].Valid(p)) && Answers(p, ins, b) && b > 0 && n + b + 1 <= |ins| && k < p.ports
    requires At(p, ins, n).inp[k] == Some(r) && Granted(p, ins, k, n, n + b + 1)
    ensures n <= m <= n + b && Sends(p, ins, m + 1) == Sends(p, ins, m) + [Sent(k, r)]
  {
    NothingLostOrDuplicated(p, ins, n);
    if At(p, ins, n).readyInt {
      m := n;
    } else {
      var j :| n <= j < n + b && ins[j].sinkReady;
      m := ReadyBy(p, ins, n, j, k, r);
    }
    PassesOn(p, ins, m, k, r);
  }

  lemma {:induction false} SendsGrow(p: Params, ins: seq<Input>, m: nat, n: nat)
    requires m <= n <= |ins| && forall i :: 0 <= i < |ins| ==> ins[i].Valid(p)
    ensures |Sends(p, ins, m)| <= |Sends(p, ins, n)| && Sends(p, ins, n)[..|Sends(p, ins, m)|] == Sends(p, ins, m)
  {
    if m < n {
      SendsGrow(p, ins, m, n - 1);
      assert Sends(p, ins, n)[..|Sends(p, ins, n - 1)|] == Sends(p, ins, n - 1);
    }
  }

  // What was passed on and not yet taken is at most two, and then the output register holds one.
  lemma OnItsWay(p: Params, ins: seq<Input>, n: nat)
    requires n <= |ins| && forall i :: 0 <= i < |ins| ==> ins[i].Valid(p)
    ensures |Taken(p, ins, n)| <= |Sends(p, ins, n)| <= |Taken(p, ins, n)| + 2
    ensures |Taken(p, ins, n)| < |Sends(p, ins, n)| ==> At(p, ins, n).out.Some?
  {
    NothingLostOrDuplicated(p, ins, n);
  }

  // One more within b edges, while fewer are taken than were passed on at n.
  lemma TakenMore(p: Params, ins: seq<Input>, b: nat, n: nat, m: nat)
    requires (forall i :: 0 <= i < |ins| ==> ins[i].Valid(p)) && Answers(p, ins, b) && n <= m && m + b <= |ins|
    ensures |Taken(p, ins, m + b)| >= Min(|Sends(p, ins, n)|, |Taken(p, ins, m)| + 1)
  {
    OnItsWay(p, ins, m);
    SendsGrow(p, ins, n, m);
    TakenGrows(p, ins, m, m + b);
    if |Taken(p, ins, m)| < |Sends(p, ins, n)| { OneTaken(p, ins, b, m); }
  }

  // All that was passed on is taken within 2 b edges.
  lemma TakenBy(p: Params, ins: seq<Input>, b: nat, n: nat)
    requires (forall i :: 0 <= i < |ins| ==> ins[i].Valid(p)) && Answers(p, ins, b) && n + 2 * b <= |ins|
    ensures |Taken(p, ins, n + 2 * b)| >= |Sends(p, ins, n)|
  {
    OnItsWay(p, ins, n);
    TakenMore(p, ins, b, n, n);
    TakenMore(p, ins, b, n, n + b);
  }

  /** Under a sink that is ready within b edges of a request being put out, and a grant that stays: a request in an input
      register is taken by the sink within 3 b + 1 edges, extended by its port, and was not taken before. */
  lemma DeliveredWithin(p: Params, ins: seq<Input>, b: nat, n: nat, k: nat, r: Req) returns (j: nat)
    requires (forall i :: 0 <= i < |ins| ==> ins[i].Valid(p)) && Answers(p, ins, b) && b > 0 && n + 3 * b + 1 <= |ins| && k < p.ports
    requires At(p, ins, n).inp[k] == Some(r) && Granted(p, ins, k, n, n + b + 1)
    ensures |Taken(p, ins, n)| <= j < |Taken(p, ins, n + 3 * b + 1)| && Taken(p, ins, n + 3 * b + 1)[j] == Extend(p, k, r)
  {
    var m := PassedWithin(p, ins, b, n, k, r);
    j := |Sends(p, ins, m)|;
    OnItsWay(p, ins, n);
    SendsGrow(p, ins, n, m);
    TakenBy(p, ins, b, m + 1);
    TakenGrows(p, ins, m + 1 + 2 * b, n + 3 * b + 1);
    SentIsTaken(p, ins, m + 1, n + 3 * b + 1, j);
  }

  lemma SentIsTaken(p: Params, ins: seq<Input>, m: nat, z: nat, j: nat)
    requires m <= z <= |ins| && forall i :: 0 <= i < |ins| ==> ins[i].Valid(p)
    requires j < |Sends(p, ins, m)| && j < |Taken(p, ins, z)|
    ensures Taken(p, ins, z)[j] == Extend(p, Sends(p, ins, m)[j].port, Sends(p, ins, m)[j].req)
  {
    SendsGrow(p, ins, m, z);
    assert Sends(p, ins, z)[j] == Sends(p, ins, z)[..|Sends(p, ins, m)|][j];
    NothingLostOrDuplicated(p, ins, z);
    DeliveredIsSent(p, Runs(p, ins, z).0, Runs(p, ins, z).1, j);
  }
}

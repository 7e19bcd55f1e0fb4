/**
 The transmit ring under the fine interleaving of TxFlow: the slots, freed out of order by polls, behind the counters
 that the two paths publish.
 */
module TxShared {
  import opened Arith
  import opened RingWindow
  import T = TxFlow

  // freed and items are bookkeeping: the positions emptied so far, and what was sent.
  datatype Shared = Shared(f: T.Flow, slots: seq<Option<nat>>, freed: set<nat>, items: seq<nat>)

  datatype Step =
    | Transmit(skb: nat)          // map the skb into the producer's slot and advance
    | Free(slot: nat)             // a poll frees a completed slot
    | Publish(n: nat)             // and publishes a consumer pointer that has passed only freed slots
    | Flow(a: T.Step)             // the steps of stop, test and wake

  ghost predicate CanStep(s: Shared, x: Step)
  {
    && |s.slots| > 0 && s.f.cons <= s.f.prod
    && match x
       case Transmit(_) => T.CanStep(s.f, T.Begin)
       case Free(k) => s.f.p.PIdle? && k < |s.slots| && s.slots[k].Some?
       case Publish(n) => s.f.p.PIdle? && s.f.cons + n <= Frontier(s.f.prod, s.f.cons, s.freed)
       case Flow(a) => (a.Advance? || a.PollOn?) && T.CanStep(s.f, a)
  }

  ghost function Next(s: Shared, x: Step): Shared
    requires CanStep(s, x)
  {
    match x
    case Transmit(skb) =>
      s.(f := T.Next(s.f, T.Begin), slots := s.slots[s.f.prod % |s.slots| := Some(skb)], items := s.items + [skb])
    case Free(k) =>
      s.(slots := s.slots[k := None], freed := s.freed + {PositionOf(s.f.cons, k, |s.slots|)})
    case Publish(n) => s.(f := T.Next(s.f, T.Publish(n)))
    case Flow(a) => s.(f := T.Next(s.f, a))
  }

  ghost predicate Inv(s: Shared)
  {
    T.Inv(s.f) && |s.slots| == Pow2(s.f.logSize) && Window(s.slots, s.f.prod, s.f.cons, s.freed, s.items)
  }

  function Start(logSize: nat): Shared { Shared(T.Start(logSize), seq(Pow2(logSize), _ => None), {}, []) }

  lemma StartInv(logSize: nat)
    requires 1 <= logSize <= 15
    ensures Inv(Start(logSize))
  {
    T.StartInv(logSize);
    var s := Start(logSize);
    forall i | 0 <= i < |s.slots|
      ensures Holds(s.slots, i, 0, {}, [])
    {
      DivModUnique(i, |s.slots|, 0, i);
    }
  }

  // The consumer passes n freed positions.
  lemma {:induction false} SkipMany(slots: seq<Option<nat>>, sent: nat, done: nat, freed: set<nat>, items: seq<nat>, n: nat)
    requires Window(slots, sent, done, freed, items) && done + n <= Frontier(sent, done, freed)
    ensures Window(slots, sent, done + n, freed, items)
    decreases n
  {
    if n > 0 {
      assert Holds(slots, done, sent, freed, items) && done in freed;
      Skip(slots, sent, done, freed, items);
      SkipMany(slots, sent, done + 1, freed, items, n - 1);
    }
  }

  lemma StepKeepsInv(s: Shared, x: Step)
    requires Inv(s) && CanStep(s, x)
    ensures Inv(Next(s, x))
  {
    match x
    case Transmit(skb) =>
      HasRoom(s);
      T.StepKeepsInv(s.f, T.Begin);
      Fill(s.slots, s.f.prod, s.f.cons, s.freed, s.items, skb);
    case Free(k) => Empty(s.slots, s.f.prod, s.f.cons, s.freed, s.items, k);
    case Publish(n) =>
      T.StepKeepsInv(s.f, T.Publish(n));
      SkipMany(s.slots, s.f.prod, s.f.cons, s.freed, s.items, n);
    case Flow(a) => T.StepKeepsInv(s.f, a);
  }

  // Between transmits there is room in the ring.
  lemma HasRoom(s: Shared)
    requires Inv(s) && T.CanStep(s.f, T.Begin)
    ensures s.f.prod < s.f.cons + |s.slots|
  {
    T.FullIsExact(s.f);
  }

  ghost predicate Runs(s: Shared, steps: seq<Step>, r: Shared)
    decreases |steps|
  {
    if steps == [] then r == s else CanStep(s, steps[0]) && Runs(Next(s, steps[0]), steps[1..], r)
  }

  lemma {:induction false} RunKeepsInv(s: Shared, steps: seq<Step>, r: Shared)
    requires Inv(s) && Runs(s, steps, r)
    ensures Inv(r)
    decreases |steps|
  {
    if steps != [] {
      StepKeepsInv(s, steps[0]);
      RunKeepsInv(Next(s, steps[0]), steps[1..], r);
    }
  }

  /** Slot ownership under every interleaving of transmit and poll: a transmit that may begin finds its slot empty,
      slots outside the window are empty, and a poll frees a position that was not freed before. */
  lemma SlotsAreOwned(logSize: nat, steps: seq<Step>, r: Shared, k: nat)
    requires 1 <= logSize <= 15 && Runs(Start(logSize), steps, r)
    ensures |r.slots| == Pow2(r.f.logSize) && r.f.prod <= r.f.cons + |r.slots| && |r.items| == r.f.prod
    ensures T.CanStep(r.f, T.Begin) ==> r.slots[r.f.prod % |r.slots|] == None
    ensures k < |r.slots| ==>
      var i := PositionOf(r.f.cons, k, |r.slots|);
      && (r.slots[k].Some? <==> i < r.f.prod && i !in r.freed)
      && (r.slots[k].Some? ==> r.slots[k].value == r.items[i])
  {
    StartInv(logSize);
    RunKeepsInv(Start(logSize), steps, r);
    if T.CanStep(r.f, T.Begin) {
      HasRoom(r);
      Fill(r.slots, r.f.prod, r.f.cons, r.freed, r.items, 0);
    }
    if k < |r.slots| { SlotMeaning(r.slots, r.f.prod, r.f.cons, r.freed, r.items, k); }
  }

  // ---- it drains ----

  lemma {:induction false} RunsThen(s: Shared, steps: seq<Step>, m: Shared, x: Step)
    requires Runs(s, steps, m) && CanStep(m, x)
    ensures Runs(s, steps + [x], Next(m, x))
    decreases |steps|
  {
    if steps == [] {
      assert ([] + [x])[1..] == [];
    } else {
      assert (steps + [x])[1..] == steps[1..] + [x];
      RunsThen(Next(s, steps[0]), steps[1..], m, x);
    }
  }

  // One step more, which keeps the invariant.
  lemma Then(s: Shared, steps: seq<Step>, m: Shared, x: Step) returns (more: seq<Step>, r: Shared)
    requires Runs(s, steps, m) && Inv(m) && CanStep(m, x)
    ensures more == steps + [x] && r == Next(m, x) && Runs(s, more, r) && Inv(r)
  {
    RunsThen(s, steps, m, x);
    StepKeepsInv(m, x);
    more, r := steps + [x], Next(m, x);
  }

  // How many steps the two routines are away from their end.
  function StepsLeft(f: T.Flow): nat {
    (match f.x case XIdle => 0 case XWake => 1 case XRetest => 2 case XStop => 3 case XTest => 4)
    + match f.p case PIdle => 0 case PWake => 1 case PFull => 2 case PStopped => 3
  }

  // Both routines run to their end.
  lemma {:induction false} Settle(o: Shared, steps: seq<Step>, s: Shared) returns (more: seq<Step>, r: Shared)
    requires Runs(o, steps, s) && Inv(s)
    ensures Runs(o, more, r) && Inv(r) && r.f.x.XIdle? && r.f.p.PIdle? && |more| <= |steps| + StepsLeft(s.f)
    ensures r == s.(f := r.f) && r.f.prod == s.f.prod && r.f.cons == s.f.cons && r.f.logSize == s.f.logSize
    decreases StepsLeft(s.f), 0
  {
    more, r := steps, s;
    if !s.f.x.XIdle? {
      more, r := Then(o, steps, s, Flow(T.Advance));
      more, r := Settle(o, more, r);
    } else if !s.f.p.PIdle? {
      more, r := Then(o, steps, s, Flow(T.PollOn));
      more, r := Settle(o, more, r);
    }
  }

  // The slots from k on are freed.
  lemma {:induction false} FreeFrom(o: Shared, steps: seq<Step>, s: Shared, k: nat) returns (more: seq<Step>, r: Shared)
    requires Runs(o, steps, s) && Inv(s) && s.f.p.PIdle? && k <= |s.slots|
    requires forall i :: 0 <= i < k ==> s.slots[i] == None
    ensures Runs(o, more, r) && Inv(r) && r.f == s.f && |r.slots| == |s.slots| && |more| <= |steps| + |s.slots| - k
    ensures forall i :: 0 <= i < |r.slots| ==> r.slots[i] == None
    decreases |s.slots| - k
  {
    more, r := steps, s;
    if k < |s.slots| {
      if s.slots[k].Some? { more, r := Then(o, steps, s, Free(k)); }
      more, r := FreeFrom(o, more, r, k + 1);
    }
  }

  // With every slot empty the consumer may pass all that was sent.
  lemma AllFreed(s: Shared)
    requires Inv(s) && forall i :: 0 <= i < |s.slots| ==> s.slots[i] == None
    ensures s.f.cons <= s.f.prod && Frontier(s.f.prod, s.f.cons, s.freed) == s.f.prod
  {
    var n := Frontier(s.f.prod, s.f.cons, s.freed);
    assert Holds(s.slots, n, s.f.prod, s.freed, s.items);
  }

  /** The ring always drains, and a stopped queue always runs again: from every reachable state, once both routines have
      ended, a poll that frees the occupied slots and publishes its pointer leads to an empty ring and a running queue. */
  lemma RingDrains(logSize: nat, before: seq<Step>, s: Shared) returns (steps: seq<Step>, r: Shared)
    requires 1 <= logSize <= 15 && Runs(Start(logSize), before, s)
    ensures Runs(Start(logSize), steps, r) && |steps| <= |before| + 11 + |s.slots|
    ensures r.f.prod == r.f.cons == s.f.prod && !r.f.stopped && r.f.x.XIdle? && r.f.p.PIdle? && T.CanStep(r.f, T.Begin)
    ensures |r.slots| == |s.slots| && forall i :: 0 <= i < |r.slots| ==> r.slots[i] == None
  {
    var o := Start(logSize);
    StartInv(logSize);
    RunKeepsInv(o, before, s);
    steps, r := Settle(o, before, s);
    steps, r := FreeFrom(o, steps, r, 0);
    AllFreed(r);
    steps, r := Then(o, steps, r, Publish(r.f.prod - r.f.cons));
    steps, r := Settle(o, steps, r);
    T.FullIsExact(r.f);
  }
}

/**
 Stop and wake of a transmit queue: the steps of mqnic_start_xmit (advance, full test, stop, re-test, wake)
 interleaved with the steps of mqnic_process_tx_cq (publish the consumer, read the stopped flag, full test,
 wake), one memory access at a time.
 */
module TxFlow {
  import opened Arith
  import RingWindow

  datatype Xmit = XIdle | XTest | XStop | XRetest | XWake
  datatype Poll = PIdle | PStopped | PFull | PWake

  // prod and cons are the unbounded counters behind the two 32-bit pointers; stale records that a poll has woken the
  // queue while the ring was full, and that nothing was freed and the queue not stopped since.
  datatype Flow = Flow(logSize: nat, prod: nat, cons: nat, stopped: bool, x: Xmit, p: Poll, stale: bool)

  datatype Step = Begin | Advance | Publish(freed: nat) | PollOn | WholePoll(freed: nat)

  function Half(s: Flow): nat { Pow2(s.logSize) / 2 }

  // mqnic_is_tx_ring_full on the 32-bit pointers.
  predicate Full(s: Flow) {
    (s.prod % U32 - s.cons % U32) % U32 >= Half(s)
  }

  function Start(logSize: nat): Flow { Flow(logSize, 0, 0, false, XIdle, PIdle, false) }

  // The network stack calls transmit on a running queue; a poll frees no more than was sent.
  predicate CanStep(s: Flow, a: Step) {
    match a
    case Begin => s.x.XIdle? && !s.stopped
    case Advance => !s.x.XIdle?
    case Publish(n) => s.p.PIdle? && s.cons + n <= s.prod
    case PollOn => !s.p.PIdle?
    case WholePoll(n) => s.p.PIdle? && s.cons + n <= s.prod
  }

  function Next(s: Flow, a: Step): Flow {
    match a
    case Begin => s.(prod := s.prod + 1, x := XTest)
    case Advance =>
      (match s.x
       case XTest => s.(x := if Full(s) then XStop else XIdle)
       case XStop => s.(stopped := true, x := XRetest, stale := false)
       case XRetest => s.(x := if Full(s) then XIdle else XWake)
       case _ => s.(stopped := false, x := XIdle))
    case Publish(n) => s.(cons := s.cons + n, p := PStopped, stale := s.stale && n == 0)
    case PollOn =>
      (match s.p
       case PStopped => s.(p := if s.stopped then PFull else PIdle)
       case PFull => s.(p := if Full(s) then PIdle else PWake)
       case _ => s.(stopped := false, p := PIdle, stale := s.stale || Full(s)))
    case WholePoll(n) =>
      var r := s.(cons := s.cons + n, stale := s.stale && n == 0);
      if r.stopped && !Full(r) then r.(stopped := false) else r
  }

  // ---- invariants ----

  function Used(s: Flow): int { s.prod - s.cons }

  ghost predicate Inv(s: Flow) {
    && 1 <= s.logSize <= 15 && 0 <= Used(s) <= Half(s) + 1
    // a poll that has decided to wake saw room; the ring fills to half at most before it wakes
    && (s.p.PWake? ==> Used(s) <= Half(s))
    && (s.x.XWake? ==> Used(s) < Half(s))
    && ((s.x.XIdle? || s.x.XRetest?) && !s.stopped ==> Used(s) <= Half(s))
    && (s.x.XIdle? && !s.stopped && s.p.PWake? ==> Used(s) < Half(s))
    && (s.x.XRetest? && !s.stopped ==> s.p.PIdle? || s.p.PStopped?)
    && (s.x.XTest? || s.x.XStop? ==> !s.stopped)
    // a stopped queue is full, or someone is on the way to look again
    && (s.x.XIdle? && s.stopped && Used(s) < Half(s) ==> !s.p.PIdle?)
    // a stale wake is one at a full ring, and without one the running queue is strictly below half
    && (s.stale ==> Used(s) >= Half(s))
    && (!s.stale && s.x.XIdle? && !s.stopped ==> Used(s) < Half(s))
    && (!s.stale && s.x.XRetest? && !s.stopped ==> Used(s) < Half(s))
  }

  lemma FullIsExact(s: Flow)
    requires 1 <= s.logSize <= 15 && 0 <= Used(s) <= Half(s) + 1
    ensures Full(s) <==> Used(s) >= Half(s)
    ensures 1 <= Half(s) < Pow2(s.logSize)
  {
    assert Pow2(s.logSize) == 2 * Pow2(s.logSize - 1);
    RingWindow.PointerArithmetic(s.prod, s.cons, s.logSize);
  }

  lemma StepKeepsInv(s: Flow, a: Step)
    requires Inv(s) && CanStep(s, a)
    ensures Inv(Next(s, a))
  {
    FullIsExact(s);
    if a.WholePoll? { FullIsExact(s.(cons := s.cons + a.freed, stale := s.stale && a.freed == 0)); }
  }

  ghost predicate Runs(s: Flow, steps: seq<Step>, r: Flow)
    decreases |steps|
  {
    if steps == [] then r == s else CanStep(s, steps[0]) && Runs(Next(s, steps[0]), steps[1..], r)
  }

  lemma {:induction false} RunKeepsInv(s: Flow, steps: seq<Step>, r: Flow)
    requires Inv(s) && Runs(s, steps, r)
    ensures Inv(r)
    decreases |steps|
  {
    if steps != [] {
      StepKeepsInv(s, steps[0]);
      RunKeepsInv(Next(s, steps[0]), steps[1..], r);
    }
  }

  lemma StartInv(logSize: nat)
    requires 1 <= logSize <= 15
    ensures Inv(Start(logSize))
  {
    FullIsExact(Start(logSize));
  }

  /** Safety in every interleaving: a transmit that begins finds its slot free, with at most half the ring in
      use, and the ring never holds more than half of its size plus one. */
  lemma TransmitHasRoom(logSize: nat, steps: seq<Step>, r: Flow)
    requires 1 <= logSize <= 15 && Runs(Start(logSize), steps, r)
    ensures Used(r) <= Half(r) + 1 <= Pow2(r.logSize)
    ensures CanStep(r, Begin) ==> Used(r) <= Half(r) < Pow2(r.logSize)
  {
    StartInv(logSize);
    RunKeepsInv(Start(logSize), steps, r);
    FullIsExact(r);
  }

  /** No lost wake: when neither routine is running, a stopped queue is really full. */
  lemma StoppedMeansFull(logSize: nat, steps: seq<Step>, r: Flow)
    requires 1 <= logSize <= 15 && Runs(Start(logSize), steps, r)
    requires r.x.XIdle? && r.p.PIdle? && r.stopped
    ensures Full(r) && Used(r) >= Half(r)
  {
    StartInv(logSize);
    RunKeepsInv(Start(logSize), steps, r);
    FullIsExact(r);
  }

  // A poll whose flag test and wake are not separated from its publish makes no stale wake.
  lemma {:induction false} WholePollsAreNeverStale(s: Flow, steps: seq<Step>, r: Flow)
    requires Runs(s, steps, r) && s.p.PIdle?
    requires forall k :: 0 <= k < |steps| ==> !steps[k].Publish?
    ensures (r.stale ==> s.stale) && r.p.PIdle?
    decreases |steps|
  {
    if steps != [] { WholePollsAreNeverStale(Next(s, steps[0]), steps[1..], r); }
  }

  /** A running queue between transmits is strictly below half full if and only if there is no stale wake: no poll has
      woken it while the ring was full, with nothing freed and no stop since. Polls taken as one step make none. */
  lemma RunningMeansBelowHalf(logSize: nat, steps: seq<Step>, r: Flow)
    requires 1 <= logSize <= 15 && Runs(Start(logSize), steps, r) && r.x.XIdle? && !r.stopped
    ensures Used(r) < Half(r) <==> !r.stale
    ensures (forall k :: 0 <= k < |steps| ==> !steps[k].Publish?) ==> Used(r) < Half(r)
  {
    StartInv(logSize);
    RunKeepsInv(Start(logSize), steps, r);
    if forall k :: 0 <= k < |steps| ==> !steps[k].Publish? {
      WholePollsAreNeverStale(Start(logSize), steps, r);
    }
  }

  lemma {:induction false} RunsThen(s: Flow, steps: seq<Step>, m: Flow, a: Step)
    requires Runs(s, steps, m) && CanStep(m, a)
    ensures Runs(s, steps + [a], Next(m, a))
    decreases |steps|
  {
    if steps == [] {
      assert ([] + [a])[1..] == [];
    } else {
      assert (steps + [a])[1..] == steps[1..] + [a];
      RunsThen(Next(s, steps[0]), steps[1..], m, a);
    }
  }

  ghost predicate OnlyThen(steps: seq<Step>, first: Step, rest: Step) {
    steps != [] && steps[0] == first && forall k :: 0 < k < |steps| ==> steps[k] == rest
  }

  /** A transmit alone: two steps while the ring stays below half, and nothing but the producer moves; four when it gets
      there, and the queue is then stopped. */
  lemma TransmitAlone(s: Flow) returns (steps: seq<Step>, r: Flow)
    requires Inv(s) && s.x.XIdle? && !s.stopped
    ensures Runs(s, steps, r) && OnlyThen(steps, Begin, Advance) && r.prod == s.prod + 1 && r.x.XIdle?
    ensures Used(r) < Half(r) ==> |steps| == 2 && r == s.(prod := r.prod)
    ensures Used(r) >= Half(r) ==> |steps| == 4 && r == s.(prod := r.prod, stopped := true, stale := false)
  {
    steps, r := Then(s, [], s, Begin);
    FullIsExact(r);
    steps, r := Then(s, steps, r, Advance);
    if !r.x.XIdle? {
      steps, r := Then(s, steps, r, Advance);
      FullIsExact(r);
      steps, r := Then(s, steps, r, Advance);
    }
  }

  // The steps of a poll, one after the other, do what the poll taken as one step does.
  lemma PollSteps(s: Flow, freed: nat) returns (steps: seq<Step>, r: Flow)
    requires CanStep(s, Publish(freed))
    ensures Runs(s, steps, r) && OnlyThen(steps, Publish(freed), PollOn) && |steps| <= 4
    ensures r == Next(s, WholePoll(freed))
  {
    var m := s.(cons := s.cons + freed, stale := s.stale && freed == 0);
    steps, r := Then(s, [], s, Publish(freed));
    steps, r := Then(s, steps, r, PollOn);
    if s.stopped {
      assert r == m.(p := PFull);
      steps, r := Then(s, steps, r, PollOn);
      if !Full(m) {
        assert r == m.(p := PWake);
        steps, r := Then(s, steps, r, PollOn);
      }
    }
  }

  /** A poll alone: it leaves the queue stopped exactly when it was and the ring is still at half, and moves nothing but
      the consumer. */
  lemma PollAlone(s: Flow, freed: nat) returns (steps: seq<Step>, r: Flow)
    requires Inv(s) && s.p.PIdle? && s.cons + freed <= s.prod
    ensures Runs(s, steps, r) && OnlyThen(steps, Publish(freed), PollOn) && |steps| <= 4
    ensures r == s.(cons := s.cons + freed, stopped := s.stopped && Used(r) >= Half(r), stale := s.stale && freed == 0)
  {
    FullIsExact(s.(cons := s.cons + freed, stale := s.stale && freed == 0));
    steps, r := PollSteps(s, freed);
  }

  /** The strict bound does fail when a poll is split: on a two-slot ring the transmit path stops and wakes the
      queue itself, fills the ring again and stops, and only then does the poll's wake arrive. */
  lemma StrictBoundFails() returns (steps: seq<Step>, r: Flow)
    ensures Runs(Start(1), steps, r) && r.x.XIdle? && r.p.PIdle? && !r.stopped && Used(r) == Half(r) && r.stale
  {
    var s := Start(1);
    assert Pow2(1) == 2 * Pow2(0) == 2;
    steps := [];
    r := s;
    // transmit, full, stop; the poll publishes, sees the flag and the room
    steps, r := Then(s, steps, r, Begin);
    steps, r := Then(s, steps, r, Advance);
    steps, r := Then(s, steps, r, Advance);
    assert r == Flow(1, 1, 0, true, XRetest, PIdle, false);
    steps, r := Then(s, steps, r, Publish(1));
    steps, r := Then(s, steps, r, PollOn);
    steps, r := Then(s, steps, r, PollOn);
    assert r == Flow(1, 1, 1, true, XRetest, PWake, false);
    // the transmit path wakes by itself, sends again, fills the ring and stops
    steps, r := Then(s, steps, r, Advance);
    steps, r := Then(s, steps, r, Advance);
    assert r == Flow(1, 1, 1, false, XIdle, PWake, false);
    steps, r := Then(s, steps, r, Begin);
    steps, r := Then(s, steps, r, Advance);
    steps, r := Then(s, steps, r, Advance);
    steps, r := Then(s, steps, r, Advance);
    assert r == Flow(1, 2, 1, true, XIdle, PWake, false);
    // the late wake
    steps, r := Then(s, steps, r, PollOn);
  }

  lemma Then(s: Flow, steps: seq<Step>, m: Flow, a: Step) returns (more: seq<Step>, r: Flow)
    requires Runs(s, steps, m) && CanStep(m, a)
    ensures more == steps + [a] && r == Next(m, a) && Runs(s, more, r)
  {
    RunsThen(s, steps, m, a);
    more, r := steps + [a], Next(m, a);
  }
}

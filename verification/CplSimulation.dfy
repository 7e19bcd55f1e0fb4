/**
 The serial queue manager implements the first-in first-out list of CplFifo: 16-bit pointers are
 residues of the counters, table slots hold the list in cyclic order, and the one stored index per
 queue finds that queue's youngest operation.
 */
module CplSimulation {
  import opened Arith
  import opened CplQueueManager
  import F = CplFifo

  // What table slot t holds.
  ghost predicate HoldsSlot(m: Manager, a: F.Fifo, t: nat)
    requires m.table.Valid(|m.ram|) && t < |m.table.active| == a.entries && a.first < a.entries
  {
    var d := F.Distance(a.first, t, a.entries);
    && m.table.active[t] == (d < |a.ops|)
    && (d < |a.ops| ==>
          m.table.commit[t] == a.ops[d].committed && m.table.queue[t] == a.ops[d].queue
          && m.table.ptr[t] == a.ops[d].ptr % PTR)
  }

  ghost predicate HoldsWord(w: QueueWord, q: F.Queue) {
    w.prod == q.fin % PTR && w.cons == q.cons % PTR && w.eqn == q.eqn && w.flags == q.flags && w.base == q.base
  }

  // The stored index of a queue with operations outstanding names its youngest one.
  ghost predicate HoldsIndex(m: Manager, a: F.Fifo, i: nat)
    requires i < |a.ops| && a.ops[i].queue < |m.ram| && a.entries > 0
  {
    F.IsLast(a.ops, i) ==> m.ram[a.ops[i].queue].opIndex == a.Tag(i)
  }

  ghost predicate Simulates(m: Manager, a: F.Fifo) {
    && m.Valid() && F.Valid(a)
    && |m.ram| == |a.queues| && |m.table.active| == a.entries <= 256
    && m.table.finish == a.first && m.table.start == F.Slot(a.first, if |a.ops| < a.entries then |a.ops| else 0, a.entries)
    && (forall t :: 0 <= t < a.entries ==> HoldsSlot(m, a, t))
    && (forall q :: 0 <= q < |m.ram| ==> HoldsWord(m.ram[q], a.queues[q]))
    && (forall i :: 0 <= i < |a.ops| ==> HoldsIndex(m, a, i))
  }

  lemma TagHolds(m: Manager, a: F.Fifo, i: nat)
    requires Simulates(m, a) && i < |a.ops|
    ensures a.Tag(i) < a.entries
    ensures
      var t := a.Tag(i);
      m.table.active[t] && m.table.commit[t] == a.ops[i].committed && m.table.queue[t] == a.ops[i].queue
      && m.table.ptr[t] == a.ops[i].ptr % PTR
  {
    assert HoldsSlot(m, a, a.Tag(i));
    assert F.Distance(a.first, a.Tag(i), a.entries) == i;
  }

  lemma IndexInRange(m: Manager, a: F.Fifo, q: nat)
    requires Simulates(m, a) && q < |m.ram|
    ensures m.ram[q].opIndex < a.entries ==> m.ram[q].opIndex % |m.table.active| == m.ram[q].opIndex
    ensures m.ram[q].opIndex % |m.table.active| < |m.table.active|
  {
    SmallMod(m.ram[q].opIndex, |m.table.active|);
  }

  lemma SmallMod(x: int, n: int)
    requires 0 <= x && n > 0
    ensures 0 <= x % n < n && (x < n ==> x % n == x)
  {
    if x < n { DivModUnique(x, n, 0, x); }
  }

  lemma OwnedWhenOutstanding(m: Manager, a: F.Fifo, q: nat)
    requires Simulates(m, a) && q < |m.ram| && F.Count(a.ops, q) > 0
    ensures m.table.Owns(m.ram[q], q) && m.table.ActivePtr(m.ram[q], q) == a.Started(q) % PTR
  {
    var i := F.FindLast(a.ops, q);
    assert HoldsIndex(m, a, i);
    TagHolds(m, a, i);
    F.LastHoldsStarted(a, i);
    IndexInRange(m, a, q);
  }

  lemma NotOwnedWhenIdle(m: Manager, a: F.Fifo, q: nat, x: nat)
    requires Simulates(m, a) && q < |m.ram| && F.Count(a.ops, q) == 0 && x < a.entries
    ensures !(m.table.active[x] && m.table.queue[x] == q)
  {
    F.CountNone(a.ops, q);
    assert HoldsSlot(m, a, x);
  }

  /** Active pointer recovery: the stored index and the owner check give the pointer after the last started
      operation of the queue, whatever other queues did to the table meanwhile. */
  lemma ActivePointerRecovered(m: Manager, a: F.Fifo, q: nat)
    requires Simulates(m, a) && q < |m.ram|
    ensures m.table.ActivePtr(m.ram[q], q) == a.Started(q) % PTR
    ensures m.table.Owns(m.ram[q], q) <==> F.Count(a.ops, q) > 0
  {
    if F.Count(a.ops, q) > 0 {
      OwnedWhenOutstanding(m, a, q);
    } else {
      IndexInRange(m, a, q);
      NotOwnedWhenIdle(m, a, q, m.ram[q].opIndex % |m.table.active|);
      assert HoldsWord(m.ram[q], a.queues[q]);
    }
  }

  // The distance between the pointers of an enabled queue is far below 2^16.
  lemma PointersClose(a: F.Fifo, q: nat)
    requires F.Valid(a) && a.entries <= 256 && q < |a.queues| && a.queues[q].flags.enable
    ensures 1 <= a.queues[q].Size() <= 32768
    ensures 0 <= a.Started(q) - a.queues[q].cons <= a.queues[q].Size()
    ensures a.queues[q].fin < a.queues[q].cons + PTR && a.queues[q].cons < a.queues[q].fin + PTR
  {
    Pow2Monotone(a.queues[q].flags.logSize, 15);
    assert Pow2(15) == 32768;
    assert F.Occupied(a, q);
    F.CountNone(a.ops, q);
  }

  // Phase bit and slot computed from the 16-bit pointer are those of the unbounded counter.
  lemma SlotAndPhase(n: nat, logSize: nat)
    requires logSize < 16
    ensures (n % PTR) % Pow2(logSize) == n % Pow2(logSize)
    ensures ((n % PTR) / Pow2(logSize)) % 2 == (n / Pow2(logSize)) % 2
  {
    var half := Pow2(15 - logSize);
    Laps(logSize);
    LowDigits(n, Pow2(logSize), half, PTR);
  }

  lemma Laps(logSize: nat)
    requires logSize < 16
    ensures PTR == Pow2(logSize) * (2 * Pow2(15 - logSize))
  {
    Pow2Split(logSize, 15);
    assert Pow2(15) == 32768;
    DoubleProduct(Pow2(logSize), Pow2(15 - logSize));
  }

  lemma LowDigits(n: nat, size: nat, half: nat, all: nat)
    requires size > 0 && half > 0 && all == size * (2 * half)
    ensures all > 0 && (n % all) % size == n % size
    ensures ((n % all) / size) % 2 == (n / size) % 2
  {
    ModOfMod(n, size, 2 * half);
    ModOfMod(n / size, 2, half);
  }

  // The full flag of the response is the true occupancy test.
  lemma FullIsExact(a: F.Fifo, q: nat)
    requires F.Valid(a) && a.entries <= 256 && q < |a.queues| && a.queues[q].flags.enable
    ensures Full(a.Started(q) % PTR, a.queues[q].cons % PTR, a.queues[q].flags.logSize)
            <==> a.Started(q) - a.queues[q].cons >= a.queues[q].Size()
  {
    PointersClose(a, q);
    var d, size := a.Started(q) - a.queues[q].cons, a.queues[q].Size();
    ModDistance(a.Started(q), a.queues[q].cons, PTR);
    if d >= size { DivModUnique(d, size, 1, 0); } else { DivModUnique(d, size, 0, d); }
  }

  // The response of the hardware says what the list machine answers.
  ghost predicate Says(r: Response, x: F.Answer, base: nat, cplSize: nat) {
    && r.ptr == x.index % PTR && r.phase == x.phase && r.opTag == x.tag
    && r.addr == (base + x.slot * cplSize) % ADDRESS_SPACE
    && r.full == x.full && r.error == x.error
  }

  // What the last stage decides for a request, from the counter value its queue has reached.
  lemma RequestDecides(t: Table, w: QueueWord, q: nat, tag: nat, cplSize: nat, x: F.Answer)
    requires |t.active| == |t.queue| == |t.ptr| > 0 && w.Valid() && t.start < 256
    requires t.ActivePtr(w, q) == x.index % PTR && x.tag == t.start && x.error == !w.flags.enable
    requires x.phase == ((x.index / Pow2(w.flags.logSize)) % 2 == 0) && x.slot == x.index % Pow2(w.flags.logSize)
    requires x.full == (w.flags.enable && Full(x.index % PTR, w.cons, w.flags.logSize))
    ensures
      var e := ExecuteRequest(t, w, q, tag, cplSize);
      var ok := !x.full && !x.error;
      && e.response.Some? && Says(e.response.value, x, w.BaseAddr(), cplSize)
      && e.response.value.tag == tag && e.response.value.queue == q && e.response.value.eqn == w.eqn
      && e.event == None && e.be == NOTHING.(opIndex := ok) && e.data.opIndex == t.start && |e.data.base| == 7
      && e.starts == if ok then Some((x.index + 1) % PTR) else None
  {
    SlotAndPhase(x.index, w.flags.logSize);
    ModAdd(x.index, 1, PTR);
  }

  // The dispatch guard on the start slot is that the list has room, and that slot is the next tag.
  lemma StartIsNextTag(m: Manager, a: F.Fifo)
    requires Simulates(m, a) && !m.table.active[m.table.start]
    ensures |a.ops| < a.entries && m.table.start == a.Tag(|a.ops|)
  {
    assert HoldsSlot(m, a, m.table.start);
  }

  lemma RequestAnswers(m: Manager, a: F.Fifo, q: nat, tag: nat, cplSize: nat)
    requires Simulates(m, a) && q < |m.ram| && Enabled(m, CplQueueManager.Request(q, tag))
    ensures |a.ops| < a.entries
    ensures
      var e := EffectOf(m, CplQueueManager.Request(q, tag), cplSize);
      var ok := !F.Answers(a, q).full && !F.Answers(a, q).error;
      && e.response.Some? && Says(e.response.value, F.Answers(a, q), m.ram[q].BaseAddr(), cplSize)
      && e.response.value.tag == tag && e.response.value.queue == q && e.response.value.eqn == a.queues[q].eqn
      && e.event == None && e.be == NOTHING.(opIndex := ok) && e.data.opIndex == m.table.start && |e.data.base| == 7
      && e.starts == if ok then Some((a.Started(q) + 1) % PTR) else None
  {
    StartIsNextTag(m, a);
    ActivePointerRecovered(m, a, q);
    if a.queues[q].flags.enable { FullIsExact(a, q); }
    assert HoldsWord(m.ram[q], a.queues[q]);
    RequestDecides(m.table, m.ram[q], q, tag, cplSize, F.Answers(a, q));
  }

  lemma LastOfLonger(ops: seq<F.Op>, x: F.Op, i: nat)
    requires i < |ops| && F.IsLast(ops + [x], i)
    ensures F.IsLast(ops, i) && ops[i].queue != x.queue
  {
    var all := ops + [x];
    assert all[|ops|] == x;
    assert forall j :: i < j < |ops| ==> all[j] == ops[j];
  }

  // A started operation lands in the free slot and becomes its queue's youngest.
  lemma StartSimulates(m: Manager, a: F.Fifo, q: nat, m': Manager, a': F.Fifo)
    requires Simulates(m, a) && q < |m.ram| && |a.ops| < a.entries && F.Valid(a')
    requires a' == a.(ops := a.ops + [F.Op(q, a.Started(q) + 1, false)])
    requires m' == Manager(m.ram[q := m.ram[q].(opIndex := m.table.start)],
                           m.table.Start(q, (a.Started(q) + 1) % PTR))
    ensures Simulates(m', a')
  {
    forall t | 0 <= t < a.entries ensures HoldsSlot(m', a', t) {
      assert HoldsSlot(m, a, t);
    }
    forall i | 0 <= i < |a'.ops| ensures HoldsIndex(m', a', i) {
      if i < |a.ops| {
        assert HoldsIndex(m, a, i);
        if F.IsLast(a'.ops, i) { LastOfLonger(a.ops, a'.ops[|a.ops|], i); }
      }
    }
    assert forall p :: 0 <= p < |m.ram| ==> HoldsWord(m.ram[p], a.queues[p]);
    assert m'.ram[q].Valid();
    assert m'.Valid();
  }

  lemma MergeIndex(w: QueueWord, data: QueueWord, ok: bool)
    requires |w.base| == |data.base| == 7
    ensures Merge(w, data, NOTHING.(opIndex := ok)) == if ok then w.(opIndex := data.opIndex) else w
  {
    assert Merge(w, data, NOTHING.(opIndex := ok)).base == w.base;
  }

  lemma RequestSimulates(m: Manager, a: F.Fifo, q: nat, tag: nat, cplSize: nat)
    requires Simulates(m, a) && q < |m.ram| && Enabled(m, CplQueueManager.Request(q, tag))
    ensures Simulates(Apply(m, CplQueueManager.Request(q, tag), cplSize), F.Request(a, q))
  {
    RequestAnswers(m, a, q, tag, cplSize);
    F.RequestKeepsValid(a, q);
    var op := CplQueueManager.Request(q, tag);
    var e := EffectOf(m, op, cplSize);
    var ok := !F.Answers(a, q).full && !F.Answers(a, q).error;
    assert m.ram[q].Valid() && Fits(e, op, m.ram[q]);
    MergeIndex(m.ram[q], e.data, ok);
    RequestApplies(m, a, q, op, e, ok);
  }

  lemma RequestApplies(m: Manager, a: F.Fifo, q: nat, op: StageOp, e: Effect, ok: bool)
    requires Simulates(m, a) && q < |m.ram| && |a.ops| < a.entries && op.Request? && op.queue == q
    requires Fits(e, op, m.ram[q]) && Merge(m.ram[q], e.data, e.be) == if ok then m.ram[q].(opIndex := m.table.start) else m.ram[q]
    requires e.starts == if ok then Some((a.Started(q) + 1) % PTR) else None
    requires ok <==> !F.Answers(a, q).full && !F.Answers(a, q).error
    requires F.Valid(F.Request(a, q))
    ensures Simulates(ApplyEffect(m, op, e), F.Request(a, q))
  {
    var m' := ApplyEffect(m, op, e);
    if ok {
      StartSimulates(m, a, q, m', F.Request(a, q));
    } else {
      SameManager(m, op, e);
    }
  }

  lemma SameManager(m: Manager, op: StageOp, e: Effect)
    requires op.Request? && op.queue < |m.ram| && m.Valid() && Fits(e, op, m.ram[op.queue])
    requires Merge(m.ram[op.queue], e.data, e.be) == m.ram[op.queue] && e.starts == None
    ensures ApplyEffect(m, op, e) == m
  {
    assert ApplyEffect(m, op, e).ram == m.ram;
  }

  // ---- finalize ----

  // The finalize guard is that the oldest operation exists and has been committed; its operands are that operation.
  lemma FinalizeGuard(m: Manager, a: F.Fifo, q: nat, p: nat)
    requires Simulates(m, a)
    ensures Enabled(m, CplQueueManager.Finalize(q, p)) <==>
            a.ops != [] && a.ops[0].committed && q == a.ops[0].queue && p == a.ops[0].ptr % PTR
  {
    assert HoldsSlot(m, a, a.first);
  }

  lemma FinalizeMerges(w: QueueWord, q: nat, p: nat)
    requires w.Valid()
    ensures
      var e := ExecuteFinalize(w, q, p);
      |e.data.base| == |e.be.base| == 7 &&
      Merge(w, e.data, e.be) == w.(prod := p, flags := w.flags.(armed := w.flags.armed && w.flags.continuous))
  {
    var e := ExecuteFinalize(w, q, p);
    assert Merge(w, e.data, e.be).base == w.base;
  }

  ghost predicate FinalizedTo(m: Manager, a: F.Fifo, m': Manager, a': F.Fifo) {
    && Simulates(m, a) && a.ops != [] && a' == F.Finalize(a) && F.Valid(a')
    && var q, p := a.ops[0].queue, a.ops[0].ptr % PTR;
    var w := m.ram[q];
    m' == Manager(m.ram[q := w.(prod := p, flags := w.flags.(armed := w.flags.armed && w.flags.continuous))],
                  m.table.Finish())
  }

  lemma FinalizeSlot(m: Manager, a: F.Fifo, m': Manager, a': F.Fifo, t: nat)
    requires FinalizedTo(m, a, m', a') && t < a.entries
    ensures m'.table.Valid(|m'.ram|) && HoldsSlot(m', a', t)
  {
    assert HoldsSlot(m, a, t);
    DistanceAfter(a.first, t, a.entries);
    assert F.Distance(a.first, t, a.entries) > 0 && F.Distance(a.first, t, a.entries) < |a.ops| ==>
      a'.ops[F.Distance(a'.first, t, a.entries)] == a.ops[F.Distance(a.first, t, a.entries)];
  }

  // When the oldest slot is released, every other slot is one closer, and that one is the farthest.
  lemma DistanceAfter(first: nat, t: nat, n: nat)
    requires first < n && t < n
    ensures F.Distance(F.Slot(first, 1, n), t, n) == if t == first then n - 1 else F.Distance(first, t, n) - 1
  {
  }

  lemma FinalizeIndex(m: Manager, a: F.Fifo, m': Manager, a': F.Fifo, i: nat)
    requires FinalizedTo(m, a, m', a') && i < |a'.ops|
    ensures HoldsIndex(m', a', i)
  {
    assert HoldsIndex(m, a, i + 1);
    LastShifts(a.ops, i);
    assert a'.Tag(i) == a.Tag(i + 1);
  }

  lemma LastShifts(ops: seq<F.Op>, i: nat)
    requires i + 1 < |ops|
    ensures F.IsLast(ops[1..], i) ==> F.IsLast(ops, i + 1)
  {
    if F.IsLast(ops[1..], i) {
      forall j | i + 1 < j < |ops| ensures ops[j].queue != ops[i + 1].queue { assert ops[1..][j - 1] == ops[j]; }
    }
  }

  lemma FinalizeWord(m: Manager, a: F.Fifo, m': Manager, a': F.Fifo, q: nat)
    requires FinalizedTo(m, a, m', a') && q < |m.ram|
    ensures HoldsWord(m'.ram[q], a'.queues[q]) && m'.ram[q].Valid()
  {
    assert HoldsWord(m.ram[q], a.queues[q]);
  }

  lemma FinalizeSlots(m: Manager, a: F.Fifo, m': Manager, a': F.Fifo)
    requires FinalizedTo(m, a, m', a')
    ensures Simulates(m', a')
  {
    forall t | 0 <= t < a.entries ensures m'.table.Valid(|m'.ram|) && HoldsSlot(m', a', t) { FinalizeSlot(m, a, m', a', t); }
    forall i | 0 <= i < |a'.ops| ensures HoldsIndex(m', a', i) { FinalizeIndex(m, a, m', a', i); }
    forall q | 0 <= q < |m.ram| ensures HoldsWord(m'.ram[q], a'.queues[q]) && m'.ram[q].Valid() { FinalizeWord(m, a, m', a', q); }
    assert m'.table.Valid(|m'.ram|) by { FinalizeSlot(m, a, m', a', 0); }
  }

  /** In-order finalization: the hardware finalizes the oldest operation only, moves its queue's producer
      pointer on by exactly one record, and rings iff the queue was armed. */
  lemma FinalizeSimulates(m: Manager, a: F.Fifo, q: nat, p: nat, cplSize: nat)
    requires Simulates(m, a) && Enabled(m, CplQueueManager.Finalize(q, p))
    ensures a.ops != [] && a.ops[0].committed && q == a.ops[0].queue && a.ops[0].ptr == a.queues[q].fin + 1
    ensures CplQueueManager.Finalize(q, p).Valid(|m.ram|)
    ensures Simulates(Apply(m, CplQueueManager.Finalize(q, p), cplSize), F.Finalize(a))
    ensures EffectOf(m, CplQueueManager.Finalize(q, p), cplSize).event == F.FinalizeEvent(a)
    ensures F.FinalizeEvent(a) == if a.queues[q].flags.armed then Some(Event(a.queues[q].eqn, q)) else None
  {
    FinalizeGuard(m, a, q, p);
    F.FinalizeKeepsValid(a);
    assert HoldsWord(m.ram[q], a.queues[q]);
    FinalizeMerges(m.ram[q], q, p);
    FinalizeSlots(m, a, Apply(m, CplQueueManager.Finalize(q, p), cplSize), F.Finalize(a));
  }

  // ---- commit ----

  lemma TagDistance(first: nat, i: nat, t: nat, n: nat)
    requires first < n && i < n && t < n
    ensures F.Slot(first, i, n) < n && F.Slot(first, i, n) % n == F.Slot(first, i, n)
    ensures F.Distance(first, t, n) == i <==> t == F.Slot(first, i, n)
  {
  }

  lemma CommitSlot(m: Manager, a: F.Fifo, i: nat, x: nat, t: nat)
    requires Simulates(m, a) && i < |a.ops| && t < a.entries && x == a.Tag(i)
    ensures HoldsSlot(Record(m, x), F.Commit(a, i), t)
  {
    TagDistance(a.first, i, t, a.entries);
    assert HoldsSlot(m, a, t);
    assert m.table.Record(x).commit == m.table.commit[x := true];
  }

  lemma CommitIndex(m: Manager, a: F.Fifo, i: nat, k: nat)
    requires Simulates(m, a) && i < |a.ops| && k < |a.ops|
    ensures HoldsIndex(Record(m, a.Tag(i)), F.Commit(a, i), k)
  {
    assert HoldsIndex(m, a, k);
    var ops := F.Commit(a, i).ops;
    assert forall j :: 0 <= j < |ops| ==> ops[j].queue == a.ops[j].queue;
    if F.IsLast(ops, k) {
      forall j | k < j < |a.ops| ensures a.ops[j].queue != a.ops[k].queue { assert ops[j].queue == a.ops[j].queue; }
    }
  }

  lemma CommitSimulates(m: Manager, a: F.Fifo, i: nat)
    requires Simulates(m, a) && i < |a.ops|
    ensures Simulates(Record(m, a.Tag(i)), F.Commit(a, i))
  {
    F.CommitKeepsValid(a, i);
    forall t | 0 <= t < a.entries ensures HoldsSlot(Record(m, a.Tag(i)), F.Commit(a, i), t) { CommitSlot(m, a, i, a.Tag(i), t); }
    forall k | 0 <= k < |a.ops| ensures HoldsIndex(Record(m, a.Tag(i)), F.Commit(a, i), k) { CommitIndex(m, a, i, k); }
  }

  // ---- commands ----

  // Decoding an encoded command gives the command back, on the 16-bit word.
  lemma CommandDecodes(w: QueueWord, q: nat, v: F.Queue, c: F.Command)
    requires w.Valid() && HoldsWord(w, v)
    requires (c.SetSize? ==> c.logSize < 16) && (c.SetEqn? ==> c.eqn < PTR)
    requires w.flags.enable && c.SetArm? ==> v.fin < v.cons + PTR && v.cons < v.fin + PTR
    requires w.flags.enable && c.SetConsArm? ==> v.fin < c.ptr + PTR && c.ptr < v.fin + PTR
    ensures
      var e := ExecuteCommand(w, q, F.Encode(c));
      && |e.data.base| == |e.be.base| == 7
      && HoldsWord(Merge(w, e.data, e.be), F.Obey(v, c)) && Merge(w, e.data, e.be).opIndex == w.opIndex
      && e.starts == None
      && e.event == if F.Rings(v, c) then Some(Event(v.eqn, q)) else None
  {
    var e := ExecuteCommand(w, q, F.Encode(c));
    assert Merge(w, e.data, e.be).base == w.base;
    if w.flags.enable && c.SetArm? && v.fin % PTR == v.cons % PTR { ModInjective(v.fin, v.cons, PTR); }
    if w.flags.enable && c.SetConsArm? && v.fin % PTR == c.ptr % PTR { ModInjective(v.fin, c.ptr, PTR); }
  }

  lemma CommandClose(a: F.Fifo, q: nat, c: F.Command)
    requires F.Valid(a) && a.entries <= 256 && q < |a.queues| && F.Legal(a, q, c) && a.queues[q].flags.enable
    ensures
      var v := a.queues[q];
      && v.fin < v.cons + PTR && v.cons < v.fin + PTR
      && (c.SetConsArm? ==> v.fin < c.ptr + PTR && c.ptr < v.fin + PTR)
  {
    PointersClose(a, q);
    F.CountNone(a.ops, q);
  }

  lemma CommandSimulates(m: Manager, a: F.Fifo, q: nat, c: F.Command, reg: nat, strobe: seq<bool>, cplSize: nat)
    requires Simulates(m, a) && q < |m.ram| && F.Legal(a, q, c) && 2 <= reg <= 3 && |strobe| == 4
    ensures
      var op := Write(q, reg, F.Encode(c), strobe);
      && Simulates(Apply(m, op, cplSize), F.Program(a, q, c))
      && EffectOf(m, op, cplSize).event == if F.Rings(a.queues[q], c) then Some(Event(a.queues[q].eqn, q)) else None
  {
    var op := Write(q, reg, F.Encode(c), strobe);
    var m', a' := Apply(m, op, cplSize), F.Program(a, q, c);
    F.ProgramKeepsValid(a, q, c);
    assert HoldsWord(m.ram[q], a.queues[q]);
    if a.queues[q].flags.enable { CommandClose(a, q, c); }
    CommandDecodes(m.ram[q], q, a.queues[q], c);
    WordSimulates(m, a, q, m', a');
  }

  // Changing one queue word, but not its stored index, together with its counters.
  lemma WordSimulates(m: Manager, a: F.Fifo, q: nat, m': Manager, a': F.Fifo)
    requires Simulates(m, a) && q < |m.ram| && m'.Valid() && F.Valid(a')
    requires m'.table == m.table && |m'.ram| == |m.ram| && m'.ram == m.ram[q := m'.ram[q]]
    requires m'.ram[q].opIndex == m.ram[q].opIndex
    requires |a'.queues| == |a.queues| && a' == a.(queues := a.queues[q := a'.queues[q]])
    requires HoldsWord(m'.ram[q], a'.queues[q])
    ensures Simulates(m', a')
  {
    forall t | 0 <= t < a.entries ensures HoldsSlot(m', a', t) { assert HoldsSlot(m, a, t); }
    forall k | 0 <= k < |a'.ops| ensures HoldsIndex(m', a', k) { assert HoldsIndex(m, a, k); }
    assert forall p :: 0 <= p < |m.ram| ==> HoldsWord(m.ram[p], a.queues[p]);
  }

  // A base address write (registers 0 and 1) changes the base lanes of a disabled queue and nothing else.
  lemma BaseSimulates(m: Manager, a: F.Fifo, q: nat, reg: nat, d: nat, strobe: seq<bool>, cplSize: nat)
    requires Simulates(m, a) && q < |m.ram| && reg < 2 && |strobe| == 4
    ensures
      var op := Write(q, reg, d, strobe);
      var m' := Apply(m, op, cplSize);
      && Simulates(m', a.(queues := a.queues[q := a.queues[q].(base := m'.ram[q].base)]))
      && (a.queues[q].flags.enable ==> m'.ram[q].base == m.ram[q].base)
      && EffectOf(m, op, cplSize).event == None
  {
    var op := Write(q, reg, d, strobe);
    var e := EffectOf(m, op, cplSize);
    var m' := Apply(m, op, cplSize);
    var a' := a.(queues := a.queues[q := a.queues[q].(base := m'.ram[q].base)]);
    assert HoldsWord(m.ram[q], a.queues[q]);
    assert e.be.base == NO_LANES ==> m'.ram[q].base == m.ram[q].base;
    assert forall p :: 0 <= p < |a.queues| && a'.queues[p].flags.enable ==> F.Occupied(a, p);
    assert forall i :: 0 <= i < |a.ops| ==> F.PtrOk(a, i) ==> F.PtrOk(a', i);
    WordSimulates(m, a, q, m', a');
  }

  // ---- reset ----

  function Reset(queues: nat, entries: nat): F.Fifo {
    F.Fifo(seq(queues, _ => F.Queue(0, 0, 0, BLANK.flags, BLANK.base)), [], 0, entries)
  }

  lemma ResetSimulates(queues: nat, entries: nat)
    requires queues > 0 && 0 < entries <= 256
    ensures Simulates(Initial(queues, entries), Reset(queues, entries))
  {
    var m, a := Initial(queues, entries), Reset(queues, entries);
    forall t | 0 <= t < entries ensures HoldsSlot(m, a, t) { }
  }
}

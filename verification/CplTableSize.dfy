/**
 The stored op index has 8 bits. What that means for a table with more than 256 entries: an operation started past
 entry 255 is not found again, and the hardware does get there.
 */
module CplTableSize {
  import opened Arith
  import opened CplQueueManager
  import opened CplRefinement

  // A queue with room and nothing outstanding, and a free entry for its next request.
  ghost predicate ReadyToStart(m: Manager, q: nat)
  {
    && m.Valid() && q < |m.ram| && m.ram[q].flags.enable && !m.table.active[m.table.start]
    && !Full(m.ram[q].prod, m.ram[q].cons, m.ram[q].flags.logSize)
    && (forall t :: 0 <= t < |m.table.active| && m.table.active[t] ==> m.table.queue[t] != q)
  }

  lemma IndexStart(m: Manager, q: nat)
    requires ReadyToStart(m, q)
    ensures m.table.ActivePtr(m.ram[q], q) == m.ram[q].prod
  {
    assert 0 <= m.ram[q].opIndex % |m.table.active| < |m.table.active|;
  }

  // What the request does.
  lemma StartsOperation(m: Manager, q: nat, tag: nat, cplSize: nat)
    requires ReadyToStart(m, q)
    ensures Enabled(m, Request(q, tag))
    ensures
      var r, m1, start := EffectOf(m, Request(q, tag), cplSize).response, Apply(m, Request(q, tag), cplSize), m.table.start;
      && r.Some? && !r.value.full && !r.value.error && r.value.ptr == m.ram[q].prod
      && m1.table.active == m.table.active[start := true] && m1.table.queue == m.table.queue[start := q]
      && m1.table.ptr == m.table.ptr[start := (m.ram[q].prod + 1) % PTR]
      && m1.ram[q].opIndex == start % 256 && m1.ram[q].prod == m.ram[q].prod
  {
    IndexStart(m, q);
  }

  /** In any state in which a queue with nothing outstanding starts an operation, the stored index finds it again if
      and only if the entry it got is below 256; otherwise the queue still answers with the pointer before it. */
  lemma RecoveredIffBelow256(m: Manager, q: nat, tag: nat, cplSize: nat)
    requires ReadyToStart(m, q)
    ensures Enabled(m, Request(q, tag))
    ensures
      var m1 := Apply(m, Request(q, tag), cplSize);
      && m1.table.active[m.table.start] && m1.table.queue[m.table.start] == q
      && m1.table.ptr[m.table.start] == (m.ram[q].prod + 1) % PTR
      && (m1.table.ActivePtr(m1.ram[q], q) == (m.ram[q].prod + 1) % PTR <==> m.table.start < 256)
      && (m.table.start >= 256 ==> m1.table.ActivePtr(m1.ram[q], q) == m.ram[q].prod)
  {
    StartsOperation(m, q, tag, cplSize);
    var m1, n := Apply(m, Request(q, tag), cplSize), |m.table.active|;
    StoredIndex(m.table.start, n);
    NextPointerDiffers(m.ram[q].prod);
    var x := m1.ram[q].opIndex % n;
    assert x != m.table.start ==> !(m1.table.active[x] && m1.table.queue[x] == q);
  }

  lemma StoredIndex(start: nat, n: nat)
    requires start < n
    ensures (start % 256) % n < n && ((start % 256) % n == start <==> start < 256)
  {
    if start < 256 {
      DivModUnique(start, 256, 0, start);
      DivModUnique(start, n, 0, start);
    } else {
      DivModUnique(start % 256, n, 0, start % 256);
    }
  }

  lemma NextPointerDiffers(p: nat)
    requires p < PTR
    ensures (p + 1) % PTR != p
  {
  }

  // ---- the hardware gets there ----

  // Nothing outstanding, and k operations of one queue of 512 slots have come and gone.
  ghost predicate Rounds(m: Manager, k: nat, entries: nat)
  {
    && m.Valid() && |m.ram| == 1 && |m.table.active| == entries && m.table.start == m.table.finish == k
    && (forall t :: 0 <= t < entries ==> !m.table.active[t])
    && m.ram[0].prod == k && m.ram[0].cons == 0 && m.ram[0].flags == Flags(9, false, false, true)
  }

  lemma RoundsIsReady(m: Manager, k: nat, entries: nat)
    requires Rounds(m, k, entries) && k <= 256
    ensures ReadyToStart(m, 0)
  {
    assert Pow2(9) == 512;
  }

  // Request, commit and finalize of one operation.
  lemma OneRound(m: Manager, k: nat, entries: nat, cplSize: nat)
    requires Rounds(m, k, entries) && k < 256 < entries
    ensures Enabled(m, Request(0, 0))
    ensures
      var m2 := Record(Apply(m, Request(0, 0), cplSize), k);
      && Enabled(m2, Finalize(0, k + 1)) && Finalize(0, k + 1).Valid(1)
      && Rounds(Apply(m2, Finalize(0, k + 1), cplSize), k + 1, entries)
  {
    RoundsIsReady(m, k, entries);
    StartsOperation(m, 0, 0, cplSize);
    DivModUnique(k, entries, 0, k);
  }

  // Setting the size and enabling the queue.
  lemma Setup(entries: nat, cplSize: nat) returns (s: Serial)
    requires entries > 256
    ensures SerialReaches(Initial(1, entries), [Do(Write(0, 2, 0x8002_0009, ALL_LANES)), Do(Write(0, 2, 0x4000_0101, ALL_LANES))], s, cplSize)
    ensures Rounds(s.m, 0, entries)
  {
    var start, a, b := Initial(1, entries), Do(Write(0, 2, 0x8002_0009, ALL_LANES)), Do(Write(0, 2, 0x4000_0101, ALL_LANES));
    var s0 := Serial(start, SILENT);
    SerialAppend(start, [], s0, a, cplSize);
    var s1 := SerialStep(s0, a, cplSize);
    assert [] + [a] == [a];
    SerialAppend(start, [a], s1, b, cplSize);
    s := SerialStep(s1, b, cplSize);
    assert [a] + [b] == [a, b];
  }

  // A table with more than 256 entries reaches entry 256 from reset.
  lemma {:induction false} Reaches(entries: nat, k: nat, cplSize: nat) returns (ops: seq<Atomic>, s: Serial)
    requires k <= 256 < entries
    ensures SerialReaches(Initial(1, entries), ops, s, cplSize) && Rounds(s.m, k, entries)
  {
    var start := Initial(1, entries);
    if k == 0 {
      s := Setup(entries, cplSize);
      ops := [Do(Write(0, 2, 0x8002_0009, ALL_LANES)), Do(Write(0, 2, 0x4000_0101, ALL_LANES))];
    } else {
      ops, s := Reaches(entries, k - 1, cplSize);
      OneRound(s.m, k - 1, entries, cplSize);
      var a, b, c := Do(Request(0, 0)), Commit(k - 1), Do(Finalize(0, k));
      SerialAppend(start, ops, s, a, cplSize);
      s := SerialStep(s, a, cplSize);
      SerialAppend(start, ops + [a], s, b, cplSize);
      s := SerialStep(s, b, cplSize);
      SerialAppend(start, ops + [a] + [b], s, c, cplSize);
      s := SerialStep(s, c, cplSize);
      ops := ops + [a] + [b] + [c];
    }
  }

  // An operation is outstanding at this entry, and the queue's active pointer is not the one it holds.
  ghost predicate Lost(m: Manager, q: nat, entry: nat)
  {
    && m.Valid() && q < |m.ram| && entry < |m.table.active| && m.table.active[entry] && m.table.queue[entry] == q
    && m.table.ActivePtr(m.ram[q], q) != m.table.ptr[entry]
  }

  /** So for every table of more than 256 entries there is a run from reset after which the only operation of a queue
      is not found. */
  lemma RecoveryFailsBeyond256(entries: nat, cplSize: nat) returns (ops: seq<Atomic>, s: Serial)
    requires entries > 256
    ensures SerialReaches(Initial(1, entries), ops, s, cplSize) && ReadyToStart(s.m, 0)
    ensures Lost(Apply(s.m, Request(0, 0), cplSize), 0, 256)
  {
    ops, s := Reaches(entries, 256, cplSize);
    RoundsIsReady(s.m, 256, entries);
    RecoveredIffBelow256(s.m, 0, 0, cplSize);
  }
}

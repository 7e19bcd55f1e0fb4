/**
 A descriptor ring whose slots are freed out of order while its consumer pointer moves only over freed
 slots. Positions are unbounded; slot k of the ring stands for the one position of the current window
 that is congruent to k.
 */
module RingWindow {
  import opened Arith

  // sent positions were filled with items[..], freed of them were emptied again, done is the consumer position.
  ghost predicate Window(slots: seq<Option<nat>>, sent: nat, done: nat, freed: set<nat>, items: seq<nat>) {
    && |slots| > 0 && done <= sent <= done + |slots| && |items| == sent
    && (forall i :: i in freed ==> i < sent)
    && (forall i :: 0 <= i < done ==> i in freed)
    && (forall i :: done <= i < done + |slots| ==> Holds(slots, i, sent, freed, items))
  }

  ghost predicate Holds(slots: seq<Option<nat>>, i: nat, sent: nat, freed: set<nat>, items: seq<nat>)
    requires |slots| > 0 && |items| == sent
  {
    slots[i % |slots|] == if i < sent && i !in freed then Some(items[i]) else None
  }

  // The position of the window that slot k stands for.
  function PositionOf(done: nat, k: nat, size: nat): nat
    requires size > 0
  {
    done + (k - done) % size
  }

  lemma PositionInWindow(done: nat, k: nat, size: nat)
    requires k < size
    ensures done <= PositionOf(done, k, size) < done + size
    ensures PositionOf(done, k, size) % size == k
  {
    ModAdd(k - done, done, size);
    DivModUnique(k, size, 0, k);
  }

  // Slots outside the occupied part of the window are empty, and an occupied slot holds its position's item.
  lemma SlotMeaning(slots: seq<Option<nat>>, sent: nat, done: nat, freed: set<nat>, items: seq<nat>, k: nat)
    requires Window(slots, sent, done, freed, items) && k < |slots|
    ensures
      var i := PositionOf(done, k, |slots|);
      && (slots[k].Some? <==> i < sent && i !in freed)
      && (slots[k].Some? ==> slots[k].value == items[i])
  {
    PositionInWindow(done, k, |slots|);
    assert Holds(slots, PositionOf(done, k, |slots|), sent, freed, items);
  }

  lemma OtherSlots(done: nat, size: nat, i: nat, j: nat)
    requires size > 0 && done <= i < done + size && done <= j < done + size && i != j
    ensures i % size != j % size
  {
    if i < j { DifferentResidues(j, i, size); } else { DifferentResidues(i, j, size); }
  }

  // Filling the slot at the producer position.
  lemma Fill(slots: seq<Option<nat>>, sent: nat, done: nat, freed: set<nat>, items: seq<nat>, item: nat)
    requires Window(slots, sent, done, freed, items) && sent < done + |slots|
    ensures slots[sent % |slots|] == None
    ensures Window(slots[sent % |slots| := Some(item)], sent + 1, done, freed, items + [item])
  {
    var r, items', sent' := slots[sent % |slots| := Some(item)], items + [item], sent + 1;
    assert Holds(slots, sent, sent, freed, items);
    forall i | done <= i < done + |slots| ensures Holds(r, i, sent', freed, items') {
      assert Holds(slots, i, sent, freed, items);
      if i != sent { OtherSlots(done, |slots|, i, sent); }
    }
  }

  // Emptying an occupied slot.
  lemma Empty(slots: seq<Option<nat>>, sent: nat, done: nat, freed: set<nat>, items: seq<nat>, k: nat)
    requires Window(slots, sent, done, freed, items) && k < |slots| && slots[k].Some?
    ensures
      var i := PositionOf(done, k, |slots|);
      done <= i < sent && i !in freed && Window(slots[k := None], sent, done, freed + {i}, items)
  {
    var p := PositionOf(done, k, |slots|);
    SlotMeaning(slots, sent, done, freed, items, k);
    PositionInWindow(done, k, |slots|);
    var r, freed' := slots[k := None], freed + {p};
    forall i | done <= i < done + |slots| ensures Holds(r, i, sent, freed', items) {
      assert Holds(slots, i, sent, freed, items);
      if i != p { OtherSlots(done, |slots|, i, p); }
    }
  }

  // Moving the consumer over an empty slot that had been filled.
  lemma Skip(slots: seq<Option<nat>>, sent: nat, done: nat, freed: set<nat>, items: seq<nat>)
    requires Window(slots, sent, done, freed, items) && done < sent && slots[done % |slots|] == None
    ensures done in freed && Window(slots, sent, done + 1, freed, items)
  {
    assert Holds(slots, done, sent, freed, items);
    AddMultiple(done, 1, |slots|);
    forall i | done + 1 <= i < done + 1 + |slots| ensures Holds(slots, i, sent, freed, items) {
      if i < done + |slots| { assert Holds(slots, i, sent, freed, items); }
    }
  }

  // Where the advance loop stops: the first position from done on that is not freed, or sent.
  ghost function Frontier(sent: nat, done: nat, freed: set<nat>): (r: nat)
    requires done <= sent
    ensures done <= r <= sent
    ensures forall i :: done <= i < r ==> i in freed
    ensures r < sent ==> r !in freed
    decreases sent - done
  {
    if done < sent && done in freed then Frontier(sent, done + 1, freed) else done
  }

  lemma MaskedPointer(n: nat, logSize: nat)
    requires logSize < 16
    ensures (n % U32) % Pow2(logSize) == n % Pow2(logSize)
  {
    WholeU32();
    Pow2Split(logSize, 32);
    ModOfMod(n, Pow2(logSize), Pow2(32 - logSize));
  }

  lemma WholeU32()
    ensures Pow2(32) == U32
  {
    assert Pow2(8) == 256;
    Pow2Split(8, 16);
    assert Pow2(16) == 65536;
    Pow2Split(16, 32);
  }

  // u32 pointers: the wrapped difference is the distance, and masking gives the position's slot.
  lemma PointerArithmetic(sent: nat, done: nat, logSize: nat)
    requires logSize < 16 && done <= sent <= done + Pow2(logSize)
    ensures Pow2(logSize) <= 32768
    ensures (sent % U32 - done % U32) % U32 == sent - done
    ensures (sent % U32) % Pow2(logSize) == sent % Pow2(logSize)
    ensures (done % U32) % Pow2(logSize) == done % Pow2(logSize)
    ensures sent % U32 == done % U32 <==> sent == done
  {
    SmallRing(logSize);
    WrappedDistance(sent, done);
    MaskedPointer(sent, logSize);
    MaskedPointer(done, logSize);
  }

  // mqnic_is_tx_ring_full on the wrapped difference.
  lemma HalfFull(sent: nat, done: nat, logSize: nat)
    requires logSize < 16 && done <= sent <= done + Pow2(logSize)
    ensures (sent % U32 - done % U32) % U32 >= Pow2(logSize) / 2 <==> sent - done >= Pow2(logSize) / 2
  {
    PointerArithmetic(sent, done, logSize);
  }

  // The next producer pointer, and the 16 bits of it that the device is told.
  lemma NextPointer(sent: nat)
    requires sent > 0
    ensures ((sent - 1) % U32 + 1) % U32 == sent % U32 && (sent % U32) % 65536 == sent % 65536
  {
    ModAdd(sent - 1, 1, U32);
    ModOfMod(sent, 65536, 65536);
  }

  lemma SmallRing(logSize: nat)
    requires logSize < 16
    ensures Pow2(logSize) <= 32768
  {
    Pow2Monotone(logSize, 15);
    assert Pow2(15) == 32768;
  }

  lemma WrappedDistance(sent: nat, done: nat)
    requires done <= sent <= done + 32768
    ensures (sent % U32 - done % U32) % U32 == sent - done
    ensures sent % U32 == done % U32 <==> sent == done
  {
    ModDistance(sent, done, U32);
    if sent % U32 == done % U32 { ModInjective(sent, done, U32); }
  }

  // ---- the advance loop ----

  // The wrapped pointers prod and cons of a ring stand for the positions sent and done.
  predicate Pointers(sent: nat, done: nat, logSize: nat, prod: nat, cons: nat) {
    logSize < 16 && prod == sent % U32 && cons == done % U32 && (cons == prod <==> sent == done)
  }

  lemma PointersOf(sent: nat, done: nat, logSize: nat)
    requires logSize < 16 && done <= sent <= done + Pow2(logSize)
    ensures Pointers(sent, done, logSize, sent % U32, done % U32)
  {
    PointerArithmetic(sent, done, logSize);
  }

  // At position d of an advance that began at start.
  ghost predicate Advancing(slots: seq<Option<nat>>, logSize: nat, prod: nat, cons: nat, sent: nat, start: nat, d: nat,
                            freed: set<nat>, items: seq<nat>)
  {
    && logSize < 16 && |slots| == Pow2(logSize) && start <= d && Window(slots, sent, d, freed, items)
    && Pointers(sent, d, logSize, prod, cons)
    && Frontier(sent, start, freed) == Frontier(sent, d, freed)
  }

  lemma AdvanceOne(slots: seq<Option<nat>>, logSize: nat, prod: nat, cons: nat, sent: nat, start: nat, d: nat,
                   freed: set<nat>, items: seq<nat>)
    requires Advancing(slots, logSize, prod, cons, sent, start, d, freed, items)
    requires cons != prod && slots[cons % |slots|].None?
    ensures d < sent && Advancing(slots, logSize, prod, (cons + 1) % U32, sent, start, d + 1, freed, items)
  {
    MaskedPointer(d, logSize);
    Skip(slots, sent, d, freed, items);
    ModAdd(d, 1, U32);
    PointersOf(sent, d + 1, logSize);
  }

  lemma AdvanceEnds(slots: seq<Option<nat>>, logSize: nat, prod: nat, cons: nat, sent: nat, start: nat, d: nat,
                    freed: set<nat>, items: seq<nat>)
    requires Advancing(slots, logSize, prod, cons, sent, start, d, freed, items)
    requires cons == prod || slots[cons % |slots|].Some?
    ensures d == Frontier(sent, start, freed)
  {
    MaskedPointer(d, logSize);
    if d < sent { assert Holds(slots, d, sent, freed, items); }
  }

  // The loop that ends both mqnic_process_tx_cq and mqnic_process_rx_cq: over empty slots up to the producer.
  method AdvanceOver(slots: array<Option<nat>>, logSize: nat, prod: nat, consPtr: nat, ghost sent: nat, ghost done: nat,
                     ghost freed: set<nat>, ghost items: seq<nat>)
      returns (cons: nat, ghost d: nat)
    requires logSize < 16 && slots.Length == Pow2(logSize) && Window(slots[..], sent, done, freed, items)
    requires prod == sent % U32 && consPtr == done % U32
    ensures Window(slots[..], sent, d, freed, items) && cons == d % U32 && d == Frontier(sent, done, freed)
  {
    ghost var s := slots[..];
    cons, d := consPtr, done;
    PointersOf(sent, d, logSize);
    while cons != prod && slots[cons % slots.Length].None?
      invariant d <= sent && Advancing(s, logSize, prod, cons, sent, done, d, freed, items)
      decreases sent - d
    {
      AdvanceOne(s, logSize, prod, cons, sent, done, d, freed, items);
      cons, d := (cons + 1) % U32, d + 1;
    }
    AdvanceEnds(s, logSize, prod, cons, sent, done, d, freed, items);
  }

  // ---- logs of positions ----

  function Elements(s: seq<nat>): set<nat> { set i | 0 <= i < |s| :: s[i] }

  ghost predicate NoDuplicates(s: seq<nat>) { forall i, j :: 0 <= i < j < |s| ==> s[i] != s[j] }

  lemma LogOneMore(log: seq<nat>, p: nat)
    requires NoDuplicates(log) && p !in Elements(log)
    ensures NoDuplicates(log + [p]) && Elements(log + [p]) == Elements(log) + {p}
  {
    var r := log + [p];
    assert r[|log|] == p;
    assert forall i :: 0 <= i < |log| ==> r[i] == log[i];
  }

  lemma {:induction false} CountElements(s: seq<nat>)
    requires NoDuplicates(s)
    ensures |Elements(s)| == |s|
  {
    if s != [] {
      var n := |s| - 1;
      CountElements(s[..n]);
      assert s[..n] + [s[n]] == s;
      LogOneMore(s[..n], s[n]);
    }
  }

  function UpTo(n: nat): (s: set<nat>)
    ensures |s| == n && forall i: nat :: i in s <==> i < n
  {
    if n == 0 then {} else var r: set<nat> := UpTo(n - 1); assert n - 1 !in r; r + {n - 1}
  }
}

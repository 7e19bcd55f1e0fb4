/**
 The transmit descriptor ring: mqnic_start_xmit fills slots, mqnic_process_tx_cq frees them in completion
 order, and the queue is stopped while the ring is half full. Each method runs to completion here; TxFlow
 interleaves their steps.
 */
module TxRing {
  import opened Arith
  import opened RingWindow

  // DMA mappings held by a slot: one for the head and one per fragment.
  function Held(skb: Option<nat>, frags: nat): nat { if skb.Some? then 1 + frags else 0 }

  function Total(skbs: seq<Option<nat>>, frags: seq<nat>): nat
    requires |skbs| == |frags|
  {
    if skbs == [] then 0
    else Total(skbs[..|skbs| - 1], frags[..|frags| - 1]) + Held(skbs[|skbs| - 1], frags[|frags| - 1])
  }

  lemma {:induction false} TotalUpdate(skbs: seq<Option<nat>>, frags: seq<nat>, k: nat, x: Option<nat>, f: nat)
    requires |skbs| == |frags| && k < |skbs|
    ensures Total(skbs[k := x], frags[k := f]) == Total(skbs, frags) - Held(skbs[k], frags[k]) + Held(x, f)
  {
    var n := |skbs| - 1;
    if k < n {
      TotalUpdate(skbs[..n], frags[..n], k, x, f);
      assert skbs[k := x][..n] == skbs[..n][k := x] && frags[k := f][..n] == frags[..n][k := f];
    } else {
      assert skbs[k := x][..n] == skbs[..n] && frags[k := f][..n] == frags[..n];
    }
  }

  lemma {:induction false} TotalEmpty(skbs: seq<Option<nat>>, frags: seq<nat>)
    requires |skbs| == |frags| && forall k :: 0 <= k < |skbs| ==> skbs[k] == None
    ensures Total(skbs, frags) == 0
  {
    if skbs != [] { TotalEmpty(skbs[..|skbs| - 1], frags[..|frags| - 1]); }
  }

  // The positions freed by completions that name these ring indices.
  function Positions(done: nat, size: nat, cpls: seq<nat>): seq<nat>
    requires size > 0
  {
    seq(|cpls|, i requires 0 <= i < |cpls| => PositionOf(done, cpls[i] % size, size))
  }

  // The device completes posted descriptors, each once.
  ghost predicate Completes(slots: seq<Option<nat>>, cpls: seq<nat>)
    requires |slots| > 0
  {
    && (forall i :: 0 <= i < |cpls| ==> slots[cpls[i] % |slots|].Some?)
    && (forall i, j :: 0 <= i < j < |cpls| ==> cpls[i] % |slots| != cpls[j] % |slots|)
  }

  // The slots after the first n completions, whatever they name.
  function Emptied(slots: seq<Option<nat>>, cpls: seq<nat>, n: nat): (r: seq<Option<nat>>)
    requires |slots| > 0 && n <= |cpls|
    ensures |r| == |slots|
  {
    if n == 0 then slots else Emptied(slots, cpls, n - 1)[cpls[n - 1] % |slots| := None]
  }

  // The n-th completion names a slot that still holds an skb when its turn comes.
  predicate Live(slots: seq<Option<nat>>, cpls: seq<nat>, n: nat)
    requires |slots| > 0 && n < |cpls|
  {
    Emptied(slots, cpls, n)[cpls[n] % |slots|].Some?
  }

  // The positions freed by the first n completions.
  function Freed(done: nat, slots: seq<Option<nat>>, cpls: seq<nat>, n: nat): seq<nat>
    requires |slots| > 0 && n <= |cpls|
  {
    if n == 0 then []
    else Freed(done, slots, cpls, n - 1)
         + if Live(slots, cpls, n - 1) then [PositionOf(done, cpls[n - 1] % |slots|, |slots|)] else []
  }

  // How many DMA mappings that are not live they unmap.
  function Stray(frags: seq<nat>, slots: seq<Option<nat>>, cpls: seq<nat>, n: nat): nat
    requires |frags| == |slots| > 0 && n <= |cpls|
  {
    if n == 0 then 0
    else Stray(frags, slots, cpls, n - 1) + if Live(slots, cpls, n - 1) then 0 else 1 + frags[cpls[n - 1] % |slots|]
  }

  lemma {:induction false} EmptiedAt(slots: seq<Option<nat>>, cpls: seq<nat>, n: nat, k: nat)
    requires k < |slots| && n <= |cpls|
    ensures Emptied(slots, cpls, n)[k].Some? <==> slots[k].Some? && forall i :: 0 <= i < n ==> cpls[i] % |slots| != k
  {
    if n > 0 { EmptiedAt(slots, cpls, n - 1, k); }
  }

  lemma {:induction false} StrayIsNone(frags: seq<nat>, slots: seq<Option<nat>>, cpls: seq<nat>, n: nat)
    requires |frags| == |slots| > 0 && n <= |cpls|
    ensures Stray(frags, slots, cpls, n) == 0 <==> forall i :: 0 <= i < n ==> Live(slots, cpls, i)
  {
    if n > 0 { StrayIsNone(frags, slots, cpls, n - 1); }
  }

  lemma {:induction false} FreedWhenLive(done: nat, slots: seq<Option<nat>>, cpls: seq<nat>, n: nat)
    requires |slots| > 0 && n <= |cpls| && forall i :: 0 <= i < n ==> Live(slots, cpls, i)
    ensures Freed(done, slots, cpls, n) == Positions(done, |slots|, cpls)[..n]
  {
    if n > 0 { FreedWhenLive(done, slots, cpls, n - 1); }
  }

  /** Completions unmap only live mappings if and only if they name posted slots, each once; they then free exactly the
      positions they name, in their order. */
  lemma OnlyLiveIffCompletes(done: nat, frags: seq<nat>, slots: seq<Option<nat>>, cpls: seq<nat>)
    requires |frags| == |slots| > 0
    ensures Stray(frags, slots, cpls, |cpls|) == 0 <==> Completes(slots, cpls)
    ensures Completes(slots, cpls) ==> Freed(done, slots, cpls, |cpls|) == Positions(done, |slots|, cpls)
  {
    StrayIsNone(frags, slots, cpls, |cpls|);
    forall n | 0 <= n < |cpls|
      ensures Live(slots, cpls, n)
         <==> slots[cpls[n] % |slots|].Some? && forall i :: 0 <= i < n ==> cpls[i] % |slots| != cpls[n] % |slots|
    {
      EmptiedAt(slots, cpls, n, cpls[n] % |slots|);
    }
    if Completes(slots, cpls) { FreedWhenLive(done, slots, cpls, |cpls|); }
  }

  class TxRing {
    const logSize: nat
    const skbs: array<Option<nat>>
    const frags: array<nat>
    var prodPtr: nat
    var consPtr: nat
    var stopped: bool
    var doorbell: nat
    // live DMA mappings of the device
    ghost var mapped: nat
    // unmaps of mappings that were not live
    ghost var stray: nat
    // unbounded counters, the freed positions, the transmitted buffers by position, positions in freeing order
    ghost var sent: nat
    ghost var done: nat
    ghost var freed: set<nat>
    ghost var items: seq<nat>
    ghost var log: seq<nat>

    function Size(): nat { Pow2(logSize) }

    // Window, mappings and log agree with the slots.
    ghost predicate Accounted()
      reads this, skbs, frags
    {
      && skbs.Length == frags.Length == Size() && Window(skbs[..], sent, done, freed, items)
      && mapped == Total(skbs[..], frags[..]) && NoDuplicates(log) && Elements(log) == freed
    }

    ghost predicate Valid()
      reads this, skbs, frags
    {
      && 1 <= logSize <= 15 && Accounted() && prodPtr == sent % U32 && consPtr == done % U32
      && (stopped <==> sent - done >= Size() / 2)
    }

    constructor (logSize: nat)
      requires 1 <= logSize <= 15
      ensures Valid() && fresh(skbs) && fresh(frags) && sent == 0 && done == 0 && doorbell == 0 && stray == 0
    {
      this.logSize := logSize;
      skbs := new Option<nat>[Pow2(logSize)](_ => None);
      frags := new nat[Pow2(logSize)](_ => 0);
      prodPtr, consPtr, stopped, doorbell := 0, 0, false, 0;
      mapped, stray, sent, done, freed, items, log := 0, 0, 0, 0, {}, [], [];
      new;
      assert Pow2(logSize) == 2 * Pow2(logSize - 1);
      TotalEmpty(skbs[..], frags[..]);
      assert forall i :: 0 <= i < Size() ==> Holds(skbs[..], i, 0, {}, []);
    }

    // mqnic_is_tx_ring_full, on the wrapped 32-bit difference.
    predicate Full()
      reads this
    {
      (prodPtr - consPtr) % U32 >= Size() / 2
    }

    // mqnic_map_skb; failAt names the mapping that fails, fragment by fragment and then the head.
    method MapSkb(index: nat, skb: nat, nrFrags: nat, failAt: Option<nat>) returns (ok: bool)
      requires index < skbs.Length == frags.Length && skbs[index] == None
      modifies skbs, frags, this`mapped
      ensures ok <==> (failAt.Some? ==> failAt.value > nrFrags)
      ensures ok ==> skbs[..] == old(skbs[..])[index := Some(skb)] && frags[..] == old(frags[..])[index := nrFrags]
                     && mapped == old(mapped) + nrFrags + 1
      ensures !ok ==> skbs[..] == old(skbs[..]) && frags[..] == old(frags[..])[index := 0] && mapped == old(mapped)
    {
      skbs[index], frags[index] := Some(skb), 0;
      var i := 0;
      while i < nrFrags && failAt != Some(i)
        invariant i <= nrFrags && frags[index] == i && mapped == old(mapped) + i
        invariant failAt.Some? ==> failAt.value >= i
        invariant skbs[..] == old(skbs[..])[index := Some(skb)] && frags[..] == old(frags[..])[index := i]
      {
        mapped := mapped + 1;
        i := i + 1;
        frags[index] := i;
      }
      if failAt == Some(i) {
        mapped := mapped - frags[index];
        skbs[index], frags[index] := None, 0;
        return false;
      }
      mapped := mapped + 1;
      return true;
    }

    // The tail of mqnic_start_xmit: advance the producer, stop when full, ring the doorbell, test again.
    method Enqueue(more: bool)
      requires 1 <= logSize <= 15 && prodPtr == (sent - 1) % U32 && consPtr == done % U32 && !stopped
      requires done < sent <= done + Size()
      modifies this`prodPtr, this`stopped, this`doorbell
      ensures prodPtr == sent % U32 && (stopped <==> sent - done >= Size() / 2)
      ensures doorbell == if !more || stopped then sent % 65536 else old(doorbell)
    {
      HalfFull(sent, done, logSize);
      NextPointer(sent);
      prodPtr := (prodPtr + 1) % U32;
      var stop := Full();
      if stop {
        stopped := true;
      }
      if !more || stop {
        doorbell := prodPtr % 65536;
      }
      if stop {
        stopped := Full();
      }
    }

    // mqnic_start_xmit. drop stands for the reasons to give up before mapping; more for further packets announced.
    method StartXmit(skb: nat, nrFrags: nat, failAt: Option<nat>, drop: bool, more: bool) returns (queued: bool)
      requires Valid() && !stopped
      modifies this, skbs, frags
      ensures Valid() && done == old(done) && freed == old(freed) && log == old(log) && stray == old(stray)
      ensures queued <==> !drop && (failAt.Some? ==> failAt.value > nrFrags)
      ensures queued ==> sent == old(sent) + 1 && items == old(items) + [skb]
                         && old(skbs[sent % Size()]) == None && skbs[..] == old(skbs[..])[old(sent) % Size() := Some(skb)]
      ensures !queued ==> sent == old(sent) && items == old(items) && skbs[..] == old(skbs[..]) && mapped == old(mapped)
      ensures doorbell == if queued && (!more || stopped) then sent % 65536 else old(doorbell)
    {
      MaskedPointer(sent, logSize);
      var index := prodPtr % Size();
      if drop {
        return false;
      }
      HalfIsLess(logSize);
      queued := Place(index, skb, nrFrags, failAt);
      if queued {
        Enqueue(more);
      }
    }

    // Mapping into the slot at the producer position.
    method Place(index: nat, skb: nat, nrFrags: nat, failAt: Option<nat>) returns (queued: bool)
      requires Accounted() && index == sent % Size() && sent < done + Size()
      modifies this`mapped, this`sent, this`items, skbs, frags
      ensures Accounted() && (queued <==> (failAt.Some? ==> failAt.value > nrFrags))
      ensures queued ==> sent == old(sent) + 1 && items == old(items) + [skb]
                         && old(skbs[index]) == None && skbs[..] == old(skbs[..])[index := Some(skb)]
      ensures !queued ==> sent == old(sent) && items == old(items) && skbs[..] == old(skbs[..]) && mapped == old(mapped)
    {
      Fill(skbs[..], sent, done, freed, items, skb);
      queued := MapCounted(index, skb, nrFrags, failAt);
      if queued {
        sent, items := sent + 1, items + [skb];
      }
    }

    // The mappings stay accounted for, whether mapping succeeds or is undone.
    method MapCounted(index: nat, skb: nat, nrFrags: nat, failAt: Option<nat>) returns (ok: bool)
      requires index < skbs.Length == frags.Length && skbs[index] == None && mapped == Total(skbs[..], frags[..])
      modifies skbs, frags, this`mapped
      ensures ok <==> (failAt.Some? ==> failAt.value > nrFrags)
      ensures skbs[..] == if ok then old(skbs[..])[index := Some(skb)] else old(skbs[..])
      ensures mapped == Total(skbs[..], frags[..]) && (!ok ==> mapped == old(mapped))
    {
      TotalUpdate(skbs[..], frags[..], index, Some(skb), nrFrags);
      TotalUpdate(skbs[..], frags[..], index, None, 0);
      assert skbs[..][index := None] == skbs[..];
      ok := MapSkb(index, skb, nrFrags, failAt);
    }

    // mqnic_free_tx_desc, which does not look whether the slot is occupied: it unmaps, frees and empties in any case, and
    // only the accounts differ.
    method FreeTxDesc(index: nat)
      requires Accounted() && index < Size()
      modifies skbs, this`mapped, this`freed, this`log, this`stray
      ensures skbs[..] == old(skbs[..])[index := None]
      ensures Accounted()
      ensures old(skbs[index]).Some? ==>
        && stray == old(stray) && PositionOf(done, index, Size()) !in old(freed)
        && log == old(log) + [PositionOf(done, index, Size())]
      ensures old(skbs[index]).None? ==> stray == old(stray) + 1 + frags[index] && log == old(log) && freed == old(freed)
    {
      if skbs[index].Some? {
        FreeLive(index);
      } else {
        stray := stray + 1 + frags[index];
        ghost var was := skbs[..];
        skbs[index] := None;
        assert skbs[..] == was;
      }
    }

    // The same on an occupied slot.
    method FreeLive(index: nat)
      requires Accounted() && index < Size() && skbs[index].Some?
      modifies skbs, this`mapped, this`freed, this`log
      ensures skbs[..] == old(skbs[..])[index := None]
      ensures Accounted()
      ensures PositionOf(done, index, Size()) !in old(freed)
      ensures freed == old(freed) + {PositionOf(done, index, Size())} && log == old(log) + [PositionOf(done, index, Size())]
    {
      Empty(skbs[..], sent, done, freed, items, index);
      TotalUpdate(skbs[..], frags[..], index, None, frags[index]);
      assert frags[..][index := frags[index]] == frags[..];
      ghost var p := PositionOf(done, index, Size());
      mapped := mapped - 1 - frags[index];
      skbs[index] := None;
      LogOneMore(log, p);
      freed, log := freed + {p}, log + [p];
    }

    // The completion loop.
    method FreeCompleted(cpls: seq<nat>)
      requires Accounted()
      modifies skbs, this`mapped, this`freed, this`log, this`stray
      ensures Accounted()
      ensures skbs[..] == Emptied(old(skbs[..]), cpls, |cpls|)
      ensures log == old(log) + Freed(done, old(skbs[..]), cpls, |cpls|)
      ensures stray == old(stray) + Stray(frags[..], old(skbs[..]), cpls, |cpls|)
    {
      ghost var slots, was, before := skbs[..], log, stray;
      var i := 0;
      while i < |cpls|
        invariant i <= |cpls| && Accounted()
        invariant Handled(slots, was, before, cpls, i)
      {
        FreeNth(cpls, i, slots, was, before);
        i := i + 1;
      }
    }

    // The first n completions have been handled, from these slots, this log and this count of stray unmaps.
    ghost predicate Handled(slots: seq<Option<nat>>, was: seq<nat>, before: nat, cpls: seq<nat>, n: nat)
      reads this, skbs, frags
    {
      && |slots| == frags.Length > 0 && n <= |cpls|
      && skbs[..] == Emptied(slots, cpls, n) && log == was + Freed(done, slots, cpls, n)
      && stray == before + Stray(frags[..], slots, cpls, n)
    }

    method FreeNth(cpls: seq<nat>, i: nat, ghost slots: seq<Option<nat>>, ghost was: seq<nat>, ghost before: nat)
      requires i < |cpls| && Accounted() && Handled(slots, was, before, cpls, i)
      modifies skbs, this`mapped, this`freed, this`log, this`stray
      ensures Accounted() && Handled(slots, was, before, cpls, i + 1)
    {
      assert skbs[cpls[i] % Size()] == skbs[..][cpls[i] % Size()];
      FreeTxDesc(cpls[i] % Size());
    }

    // The advance over empty slots up to the producer.
    method AdvanceConsumer()
      requires logSize <= 15 && skbs.Length == Size() && Window(skbs[..], sent, done, freed, items)
      requires prodPtr == sent % U32 && consPtr == done % U32
      modifies this`consPtr, this`done
      ensures Window(skbs[..], sent, done, freed, items) && consPtr == done % U32
      ensures done == Frontier(sent, old(done), freed)
    {
      var cons, d := AdvanceOver(skbs, logSize, prodPtr, consPtr, sent, done, freed, items);
      consPtr, done := cons, d;
    }

    // mqnic_process_tx_cq: free what the completions name, advance over freed slots, wake a stopped queue.
    method ProcessTxCq(cpls: seq<nat>)
      requires Valid()
      modifies this, skbs
      ensures Valid() && sent == old(sent) && items == old(items)
      ensures skbs[..] == Emptied(old(skbs[..]), cpls, |cpls|)
      ensures log == old(log) + Freed(old(done), old(skbs[..]), cpls, |cpls|)
      // nothing stale is unmapped exactly when the completions name posted slots, each once
      ensures stray == old(stray) <==> Completes(old(skbs[..]), cpls)
      ensures Completes(old(skbs[..]), cpls) ==> log == old(log) + Positions(old(done), Size(), cpls)
      ensures done == Frontier(sent, old(done), freed)
    {
      OnlyLiveIffCompletes(done, frags[..], skbs[..], cpls);
      FreeCompleted(cpls);
      AdvanceConsumer();
      Wake();
    }

    // The end of mqnic_process_tx_cq: a stopped queue runs again when the ring is no longer full.
    method Wake()
      requires logSize <= 15 && done <= sent <= done + Size() && prodPtr == sent % U32 && consPtr == done % U32
      requires sent - done >= Size() / 2 ==> stopped
      modifies this`stopped
      ensures stopped <==> sent - done >= Size() / 2
    {
      HalfFull(sent, done, logSize);
      if stopped && !Full() {
        stopped := false;
      }
    }
  }

  lemma HalfIsLess(logSize: nat)
    requires logSize >= 1
    ensures 0 < Pow2(logSize) / 2 < Pow2(logSize)
  {
    assert Pow2(logSize) == 2 * Pow2(logSize - 1);
  }

  // Once the consumer has caught up, every transmitted buffer has been freed, each exactly once.
  lemma FreedExactlyOnce(slots: seq<Option<nat>>, sent: nat, freed: set<nat>, items: seq<nat>, log: seq<nat>)
    requires Window(slots, sent, sent, freed, items) && NoDuplicates(log) && Elements(log) == freed
    ensures |log| == sent && forall i :: 0 <= i < sent ==> i in log
    ensures forall k :: 0 <= k < |slots| ==> slots[k] == None
  {
    CountElements(log);
    assert freed == UpTo(sent);
    assert forall i :: i in Elements(log) ==> i in log;
    forall k | 0 <= k < |slots| ensures slots[k] == None {
      SlotMeaning(slots, sent, sent, freed, items, k);
      PositionInWindow(sent, k, |slots|);
    }
  }
}

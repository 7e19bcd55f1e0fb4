/**
 The Python driver's packet buffers: one free list shared by all transmit and receive rings. A buffer is on the
 free list or in one ring slot, never both and never lost.
 */
module PacketPool {
  import opened Arith

  // A ring's tx_info or rx_info with its pointers, which do not wrap here.
  datatype Ring = Ring(info: seq<Option<nat>>, prod: nat, cons: nat)
  {
    function Size(): nat { |info| }

    function FullSize(): nat { |info| / 2 }

    // Slots outside the posted range are empty.
    ghost predicate Valid()
    {
      && Size() > 0 && cons <= prod <= cons + Size()
      && forall i :: prod <= i < cons + Size() ==> info[i % Size()] == None
    }
  }

  // free_packets, allocated_packets, the next region the memory pool gives out, and the open rings.
  datatype Pool = Pool(idle: seq<nat>, issued: seq<nat>, next: nat, rings: seq<Ring>)

  // The index of a completion, masked to the ring.
  function Slot(x: Ring, index: nat): nat
    requires x.Size() > 0
  {
    index % x.Size()
  }

  // ---- the operations on values ----

  function Alloc(p: Pool): (r: (Pool, nat))
    ensures r.0.rings == p.rings
  {
    if p.idle != [] then (p.(idle := p.idle[1..]), p.idle[0])
    else (p.(issued := p.issued + [p.next], next := p.next + 1), p.next)
  }

  // tx_transmit and prepare_desc: a packet goes into the slot of the producer pointer, which moves on.
  function Post(p: Pool, r: nat): (q: Pool)
    requires r < |p.rings| && p.rings[r].Size() > 0
    ensures |q.rings| == |p.rings| && q.rings[r].Size() == p.rings[r].Size()
    ensures q.rings[r].prod == p.rings[r].prod + 1 && q.rings[r].cons == p.rings[r].cons
  {
    var (q, pkt) := Alloc(p);
    var x := p.rings[r];
    q.(rings := p.rings[r := Ring(x.info[Slot(x, x.prod) := Some(pkt)], x.prod + 1, x.cons)])
  }

  function FreeDesc(p: Pool, r: nat, k: nat): (q: Pool)
    requires r < |p.rings| && k < p.rings[r].Size() && p.rings[r].info[k].Some?
    ensures |q.rings| == |p.rings| && q.rings[r] == p.rings[r].(info := q.rings[r].info) && q.rings[r].Size() == p.rings[r].Size()
  {
    var x := p.rings[r];
    p.(idle := p.idle + [x.info[k].value], rings := p.rings[r := x.(info := x.info[k := None])])
  }

  // The hardware completes only what is posted, each index once.
  predicate Completable(p: Pool, r: nat, indices: seq<nat>)
    requires r < |p.rings| && p.rings[r].Size() > 0
    decreases |indices|
  {
    indices != [] ==>
      && p.rings[r].info[Slot(p.rings[r], indices[0])].Some?
      && Completable(FreeDesc(p, r, Slot(p.rings[r], indices[0])), r, indices[1..])
  }

  function Complete(p: Pool, r: nat, indices: seq<nat>): (q: Pool)
    requires r < |p.rings| && p.rings[r].Size() > 0 && Completable(p, r, indices)
    ensures |q.rings| == |p.rings| && q.rings[r] == p.rings[r].(info := q.rings[r].info) && q.rings[r].Size() == p.rings[r].Size()
    decreases |indices|
  {
    if indices == [] then p else Complete(FreeDesc(p, r, Slot(p.rings[r], indices[0])), r, indices[1..])
  }

  function AdvanceRing(x: Ring): (y: Ring)
    requires x.Size() > 0 && x.cons <= x.prod
    ensures y.info == x.info && y.prod == x.prod && x.cons <= y.cons <= x.prod
    decreases x.prod - x.cons
  {
    if x.cons != x.prod && x.info[x.cons % x.Size()].None? then AdvanceRing(x.(cons := x.cons + 1)) else x
  }

  function Advance(p: Pool, r: nat): (q: Pool)
    requires r < |p.rings| && p.rings[r].Size() > 0 && p.rings[r].cons <= p.rings[r].prod
    ensures |q.rings| == |p.rings| && q.rings[r].Size() == p.rings[r].Size()
  {
    p.(rings := p.rings[r := AdvanceRing(p.rings[r])])
  }

  function PostMany(p: Pool, r: nat, n: nat): (q: Pool)
    requires r < |p.rings| && p.rings[r].Size() > 0
    ensures |q.rings| == |p.rings| && q.rings[r].Size() == p.rings[r].Size()
  {
    if n == 0 then p else Post(PostMany(p, r, n - 1), r)
  }

  function Missing(x: Ring): int { x.Size() - (x.prod - x.cons) }

  function Refill(p: Pool, r: nat): (q: Pool)
    requires r < |p.rings| && p.rings[r].Size() > 0
    ensures |q.rings| == |p.rings|
  {
    if Missing(p.rings[r]) < 8 then p else PostMany(p, r, Missing(p.rings[r]))
  }

  // ---- where the packets are ----

  // Is the slot's content what we count? None counts every packet.
  function Is(o: Option<nat>, what: Option<nat>): nat { if o.Some? && (what.None? || o == what) then 1 else 0 }

  function HeldIn(info: seq<Option<nat>>, what: Option<nat>): nat
  {
    if info == [] then 0 else HeldIn(info[..|info| - 1], what) + Is(info[|info| - 1], what)
  }

  function Held(rings: seq<Ring>, what: Option<nat>): nat
  {
    if rings == [] then 0 else Held(rings[..|rings| - 1], what) + HeldIn(rings[|rings| - 1].info, what)
  }

  function Slots(rings: seq<Ring>): nat
  {
    if rings == [] then 0 else Slots(rings[..|rings| - 1]) + rings[|rings| - 1].Size()
  }

  lemma {:induction false} HeldUpdate(info: seq<Option<nat>>, k: nat, v: Option<nat>, what: Option<nat>)
    requires k < |info|
    ensures HeldIn(info[k := v], what) + Is(info[k], what) == HeldIn(info, what) + Is(v, what)
  {
    var n := |info| - 1;
    if k < n {
      HeldUpdate(info[..n], k, v, what);
      assert info[k := v][..n] == info[..n][k := v];
    } else {
      assert info[k := v][..n] == info[..n];
    }
  }

  // One slot of one ring changes.
  lemma {:induction false} SlotUpdate(rings: seq<Ring>, r: nat, k: nat, y: Ring, what: Option<nat>)
    requires r < |rings| && k < rings[r].Size() == y.Size() && y.info == rings[r].info[k := y.info[k]]
    ensures Held(rings[r := y], what) + Is(rings[r].info[k], what) == Held(rings, what) + Is(y.info[k], what)
    ensures Slots(rings[r := y]) == Slots(rings)
  {
    var n := |rings| - 1;
    if r < n {
      SlotUpdate(rings[..n], r, k, y, what);
      assert rings[r := y][..n] == rings[..n][r := y];
    } else {
      HeldUpdate(rings[n].info, k, y.info[k], what);
      assert rings[r := y][..n] == rings[..n];
    }
  }

  lemma {:induction false} HeldFits(info: seq<Option<nat>>)
    ensures HeldIn(info, None) <= |info|
  {
    if info != [] { HeldFits(info[..|info| - 1]); }
  }

  lemma {:induction false} AllHeldFits(rings: seq<Ring>)
    ensures Held(rings, None) <= Slots(rings)
  {
    if rings != [] {
      AllHeldFits(rings[..|rings| - 1]);
      HeldFits(rings[|rings| - 1].info);
    }
  }

  ghost predicate RingsOk(rings: seq<Ring>) { forall r :: 0 <= r < |rings| ==> rings[r].Valid() }

  // An allocated packet is once on the free list or in one slot; any other number is nowhere.
  ghost predicate Placed(p: Pool, x: nat)
  {
    multiset(p.idle)[x] + Held(p.rings, Some(x)) == if x < p.next then 1 else 0
  }

  /** Every packet given out so far is on the free list or in one ring slot, and there are never more packets than
      slots. */
  ghost predicate Conserved(p: Pool)
  {
    && RingsOk(p.rings)
    && (forall x: nat :: Placed(p, x))
    && |p.issued| == |p.idle| + Held(p.rings, None) <= Slots(p.rings)
    && (forall i :: 0 <= i < |p.issued| ==> p.issued[i] == i) && |p.issued| == p.next
  }

  // ---- each operation keeps it ----

  // With no packet free, all are in slots.
  lemma PostKeepsRing(x: Ring, pkt: nat)
    requires x.Valid() && x.prod < x.cons + x.Size()
    ensures x.info[Slot(x, x.prod)] == None
    ensures Ring(x.info[Slot(x, x.prod) := Some(pkt)], x.prod + 1, x.cons).Valid()
  {
    forall i | x.prod < i < x.cons + x.Size()
      ensures i % x.Size() != x.prod % x.Size()
    {
      DifferentResidues(i, x.prod, x.Size());
    }
  }

  lemma RingsUpdate(rings: seq<Ring>, r: nat, y: Ring)
    requires RingsOk(rings) && r < |rings| && y.Valid()
    ensures RingsOk(rings[r := y])
  {
  }

  lemma PostPlaces(p: Pool, r: nat, x: nat)
    requires r < |p.rings| && p.rings[r].Size() > 0 && p.rings[r].info[Slot(p.rings[r], p.rings[r].prod)] == None
    requires Placed(p, x)
    ensures Placed(Post(p, r), x)
  {
    SlotUpdate(p.rings, r, Slot(p.rings[r], p.rings[r].prod), Post(p, r).rings[r], Some(x));
    if p.idle != [] { assert p.idle == [p.idle[0]] + p.idle[1..]; }
  }

  lemma PostConserves(p: Pool, r: nat)
    requires Conserved(p) && r < |p.rings| && p.rings[r].prod < p.rings[r].cons + p.rings[r].Size()
    ensures p.rings[r].info[Slot(p.rings[r], p.rings[r].prod)] == None
    ensures Conserved(Post(p, r))
  {
    var q, x := Post(p, r), p.rings[r];
    PostKeepsRing(x, Alloc(p).1);
    RingsUpdate(p.rings, r, q.rings[r]);
    SlotUpdate(p.rings, r, Slot(x, x.prod), q.rings[r], None);
    AllHeldFits(q.rings);
    forall pkt: nat
      ensures Placed(q, pkt)
    {
      PostPlaces(p, r, pkt);
    }
  }

  lemma FreeDescPlaces(p: Pool, r: nat, k: nat, x: nat)
    requires r < |p.rings| && k < p.rings[r].Size() && p.rings[r].info[k].Some? && Placed(p, x)
    ensures Placed(FreeDesc(p, r, k), x)
  {
    SlotUpdate(p.rings, r, k, FreeDesc(p, r, k).rings[r], Some(x));
  }

  lemma FreeDescConserves(p: Pool, r: nat, k: nat)
    requires Conserved(p) && r < |p.rings| && k < p.rings[r].Size() && p.rings[r].info[k].Some?
    ensures Conserved(FreeDesc(p, r, k))
  {
    var q := FreeDesc(p, r, k);
    RingsUpdate(p.rings, r, q.rings[r]);
    SlotUpdate(p.rings, r, k, q.rings[r], None);
    forall x: nat
      ensures Placed(q, x)
    {
      FreeDescPlaces(p, r, k, x);
    }
  }

  lemma {:induction false} CompleteConserves(p: Pool, r: nat, indices: seq<nat>)
    requires Conserved(p) && r < |p.rings| && Completable(p, r, indices)
    ensures Conserved(Complete(p, r, indices))
    decreases |indices|
  {
    if indices != [] {
      FreeDescConserves(p, r, Slot(p.rings[r], indices[0]));
      CompleteConserves(FreeDesc(p, r, Slot(p.rings[r], indices[0])), r, indices[1..]);
    }
  }

  // Does one of the completions name slot k?
  ghost predicate Names(x: Ring, indices: seq<nat>, k: nat)
    requires x.Size() > 0
  {
    exists i :: 0 <= i < |indices| && Slot(x, indices[i]) == k
  }

  // Each names a slot that holds a packet, and no two the same slot.
  ghost predicate NamesPosted(x: Ring, indices: seq<nat>)
    requires x.Size() > 0
  {
    && (forall i :: 0 <= i < |indices| ==> x.info[Slot(x, indices[i])].Some?)
    && (forall i, j :: 0 <= i < j < |indices| ==> Slot(x, indices[i]) != Slot(x, indices[j]))
  }

  lemma NamesFirst(x: Ring, indices: seq<nat>, k: nat)
    requires x.Size() > 0 && indices != []
    ensures Names(x, indices, k) <==> Slot(x, indices[0]) == k || Names(x, indices[1..], k)
  {
    if Names(x, indices, k) {
      var i :| 0 <= i < |indices| && Slot(x, indices[i]) == k;
      if i > 0 { assert indices[1..][i - 1] == indices[i]; }
    }
  }

  lemma NamesPostedFirst(x: Ring, indices: seq<nat>)
    requires x.Size() > 0 && indices != []
    ensures
      var k := Slot(x, indices[0]);
      NamesPosted(x, indices) <==> x.info[k].Some? && NamesPosted(x.(info := x.info[k := None]), indices[1..])
  {
    var k := Slot(x, indices[0]);
    var y, rest := x.(info := x.info[k := None]), indices[1..];
    assert forall i :: 0 <= i < |rest| ==> Slot(y, rest[i]) == Slot(x, indices[i + 1]);
    if NamesPosted(x, indices) {
      forall i | 0 <= i < |rest|
        ensures y.info[Slot(y, rest[i])].Some?
      {
        assert Slot(x, indices[0]) != Slot(x, indices[i + 1]);
      }
    }
    if x.info[k].Some? && NamesPosted(y, rest) {
      forall i | 0 <= i < |indices|
        ensures x.info[Slot(x, indices[i])].Some?
      {
        if i > 0 { assert y.info[Slot(y, rest[i - 1])].Some?; }
      }
      forall i, j | 0 <= i < j < |indices|
        ensures Slot(x, indices[i]) != Slot(x, indices[j])
      {
        assert y.info[Slot(y, rest[j - 1])].Some?;
        if i > 0 { assert Slot(y, rest[i - 1]) != Slot(y, rest[j - 1]); }
      }
    }
  }

  /** Completions can be processed exactly when each names a slot that holds a packet, and no two the same slot. Then
      the named slots are empty, their packets are free, and all other slots of all rings are as before. */
  lemma {:induction false} CompleteEmpties(p: Pool, r: nat, indices: seq<nat>)
    requires r < |p.rings| && p.rings[r].Size() > 0
    ensures Completable(p, r, indices) <==> NamesPosted(p.rings[r], indices)
    ensures Completable(p, r, indices) ==>
      var x, q := p.rings[r], Complete(p, r, indices);
      && q.rings == p.rings[r := q.rings[r]] && q.issued == p.issued && q.next == p.next
      && (forall k :: 0 <= k < x.Size() ==> q.rings[r].info[k] == if Names(x, indices, k) then None else x.info[k])
      && |q.idle| == |p.idle| + |indices| && q.idle[..|p.idle|] == p.idle
      && (forall i :: 0 <= i < |indices| ==> Some(q.idle[|p.idle| + i]) == x.info[Slot(x, indices[i])])
    decreases |indices|
  {
    if indices != [] {
      var x, k := p.rings[r], Slot(p.rings[r], indices[0]);
      NamesPostedFirst(x, indices);
      if x.info[k].Some? {
        var m := FreeDesc(p, r, k);
        CompleteEmpties(m, r, indices[1..]);
        if Completable(p, r, indices) { EmptiesFirst(p, r, indices, m, Complete(p, r, indices)); }
      }
    }
  }

  // One more completion in front.
  lemma EmptiesFirst(p: Pool, r: nat, indices: seq<nat>, m: Pool, q: Pool)
    requires r < |p.rings| && p.rings[r].Size() > 0 && indices != [] && NamesPosted(p.rings[r], indices)
    requires m == FreeDesc(p, r, Slot(p.rings[r], indices[0]))
    requires |q.rings| == |m.rings| && q.rings == m.rings[r := q.rings[r]] && q.rings[r].Size() == m.rings[r].Size()
    requires forall k :: 0 <= k < m.rings[r].Size() ==>
      q.rings[r].info[k] == if Names(m.rings[r], indices[1..], k) then None else m.rings[r].info[k]
    requires |q.idle| == |m.idle| + |indices| - 1 && q.idle[..|m.idle|] == m.idle
    requires forall i :: 0 <= i < |indices| - 1 ==>
      Some(q.idle[|m.idle| + i]) == m.rings[r].info[Slot(m.rings[r], indices[1..][i])]
    ensures
      var x := p.rings[r];
      && q.rings == p.rings[r := q.rings[r]]
      && (forall k :: 0 <= k < x.Size() ==> q.rings[r].info[k] == if Names(x, indices, k) then None else x.info[k])
      && |q.idle| == |p.idle| + |indices| && q.idle[..|p.idle|] == p.idle
      && (forall i :: 0 <= i < |indices| ==> Some(q.idle[|p.idle| + i]) == x.info[Slot(x, indices[i])])
  {
    var x, y := p.rings[r], m.rings[r];
    forall k | 0 <= k < x.Size()
      ensures q.rings[r].info[k] == if Names(x, indices, k) then None else x.info[k]
    {
      NamesFirst(x, indices, k);
      assert Names(y, indices[1..], k) == Names(x, indices[1..], k);
    }
    assert q.idle[..|p.idle|] == q.idle[..|m.idle|][..|p.idle|] == p.idle;
    forall i | 0 <= i < |indices|
      ensures Some(q.idle[|p.idle| + i]) == x.info[Slot(x, indices[i])]
    {
      if i == 0 {
        assert q.idle[..|m.idle|][|p.idle|] == m.idle[|p.idle|];
      } else {
        assert Some(q.idle[|m.idle| + (i - 1)]) == y.info[Slot(y, indices[1..][i - 1])];
      }
    }
  }

  // The consumer pointer passes only slots that are empty, so the ring stays valid.
  lemma {:induction false} AdvanceKeepsRing(x: Ring)
    requires x.Valid()
    ensures AdvanceRing(x).Valid()
    ensures AdvanceRing(x).cons == x.prod || AdvanceRing(x).info[AdvanceRing(x).cons % x.Size()].Some?
    decreases x.prod - x.cons
  {
    if x.cons != x.prod && x.info[x.cons % x.Size()].None? {
      AddMultiple(x.cons, 1, x.Size());
      AdvanceKeepsRing(x.(cons := x.cons + 1));
    }
  }

  lemma AdvanceConserves(p: Pool, r: nat)
    requires Conserved(p) && r < |p.rings|
    ensures Conserved(Advance(p, r))
  {
    var y := AdvanceRing(p.rings[r]);
    AdvanceKeepsRing(p.rings[r]);
    RingsUpdate(p.rings, r, y);
    SlotUpdate(p.rings, r, 0, y, None);
    forall x: nat
      ensures Placed(Advance(p, r), x)
    {
      assert Placed(p, x);
      SlotUpdate(p.rings, r, 0, y, Some(x));
    }
  }

  lemma {:induction false} PostManyConserves(p: Pool, r: nat, n: nat)
    requires Conserved(p) && r < |p.rings| && n <= Missing(p.rings[r])
    ensures Conserved(PostMany(p, r, n)) && Missing(PostMany(p, r, n).rings[r]) == Missing(p.rings[r]) - n
  {
    if n > 0 {
      PostManyConserves(p, r, n - 1);
      PostConserves(PostMany(p, r, n - 1), r);
    }
  }

  lemma {:induction false} PostManyFrame(p: Pool, r: nat, n: nat)
    requires r < |p.rings| && p.rings[r].Size() > 0
    ensures
      var q := PostMany(p, r, n);
      && q.rings == p.rings[r := q.rings[r]] && q.rings[r].Size() == p.rings[r].Size()
      && q.rings[r].prod == p.rings[r].prod + n && q.rings[r].cons == p.rings[r].cons
  {
    if n > 0 { PostManyFrame(p, r, n - 1); }
  }

  // The slot of position i after n posts.
  lemma {:induction false} PostManyFills(p: Pool, r: nat, n: nat, i: nat)
    requires r < |p.rings| && p.rings[r].Valid() && n <= Missing(p.rings[r])
    requires p.rings[r].cons <= i < p.rings[r].prod + n
    ensures
      var x, y := p.rings[r], PostMany(p, r, n).rings[r];
      if i < x.prod then y.info[i % x.Size()] == x.info[i % x.Size()] else y.info[i % x.Size()].Some?
  {
    var x := p.rings[r];
    if n > 0 {
      PostManyFrame(p, r, n - 1);
      if i < x.prod + (n - 1) {
        PostManyFills(p, r, n - 1, i);
        DifferentResidues(x.prod + (n - 1), i, x.Size());
      }
    }
  }

  /** A refill leaves a ring that misses fewer than eight packets, or none, alone. Otherwise it posts one packet at each
      missing position, so that the ring is full; nothing else changes in any ring. */
  lemma RefillFills(p: Pool, r: nat, i: nat)
    requires Conserved(p) && r < |p.rings| && p.rings[r].cons <= i < p.rings[r].cons + p.rings[r].Size()
    ensures
      var x, q := p.rings[r], Refill(p, r);
      if x.cons + x.Size() - x.prod < 8 then q == p
      else
        && q.rings == p.rings[r := q.rings[r]] && q.rings[r].prod == x.cons + x.Size() && q.rings[r].cons == x.cons
        && (if i < x.prod then q.rings[r].info[i % x.Size()] == x.info[i % x.Size()] else q.rings[r].info[i % x.Size()].Some?)
  {
    if Missing(p.rings[r]) >= 8 {
      PostManyFrame(p, r, Missing(p.rings[r]));
      PostManyFills(p, r, Missing(p.rings[r]), i);
    }
  }

  // ---- whole runs ----

  // What runs without a pause; between two of these another coroutine may run, since the driver awaits its register
  // writes after the completion loop and after posting.
  datatype Step = Xmit(ring: nat) | FreeCompletions(ring: nat, indices: seq<nat>) | AdvanceCons(ring: nat) | RefillRing(ring: nat)

  // start_xmit sends only while there is room, the hardware completes what is posted.
  ghost predicate CanStep(p: Pool, x: Step)
  {
    && x.ring < |p.rings| && p.rings[x.ring].Valid()
    && (x.Xmit? ==> p.rings[x.ring].prod - p.rings[x.ring].cons < p.rings[x.ring].FullSize())
    && (x.FreeCompletions? ==> Completable(p, x.ring, x.indices))
  }

  ghost function Do(p: Pool, x: Step): Pool
    requires CanStep(p, x)
  {
    match x
    case Xmit(r) => Post(p, r)
    case FreeCompletions(r, indices) => Complete(p, r, indices)
    case AdvanceCons(r) => Advance(p, r)
    case RefillRing(r) => Refill(p, r)
  }

  // Every step is possible when its turn comes.
  ghost predicate Legal(p: Pool, steps: seq<Step>)
    decreases |steps|
  {
    steps != [] ==> CanStep(p, steps[0]) && Legal(Do(p, steps[0]), steps[1..])
  }

  ghost function After(p: Pool, steps: seq<Step>): Pool
    requires Legal(p, steps)
    decreases |steps|
  {
    if steps == [] then p else After(Do(p, steps[0]), steps[1..])
  }

  lemma AfterFirst(p: Pool, steps: seq<Step>, i: nat)
    requires i < |steps| && Legal(p, steps[i..])
    ensures CanStep(p, steps[i]) && Legal(Do(p, steps[i]), steps[i + 1..])
    ensures After(p, steps[i..]) == After(Do(p, steps[i]), steps[i + 1..])
  {
    assert steps[i..][0] == steps[i] && steps[i..][1..] == steps[i + 1..];
  }

  lemma StepConserves(p: Pool, x: Step)
    requires Conserved(p) && CanStep(p, x)
    ensures Conserved(Do(p, x)) && |Do(p, x).rings| == |p.rings|
  {
    match x
    case Xmit(r) => PostConserves(p, r);
    case FreeCompletions(r, indices) => CompleteConserves(p, r, indices);
    case AdvanceCons(r) => AdvanceConserves(p, r);
    case RefillRing(r) => PostManyConserves(p, r, if Missing(p.rings[r]) < 8 then 0 else Missing(p.rings[r]));
  }

  /** Over every run across all rings, in any interleaving of the coroutines, each packet stays in exactly one
      place. */
  lemma {:induction false} RunsConserve(p: Pool, steps: seq<Step>)
    requires Conserved(p) && Legal(p, steps)
    ensures Conserved(After(p, steps)) && |After(p, steps).rings| == |p.rings|
    decreases |steps|
  {
    if steps != [] {
      StepConserves(p, steps[0]);
      RunsConserve(Do(p, steps[0]), steps[1..]);
    }
  }

  // ---- the driver ----

  class Driver {
    var freePackets: seq<nat>
    var allocatedPackets: seq<nat>
    var next: nat
    var rings: seq<Ring>

    function View(): Pool
      reads this
    {
      Pool(freePackets, allocatedPackets, next, rings)
    }

    constructor (sizes: seq<nat>)
      requires forall i :: 0 <= i < |sizes| ==> sizes[i] > 0
      ensures Conserved(View()) && freePackets == [] && |rings| == |sizes|
    {
      freePackets, allocatedPackets, next := [], [], 0;
      rings := seq(|sizes|, i requires 0 <= i < |sizes| => Ring(seq(sizes[i], _ => None), 0, 0));
      new;
      NothingHeld(rings, None);
      forall x: nat
        ensures Placed(View(), x)
      {
        NothingHeld(rings, Some(x));
      }
    }

    // alloc_pkt; the memory pool gives out a region it has not given out before.
    method AllocPkt() returns (pkt: nat)
      modifies this`freePackets, this`allocatedPackets, this`next
      ensures (View(), pkt) == Alloc(old(View()))
    {
      if freePackets != [] {
        pkt, freePackets := freePackets[0], freePackets[1..];
      } else {
        pkt := next;
        next := next + 1;
        allocatedPackets := allocatedPackets + [pkt];
      }
    }

    // The slot assertion of tx_transmit holds, and receive descriptors overwrite nothing either.
    method PostPkt(r: nat)
      requires Conserved(View()) && r < |rings| && rings[r].prod < rings[r].cons + rings[r].Size()
      modifies this
      ensures Conserved(View()) && View() == Post(old(View()), r)
    {
      PostConserves(View(), r);
      var x := rings[r];
      var index := x.prod % x.Size();
      assert x.info[index].None?;
      var pkt := AllocPkt();
      rings := rings[r := Ring(x.info[index := Some(pkt)], x.prod + 1, x.cons)];
    }

    // start_xmit, once its wait for space is over.
    method Transmit(r: nat)
      requires Conserved(View()) && r < |rings| && rings[r].prod - rings[r].cons < rings[r].FullSize()
      modifies this
      ensures Conserved(View()) && View() == Post(old(View()), r)
    {
      PostPkt(r);
    }

    // The completion loop with free_desc; the assertions of free_pkt hold.
    method FreeCompleted(r: nat, indices: seq<nat>)
      requires Conserved(View()) && r < |rings| && Completable(View(), r, indices)
      modifies this`freePackets, this`rings
      ensures View() == Complete(old(View()), r, indices) && Conserved(View())
    {
      ghost var before := View();
      CompleteConserves(View(), r, indices);
      var i := 0;
      while i < |indices|
        invariant i <= |indices| && r < |rings| && Conserved(View()) && Completable(View(), r, indices[i..])
        invariant Complete(View(), r, indices[i..]) == Complete(before, r, indices)
        invariant allocatedPackets == old(allocatedPackets) && next == old(next)
      {
        var k := indices[i] % rings[r].Size();
        var x := rings[r];
        assert indices[i..][0] == indices[i] && indices[i..][1..] == indices[i + 1..];
        FreeDescConserves(View(), r, k);
        assert x.info[k].Some?;
        freePackets := freePackets + [x.info[k].value];
        rings := rings[r := x.(info := x.info[k := None])];
        i := i + 1;
      }
    }

    // The loop that advances the ring's consumer pointer.
    method AdvanceConsumer(r: nat)
      requires Conserved(View()) && r < |rings|
      modifies this`rings
      ensures Conserved(View()) && View() == Advance(old(View()), r)
    {
      AdvanceConserves(View(), r);
      var x := rings[r];
      var cons := x.cons;
      while cons != x.prod && x.info[cons % x.Size()].None?
        invariant x.cons <= cons <= x.prod && AdvanceRing(x.(cons := cons)) == AdvanceRing(x)
        decreases x.prod - cons
      {
        cons := cons + 1;
      }
      rings := rings[r := x.(cons := cons)];
    }

    method TakeStep(x: Step)
      requires Conserved(View()) && CanStep(View(), x)
      modifies this
      ensures Conserved(View()) && View() == Do(old(View()), x) && |rings| == |old(rings)|
    {
      StepConserves(View(), x);
      match x
      case Xmit(r) => Transmit(r);
      case FreeCompletions(r, indices) => FreeCompleted(r, indices);
      case AdvanceCons(r) => AdvanceConsumer(r);
      case RefillRing(r) => RefillBuffers(r);
    }

    // What the other coroutines do during an await.
    method Await(others: seq<Step>)
      requires Conserved(View()) && Legal(View(), others)
      modifies this
      ensures Conserved(View()) && View() == After(old(View()), others) && |rings| == |old(rings)|
    {
      ghost var before, n := View(), |rings|;
      var i := 0;
      while i < |others|
        invariant i <= |others| && Conserved(View()) && Legal(View(), others[i..]) && |rings| == n
        invariant After(View(), others[i..]) == After(before, others)
      {
        AfterFirst(View(), others, i);
        TakeStep(others[i]);
        i := i + 1;
      }
    }

    // process_tx_cq; others run while the consumer pointer of the completion queue is being written.
    method ProcessTxCq(r: nat, indices: seq<nat>, others: seq<Step>)
      requires Conserved(View()) && r < |rings| && Completable(View(), r, indices)
      requires Legal(Complete(View(), r, indices), others)
      modifies this
      ensures Conserved(View())
      ensures
        var resumed := After(Complete(old(View()), r, indices), others);
        r < |resumed.rings| && resumed.rings[r].Valid() && View() == Advance(resumed, r)
    {
      FreeCompleted(r, indices);
      Await(others);
      AdvanceConsumer(r);
    }

    // refill_buffers.
    method RefillBuffers(r: nat)
      requires Conserved(View()) && r < |rings|
      modifies this
      ensures Conserved(View()) && View() == Refill(old(View()), r)
    {
      ghost var before := View();
      var missing := rings[r].Size() - (rings[r].prod - rings[r].cons);
      if missing < 8 {
        return;
      }
      var k := 0;
      while k < missing
        invariant k <= missing && r < |rings| && Conserved(View()) && View() == PostMany(before, r, k)
      {
        PostManyConserves(before, r, k);
        PostPkt(r);
        k := k + 1;
      }
    }

    // process_rx_cq.
    method ProcessRxCq(r: nat, indices: seq<nat>, others: seq<Step>)
      requires Conserved(View()) && r < |rings| && Completable(View(), r, indices)
      requires Legal(Complete(View(), r, indices), others)
      modifies this
      ensures Conserved(View())
      ensures
        var resumed := After(Complete(old(View()), r, indices), others);
        r < |resumed.rings| && resumed.rings[r].Valid() && View() == Refill(Advance(resumed, r), r)
    {
      FreeCompleted(r, indices);
      Await(others);
      AdvanceConsumer(r);
      RefillBuffers(r);
    }
  }

  /** A packet that is free is in no slot, and no packet is in two slots: two different slots, of one ring or of
      two, hold different packets. */
  lemma SlotsHoldDifferentPackets(p: Pool, r: nat, k: nat, r': nat, k': nat)
    requires Conserved(p) && r < |p.rings| && k < p.rings[r].Size() && r' < |p.rings| && k' < p.rings[r'].Size()
    requires (r, k) != (r', k') && p.rings[r].info[k].Some? && p.rings[r'].info[k'].Some?
    ensures p.rings[r].info[k] != p.rings[r'].info[k'] && p.rings[r].info[k].value !in p.idle
  {
    var x, y := p.rings[r].info[k], p.rings[r'].info[k'];
    assert Placed(p, x.value);
    // emptying one slot leaves no place for the packet of the other
    var rings := p.rings[r := p.rings[r].(info := p.rings[r].info[k := None])];
    SlotUpdate(p.rings, r, k, rings[r], x);
    SlotUpdate(rings, r', k', rings[r'].(info := rings[r'].info[k' := None]), x);
  }

  lemma {:induction false} NothingHeld(rings: seq<Ring>, what: Option<nat>)
    requires forall i :: 0 <= i < |rings| ==> forall k :: 0 <= k < rings[i].Size() ==> rings[i].info[k] == None
    ensures Held(rings, what) == 0
  {
    if rings != [] {
      NothingHeld(rings[..|rings| - 1], what);
      NothingHeldIn(rings[|rings| - 1].info, what);
    }
  }

  lemma {:induction false} NothingHeldIn(info: seq<Option<nat>>, what: Option<nat>)
    requires forall k :: 0 <= k < |info| ==> info[k] == None
    ensures HeldIn(info, what) == 0
  {
    if info != [] { NothingHeldIn(info[..|info| - 1], what); }
  }
}

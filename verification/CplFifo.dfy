/**
 What the queue manager is for: a first-in first-out list of outstanding operations and, for every queue,
 unbounded producer and consumer counters. The serial machine, with its circular table, its 16-bit
 pointers and its single stored index per queue, is proved to implement it.
 */
module CplFifo {
  import opened Arith
  import opened CplQueueManager

  // An outstanding operation; ptr is the producer counter after it.
  datatype Op = Op(queue: nat, ptr: nat, committed: bool)

  // fin counts finalized records, cons is the last consumer counter written by the driver.
  datatype Queue = Queue(fin: nat, cons: nat, eqn: nat, flags: Flags, base: seq<nat>)
  {
    function Size(): nat { Pow2(flags.logSize) }
  }

  // first is the tag of the oldest operation; entries is the number of tags.
  datatype Fifo = Fifo(queues: seq<Queue>, ops: seq<Op>, first: nat, entries: nat)
  {
    function Started(q: nat): nat
      requires q < |queues|
    {
      queues[q].fin + Count(ops, q)
    }

    function Tag(i: nat): nat { Slot(first, i, entries) }
  }

  function Count(ops: seq<Op>, q: nat): nat {
    if ops == [] then 0 else Count(ops[..|ops| - 1], q) + Bit(ops[|ops| - 1].queue == q, 1)
  }

  // The i-th slot from first, going round.
  function Slot(first: nat, i: nat, n: nat): nat { if first + i < n then first + i else first + i - n }

  // How far slot t is from first, going round.
  function Distance(first: nat, t: nat, n: nat): int { if t >= first then t - first else t - first + n }

  // ---- well-formed states ----

  ghost predicate Valid(a: Fifo) {
    && 0 < a.entries && a.first < a.entries && |a.ops| <= a.entries
    && (forall i :: 0 <= i < |a.ops| ==> a.ops[i].queue < |a.queues|)
    && (forall q :: 0 <= q < |a.queues| ==> a.queues[q].flags.logSize < 16 && |a.queues[q].base| == 7)
    // a queue's operations hold the consecutive pointers fin+1, fin+2, ... in list order
    && (forall i :: 0 <= i < |a.ops| ==> PtrOk(a, i))
    && (forall q :: 0 <= q < |a.queues| && a.queues[q].flags.enable ==> Occupied(a, q))
  }

  ghost predicate PtrOk(a: Fifo, i: nat)
    requires i < |a.ops| && a.ops[i].queue < |a.queues|
  {
    a.ops[i].ptr == PtrOf(a, i)
  }

  function PtrOf(a: Fifo, i: nat): nat
    requires i < |a.ops| && a.ops[i].queue < |a.queues|
  {
    a.queues[a.ops[i].queue].fin + 1 + Count(a.ops[..i], a.ops[i].queue)
  }

  // Records started and not yet released by the consumer fit the ring.
  ghost predicate Occupied(a: Fifo, q: nat)
    requires q < |a.queues|
  {
    a.queues[q].cons <= a.Started(q) <= a.queues[q].cons + a.queues[q].Size()
  }

  // ---- steps ----

  datatype Answer = Answer(index: nat, phase: bool, slot: nat, tag: nat, full: bool, error: bool)

  function Answers(a: Fifo, q: nat): Answer
    requires q < |a.queues|
  {
    var n, size := a.Started(q), a.queues[q].Size();
    var on := a.queues[q].flags.enable;
    Answer(n, (n / size) % 2 == 0, n % size, a.Tag(|a.ops|), on && n - a.queues[q].cons >= size, !on)
  }

  function Request(a: Fifo, q: nat): Fifo
    requires q < |a.queues|
  {
    if Answers(a, q).full || Answers(a, q).error then a
    else a.(ops := a.ops + [Op(q, a.Started(q) + 1, false)])
  }

  function Finalize(a: Fifo): Fifo
    requires a.ops != [] && a.ops[0].queue < |a.queues|
  {
    var q := a.ops[0].queue;
    var f := a.queues[q].flags;
    a.(queues := a.queues[q := a.queues[q].(fin := a.ops[0].ptr, flags := f.(armed := f.armed && f.continuous))],
       ops := a.ops[1..], first := Slot(a.first, 1, a.entries))
  }

  function FinalizeEvent(a: Fifo): Option<Event>
    requires a.ops != [] && a.ops[0].queue < |a.queues|
  {
    var q := a.ops[0].queue;
    if a.queues[q].flags.armed then Some(Event(a.queues[q].eqn, q)) else None
  }

  function Commit(a: Fifo, i: nat): Fifo
    requires i < |a.ops|
  {
    a.(ops := a.ops[i := a.ops[i].(committed := true)])
  }

  // What a driver writes to the control register of a queue, with unbounded pointers.
  datatype Command =
    | SetSize(logSize: nat)
    | SetEqn(eqn: nat)
    | SetProd(ptr: nat)
    | SetCons(ptr: nat)
    | SetConsArm(ptr: nat)
    | SetEnable(on: bool)
    | SetArm(on: bool)

  // Encoded as the drivers do: command code in the upper bits, pointers masked to 16 bits.
  function Encode(c: Command): nat {
    match c
    case SetSize(n) => 0x8002_0000 + n
    case SetEqn(n) => 0xC000_0000 + n
    case SetProd(p) => 0x8080_0000 + p % PTR
    case SetCons(p) => 0x8090_0000 + p % PTR
    case SetConsArm(p) => 0x8091_0000 + p % PTR
    case SetEnable(on) => 0x4000_0100 + Bit(on, 1)
    case SetArm(on) => 0x4000_0200 + Bit(on, 1)
  }

  function Obey(w: Queue, c: Command): Queue {
    var on := w.flags.enable;
    match c
    case SetSize(n) => if on then w else w.(flags := w.flags.(logSize := n))
    case SetEqn(n) => if on then w else w.(eqn := n)
    case SetProd(p) => if on then w else w.(fin := p)
    case SetCons(p) => w.(cons := p)
    case SetConsArm(p) => w.(cons := p, flags := w.flags.(armed := !(on && w.fin != p)))
    case SetEnable(b) => w.(flags := w.flags.(enable := b))
    case SetArm(b) => w.(flags := w.flags.(armed := b && !(on && w.fin != w.cons)))
  }

  // Arming a queue that already has unreleased records rings at once.
  predicate Rings(w: Queue, c: Command) {
    w.flags.enable && ((c.SetConsArm? && w.fin != c.ptr) || (c.SetArm? && c.on && w.fin != w.cons))
  }

  // The driver's side of the contract: field widths, pointers moved forward within what was started,
  // and a queue reprogrammed only while disabled with nothing outstanding.
  ghost predicate Legal(a: Fifo, q: nat, c: Command)
    requires q < |a.queues|
  {
    var w := a.queues[q];
    match c
    case SetSize(n) => n < 16
    case SetEqn(n) => n < PTR
    case SetProd(_) => w.flags.enable || Count(a.ops, q) == 0
    case SetCons(p) => w.flags.enable ==> w.cons <= p <= a.Started(q)
    case SetConsArm(p) => w.flags.enable ==> w.cons <= p <= a.Started(q)
    case SetEnable(on) => on ==> Occupied(a, q)
    case SetArm(_) => true
  }

  function Program(a: Fifo, q: nat, c: Command): Fifo
    requires q < |a.queues|
  {
    a.(queues := a.queues[q := Obey(a.queues[q], c)])
  }

  // ---- counting ----

  lemma {:induction false} CountHead(ops: seq<Op>, q: nat)
    requires ops != []
    ensures Count(ops, q) == Bit(ops[0].queue == q, 1) + Count(ops[1..], q)
  {
    var n := |ops| - 1;
    if n > 0 {
      CountHead(ops[..n], q);
      assert ops[..n][1..] == ops[1..][..n - 1];
    } else {
      assert ops[..n] == [] && ops[1..] == [];
    }
  }

  lemma {:induction false} CountSplit(ops: seq<Op>, i: nat, q: nat)
    requires i <= |ops|
    ensures Count(ops, q) == Count(ops[..i], q) + Count(ops[i..], q)
  {
    if i < |ops| {
      var n := |ops| - 1;
      CountSplit(ops[..n], i, q);
      assert ops[..n][..i] == ops[..i];
      assert ops[i..][..n - i] == ops[..n][i..];
    } else {
      assert ops[..i] == ops && ops[i..] == [];
    }
  }

  lemma {:induction false} CountNone(ops: seq<Op>, q: nat)
    ensures Count(ops, q) == 0 <==> forall i :: 0 <= i < |ops| ==> ops[i].queue != q
    ensures Count(ops, q) <= |ops|
  {
    if ops != [] { CountNone(ops[..|ops| - 1], q); }
  }

  lemma {:induction false} CountIgnoresCommit(ops: seq<Op>, i: nat, q: nat)
    requires i < |ops|
    ensures Count(ops[i := ops[i].(committed := true)], q) == Count(ops, q)
  {
    var n := |ops| - 1;
    var upd := ops[i := ops[i].(committed := true)];
    if i < n {
      CountIgnoresCommit(ops[..n], i, q);
      assert upd[..n] == ops[..n][i := ops[i].(committed := true)];
    } else {
      assert upd[..n] == ops[..n];
    }
  }

  // The youngest operation of a queue, when it has one, holds the pointer after the last started record.
  ghost predicate IsLast(ops: seq<Op>, i: nat)
    requires i < |ops|
  {
    forall j :: i < j < |ops| ==> ops[j].queue != ops[i].queue
  }

  lemma LastHoldsStarted(a: Fifo, i: nat)
    requires Valid(a) && i < |a.ops| && IsLast(a.ops, i)
    ensures a.ops[i].ptr == a.Started(a.ops[i].queue)
  {
    var q := a.ops[i].queue;
    assert PtrOk(a, i);
    CountSplit(a.ops, i, q);
    CountHead(a.ops[i..], q);
    CountNone(a.ops[i..][1..], q);
  }

  lemma {:induction false} FindLast(ops: seq<Op>, q: nat) returns (i: nat)
    requires Count(ops, q) > 0
    ensures i < |ops| && ops[i].queue == q && IsLast(ops, i)
  {
    var n := |ops| - 1;
    if ops[n].queue == q {
      i := n;
    } else {
      i := FindLast(ops[..n], q);
    }
  }

  // ---- every step keeps the state well formed ----

  lemma CountAppend(ops: seq<Op>, op: Op, q: nat)
    ensures Count(ops + [op], q) == Count(ops, q) + Bit(op.queue == q, 1)
  {
    assert (ops + [op])[..|ops|] == ops;
  }

  lemma AppendKeepsValid(a: Fifo, q: nat, r: Fifo)
    requires Valid(a) && q < |a.queues| && |a.ops| < a.entries
    requires a.Started(q) < a.queues[q].cons + a.queues[q].Size()
    requires r == a.(ops := a.ops + [Op(q, a.Started(q) + 1, false)])
    ensures Valid(r)
    ensures forall p :: 0 <= p < |a.queues| ==> r.Started(p) == a.Started(p) + Bit(p == q, 1)
  {
    forall p | 0 <= p < |a.queues| ensures r.Started(p) == a.Started(p) + Bit(p == q, 1) {
      CountAppend(a.ops, Op(q, a.Started(q) + 1, false), p);
    }
    forall i | 0 <= i < |r.ops| ensures PtrOk(r, i) {
      if i < |a.ops| { assert PtrOk(a, i) && r.ops[..i] == a.ops[..i]; } else { assert r.ops[..i] == a.ops; }
    }
    forall p | 0 <= p < |r.queues| && r.queues[p].flags.enable ensures Occupied(r, p) {
      assert Occupied(a, p);
    }
  }

  // A request appends one operation of its queue, exactly when the queue is enabled and has room.
  lemma RequestKeepsValid(a: Fifo, q: nat)
    requires Valid(a) && q < |a.queues| && |a.ops| < a.entries
    ensures Valid(Request(a, q))
    ensures
      var started := a.queues[q].flags.enable && a.Started(q) < a.queues[q].cons + a.queues[q].Size();
      && (Request(a, q) != a <==> started)
      && forall p :: 0 <= p < |a.queues| ==> Request(a, q).Started(p) == a.Started(p) + Bit(p == q && started, 1)
  {
    var x := Answers(a, q);
    if !x.full && !x.error {
      AppendKeepsValid(a, q, Request(a, q));
      assert |Request(a, q).ops| == |a.ops| + 1;
    }
  }

  // Finalizing the oldest operation moves one record of its queue from outstanding to finalized.
  lemma FinalizeKeepsValid(a: Fifo)
    requires Valid(a) && a.ops != []
    ensures Valid(Finalize(a))
    ensures a.ops[0].ptr == a.queues[a.ops[0].queue].fin + 1
    ensures forall p :: 0 <= p < |a.queues| ==> Finalize(a).Started(p) == a.Started(p)
  {
    var r, h := Finalize(a), a.ops[0];
    assert PtrOk(a, 0);
    forall p | 0 <= p < |a.queues| ensures r.Started(p) == a.Started(p) {
      CountHead(a.ops, p);
    }
    forall i | 0 <= i < |r.ops| ensures PtrOk(r, i) {
      assert r.ops[i] == a.ops[i + 1] && PtrOk(a, i + 1);
      assert a.ops[..i + 1][1..] == r.ops[..i];
      CountHead(a.ops[..i + 1], r.ops[i].queue);
    }
  }

  lemma CommitKeepsValid(a: Fifo, i: nat)
    requires Valid(a) && i < |a.ops|
    ensures Valid(Commit(a, i))
    ensures forall p :: 0 <= p < |a.queues| ==> Commit(a, i).Started(p) == a.Started(p)
  {
    var r := Commit(a, i);
    forall p | 0 <= p < |a.queues| ensures r.Started(p) == a.Started(p) {
      CountIgnoresCommit(a.ops, i, p);
    }
    forall j | 0 <= j < |r.ops| ensures PtrOk(r, j) {
      assert PtrOk(a, j);
      if i < j {
        CountIgnoresCommit(a.ops[..j], i, a.ops[j].queue);
        assert a.ops[..j][i := a.ops[i].(committed := true)] == r.ops[..j];
      } else {
        assert r.ops[..j] == a.ops[..j];
      }
    }
  }

  lemma ProgramKeepsValid(a: Fifo, q: nat, c: Command)
    requires Valid(a) && q < |a.queues| && Legal(a, q, c)
    ensures Valid(Program(a, q, c))
  {
    var r := Program(a, q, c);
    forall i | 0 <= i < |r.ops| ensures PtrOk(r, i) {
      assert PtrOk(a, i);
      if c.SetProd? { CountNone(a.ops, q); }
    }
    forall p | 0 <= p < |r.queues| && r.queues[p].flags.enable ensures Occupied(r, p) {
      if p != q { assert Occupied(a, p); }
    }
  }
}

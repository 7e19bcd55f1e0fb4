/**
 The completion queue manager as a serial machine: the queue RAM word, the table of outstanding
 operations, and what one operation does when it executes atomically.

 Words, pointers and tags are numbers; the widths of the registers are written out as residues.
 */
module CplQueueManager {
  import opened Arith

  const PTR: nat := 65536

  // Bits 55:48 of a queue word; they share one byte enable.
  datatype Flags = Flags(logSize: nat, continuous: bool, armed: bool, enable: bool)

  // One 128-bit word of the queue RAM. base holds bits 127:76 as lanes: a nibble, then six bytes.
  datatype QueueWord = QueueWord(prod: nat, cons: nat, eqn: nat, flags: Flags, opIndex: nat, base: seq<nat>)
  {
    ghost predicate Valid() {
      prod < PTR && cons < PTR && flags.logSize < 16 && |base| == 7
    }

    function BaseAddr(): nat
      requires |base| == 7
    {
      base[0] * 0x1000 + base[1] * 0x1_0000 + base[2] * 0x100_0000
      + base[3] * 0x1_0000_0000 + base[4] * 0x100_0000_0000
      + base[5] * 0x1_0000_0000_0000 + base[6] * 0x100_0000_0000_0000
    }
  }

  const BLANK := QueueWord(0, 0, 0, Flags(0, false, false, false), 0, [0, 0, 0, 0, 0, 0, 0])

  // Byte enables, grouped by the field they cover.
  datatype Mask = Mask(prod: bool, cons: bool, eqn: bool, flags: bool, opIndex: bool, base: seq<bool>)

  const NO_LANES: seq<bool> := [false, false, false, false, false, false, false]
  const NOTHING := Mask(false, false, false, false, false, NO_LANES)

  function Merge(cur: QueueWord, data: QueueWord, be: Mask): QueueWord
    requires |cur.base| == |data.base| == |be.base| == 7
  {
    QueueWord(
      if be.prod then data.prod else cur.prod,
      if be.cons then data.cons else cur.cons,
      if be.eqn then data.eqn else cur.eqn,
      if be.flags then data.flags else cur.flags,
      if be.opIndex then data.opIndex else cur.opIndex,
      seq(7, i requires 0 <= i < 7 => if be.base[i] then data.base[i] else cur.base[i]))
  }

  // A table pointer is wide enough for exactly n entries, so it wraps from n - 1 to 0.
  function Succ(x: nat, n: nat): nat { if x + 1 == n then 0 else x + 1 }

  function Pred(x: nat, n: nat): nat
    requires x < n
  {
    if x == 0 then n - 1 else x - 1
  }

  // Outstanding operations: parallel arrays, a circular start pointer and a circular finish pointer.
  datatype Table = Table(active: seq<bool>, commit: seq<bool>, queue: seq<nat>, ptr: seq<nat>, start: nat, finish: nat)
  {
    ghost predicate Valid(queues: nat) {
      && |active| == |commit| == |queue| == |ptr| > 0
      && start < |active| && finish < |active|
      && (forall i :: 0 <= i < |queue| ==> queue[i] < queues)
      && (forall i :: 0 <= i < |ptr| ==> ptr[i] < PTR)
    }

    function Start(q: nat, p: nat): Table
      requires |active| == |commit| == |queue| == |ptr| && start < |active|
    {
      Table(active[start := true], commit[start := false], queue[start := q], ptr[start := p],
            Succ(start, |active|), finish)
    }

    function Finish(): Table
      requires finish < |active|
    {
      this.(active := active[finish := false], finish := Succ(finish, |active|))
    }

    function Record(tag: nat): Table
      requires |commit| > 0
    {
      this.(commit := commit[tag % |commit| := true])
    }

    // The queue_active wire: the stored index names a live entry of the same queue.
    predicate Owns(w: QueueWord, q: nat)
      requires |active| == |queue| > 0
    {
      active[w.opIndex % |active|] && queue[w.opIndex % |active|] == q
    }

    // The queue_ram_read_active_prod_ptr wire.
    function ActivePtr(w: QueueWord, q: nat): nat
      requires |active| == |queue| == |ptr| > 0
    {
      if Owns(w, q) then ptr[w.opIndex % |active|] else w.prod
    }
  }

  datatype Manager = Manager(ram: seq<QueueWord>, table: Table)
  {
    ghost predicate Valid() {
      && |ram| > 0
      && table.Valid(|ram|)
      && (forall q :: 0 <= q < |ram| ==> ram[q].Valid())
    }
  }

  function Initial(queues: nat, entries: nat): (m: Manager)
    requires queues > 0 && entries > 0
    ensures m.Valid()
    ensures |m.ram| == queues && |m.table.active| == entries
    ensures forall i :: 0 <= i < entries ==> !m.table.active[i]
  {
    Manager(seq(queues, _ => BLANK),
            Table(seq(entries, _ => false), seq(entries, _ => false), seq(entries, _ => 0), seq(entries, _ => 0), 0, 0))
  }

  const ALL_LANES: seq<bool> := [true, true, true, true]

  // What can sit in a pipeline stage.
  datatype StageOp =
    | Empty
    | Write(queue: nat, reg: nat, data: nat, strobe: seq<bool>)
    | Read(queue: nat, reg: nat)
    | Request(queue: nat, tag: nat)
    | Finalize(queue: nat, ptr: nat)
  {
    ghost predicate Valid(queues: nat) {
      Empty? || (queue < queues && (Write? ==> |strobe| == 4) && (Finalize? ==> ptr < PTR))
    }
  }

  datatype Response = Response(queue: nat, ptr: nat, phase: bool, addr: nat, eqn: nat, tag: nat, opTag: nat,
                               full: bool, error: bool)

  datatype Event = Event(eqn: nat, source: nat)

  // Everything the last stage decides in one cycle.
  datatype Effect = Effect(be: Mask, data: QueueWord, starts: Option<nat>, response: Option<Response>,
                           event: Option<Event>, ack: bool, rdata: Option<nat>)

  const ADDRESS_SPACE: nat := 0x1_0000_0000_0000_0000

  function Bit(b: bool, weight: nat): nat { if b then weight else 0 }

  // queue_full_idle and queue_full_active: the pointer distance reaches 2^logSize.
  predicate Full(active: nat, cons: nat, logSize: nat) {
    ((active - cons) % PTR) / Pow2(logSize) != 0
  }

  function ExecuteRequest(t: Table, w: QueueWord, q: nat, tag: nat, cplSize: nat): Effect
    requires |t.active| == |t.queue| == |t.ptr| > 0 && |w.base| == 7
  {
    var p := t.ActivePtr(w, q);
    var size := Pow2(w.flags.logSize);
    var full := w.flags.enable && Full(p, w.cons, w.flags.logSize);
    var ok := w.flags.enable && !full;
    var resp := Response(q, p, (p / size) % 2 == 0, (w.BaseAddr() + (p % size) * cplSize) % ADDRESS_SPACE,
                         w.eqn, tag, t.start, full, !w.flags.enable);
    Effect(NOTHING.(opIndex := ok), w.(opIndex := t.start % 256), if ok then Some((p + 1) % PTR) else None,
           Some(resp), None, false, None)
  }

  function ExecuteFinalize(w: QueueWord, q: nat, ptr: nat): Effect {
    var disarm := w.flags.armed && !w.flags.continuous;
    Effect(NOTHING.(prod := true, flags := disarm),
           w.(prod := ptr, flags := if disarm then w.flags.(armed := false) else w.flags),
           None, None, if w.flags.armed then Some(Event(w.eqn, q)) else None, false, None)
  }

  // The control/status commands, with the command code in the upper bits of the data.
  function ExecuteCommand(w: QueueWord, q: nat, d: nat): Effect {
    var low := d % 0x1_0000;
    var quiet := Effect(NOTHING, w, None, None, None, true, None);
    if d / 0x1_0000 == 0x8002 then
      if w.flags.enable then quiet else quiet.(be := NOTHING.(flags := true), data := w.(flags := w.flags.(logSize := d % 16)))
    else if d / 0x100_0000 == 0xC0 then
      if w.flags.enable then quiet else quiet.(be := NOTHING.(eqn := true), data := w.(eqn := low))
    else if d / 0x1_0000 == 0x8080 then
      if w.flags.enable then quiet else quiet.(be := NOTHING.(prod := true), data := w.(prod := low))
    else if d / 0x1_0000 == 0x8090 then
      quiet.(be := NOTHING.(cons := true), data := w.(cons := low))
    else if d / 0x1_0000 == 0x8091 then
      var ring := w.flags.enable && w.prod != low;
      quiet.(be := NOTHING.(cons := true, flags := true), data := w.(cons := low, flags := w.flags.(armed := !ring)),
             event := if ring then Some(Event(w.eqn, q)) else None)
    else if d / 0x100 == 0x40_0001 then
      quiet.(be := NOTHING.(flags := true), data := w.(flags := w.flags.(enable := d % 2 == 1)))
    else if d / 0x100 == 0x40_0002 then
      var ring := w.flags.enable && d % 2 == 1 && w.prod != w.cons;
      quiet.(be := NOTHING.(flags := true), data := w.(flags := w.flags.(armed := d % 2 == 1 && !ring)),
             event := if ring then Some(Event(w.eqn, q)) else None)
    else
      quiet
  }

  function ExecuteWrite(w: QueueWord, q: nat, reg: nat, d: nat, strobe: seq<bool>): Effect
    requires |w.base| == 7 && |strobe| == 4
  {
    var quiet := Effect(NOTHING, w, None, None, None, true, None);
    if reg == 0 then
      if w.flags.enable then quiet
      else quiet.(be := NOTHING.(base := strobe[..3] + [false, false, false, false]),
                  data := w.(base := [(d / 0x1000) % 16, (d / 0x1_0000) % 256, (d / 0x100_0000) % 256] + w.base[3..]))
    else if reg == 1 then
      if w.flags.enable then quiet
      else quiet.(be := NOTHING.(base := [false, false, false] + strobe),
                  data := w.(base := w.base[..3] + [d % 256, (d / 0x100) % 256, (d / 0x1_0000) % 256, (d / 0x100_0000) % 256]))
    else
      ExecuteCommand(w, q, d)
  }

  function ReadRegister(w: QueueWord, owned: bool, reg: nat): nat
    requires |w.base| == 7
  {
    if reg == 0 then w.base[0] * 0x1000 + w.base[1] * 0x1_0000 + w.base[2] * 0x100_0000
    else if reg == 1 then w.base[3] + w.base[4] * 0x100 + w.base[5] * 0x1_0000 + w.base[6] * 0x100_0000
    else if reg == 2 then
      w.eqn + Bit(w.flags.enable, 0x1_0000) + Bit(w.flags.armed, 0x2_0000) + Bit(w.flags.continuous, 0x4_0000)
      + Bit(owned, 0x8_0000) + w.flags.logSize * 0x1000_0000
    else w.prod + w.cons * PTR
  }

  function Execute(t: Table, w: QueueWord, op: StageOp, cplSize: nat): (e: Effect)
    requires |t.active| == |t.queue| == |t.ptr| > 0 && |w.base| == 7
    requires op.Write? ==> |op.strobe| == 4
    ensures w.Valid() && (op.Finalize? ==> op.ptr < PTR) ==> Fits(e, op, w)
  {
    match op
    case Empty => Effect(NOTHING, w, None, None, None, false, None)
    case Write(q, reg, d, strobe) => ExecuteWrite(w, q, reg, d, strobe)
    case Read(q, reg) => Effect(NOTHING, w, None, None, None, false, Some(ReadRegister(w, t.Owns(w, q), reg)))
    case Request(q, tag) => ExecuteRequest(t, w, q, tag, cplSize)
    case Finalize(q, ptr) => ExecuteFinalize(w, q, ptr)
  }

  // Which outputs an operation can drive, and that the word stays well formed.
  ghost predicate Fits(e: Effect, op: StageOp, w: QueueWord) {
    && |w.base| == |e.data.base| == |e.be.base| == 7 && Merge(w, e.data, e.be).Valid()
    && (e.starts.Some? ==> op.Request? && e.starts.value < PTR)
    && (e.response.Some? <==> op.Request?) && (e.rdata.Some? <==> op.Read?) && (e.ack <==> op.Write?)
  }

  // ---- the serial machine ----

  // An operation is enabled when the table lets the dispatch stage accept it.
  predicate Enabled(m: Manager, op: StageOp)
    requires m.table.finish < |m.table.active| == |m.table.commit| == |m.table.queue| == |m.table.ptr|
    requires m.table.start < |m.table.active|
  {
    match op
    case Request(q, _) => !m.table.active[m.table.start]
    case Finalize(q, p) =>
      m.table.active[m.table.finish] && m.table.commit[m.table.finish]
      && q == m.table.queue[m.table.finish] && p == m.table.ptr[m.table.finish]
    case _ => true
  }

  // The effect of op on its queue's word, with the word read and written in one go.
  function EffectOf(m: Manager, op: StageOp, cplSize: nat): Effect
    requires m.Valid() && op.Valid(|m.ram|)
  {
    Execute(m.table, if op.Empty? then m.ram[0] else m.ram[op.queue], op, cplSize)
  }

  // The state after op when it decides e.
  function ApplyEffect(m: Manager, op: StageOp, e: Effect): (r: Manager)
    requires m.Valid() && op.Valid(|m.ram|) && (op.Empty? || Fits(e, op, m.ram[op.queue]))
    ensures r.Valid() && |r.ram| == |m.ram| && |r.table.active| == |m.table.active|
  {
    if op.Empty? then m else
    Manager(m.ram[op.queue := Merge(m.ram[op.queue], e.data, e.be)],
            if e.starts.Some? then m.table.Start(op.queue, e.starts.value)
            else if op.Finalize? then m.table.Finish() else m.table)
  }

  function Apply(m: Manager, op: StageOp, cplSize: nat): (r: Manager)
    requires m.Valid() && op.Valid(|m.ram|)
    ensures r.Valid() && |r.ram| == |m.ram| && |r.table.active| == |m.table.active|
  {
    if op.Empty? then m else
    ApplyEffect(m, op, EffectOf(m, op, cplSize))
  }

  function Record(m: Manager, tag: nat): (r: Manager)
    requires m.Valid()
    ensures r.Valid() && |r.ram| == |m.ram| && |r.table.active| == |m.table.active|
  {
    m.(table := m.table.Record(tag))
  }
}

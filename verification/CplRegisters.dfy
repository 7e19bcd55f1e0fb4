/**
 The register file that a driver sees: what a read returns in terms of the counters and flags of the queue,
 which words written are commands, what a locked register keeps, and how byte strobes act on the base address.
 */
module CplRegisters {
  import opened Arith
  import opened CplQueueManager
  import R = CplRefinement
  import F = CplFifo
  import S = CplSimulation

  // ---- field widths ----

  // The fields of a word fit the bits the RAM keeps for them.
  ghost predicate InWidth(w: QueueWord) {
    w.Valid() && w.eqn < PTR && w.base[0] < 16 && forall i :: 1 <= i < 7 ==> w.base[i] < 256
  }

  ghost predicate AllInWidth(m: Manager) { m.Valid() && forall q :: 0 <= q < |m.ram| ==> InWidth(m.ram[q]) }

  lemma WriteInWidth(w: QueueWord, q: nat, reg: nat, d: nat, strobe: seq<bool>)
    requires InWidth(w) && d < 0x1_0000_0000 && |strobe| == 4
    ensures
      var e := ExecuteWrite(w, q, reg, d, strobe);
      |e.data.base| == |e.be.base| == 7 && Merge(w, e.data, e.be).eqn < PTR
      && Merge(w, e.data, e.be).base[0] < 16 && forall i :: 1 <= i < 7 ==> Merge(w, e.data, e.be).base[i] < 256
  {
  }

  /** No operation makes a field wider than its bits. */
  lemma StaysInWidth(m: Manager, op: StageOp, cplSize: nat)
    requires AllInWidth(m) && op.Valid(|m.ram|) && (op.Write? ==> op.data < 0x1_0000_0000)
    ensures AllInWidth(Apply(m, op, cplSize))
  {
    if op.Write? {
      WriteInWidth(m.ram[op.queue], op.queue, op.reg, op.data, op.strobe);
    } else if !op.Empty? {
      var w := m.ram[op.queue];
      assert InWidth(w);
      var e := EffectOf(m, op, cplSize);
      assert Merge(w, e.data, e.be).base == w.base;
    }
  }

  ghost predicate WordsInWidth(ops: seq<R.Atomic>) {
    forall k :: 0 <= k < |ops| && ops[k].Do? && ops[k].op.Write? ==> ops[k].op.data < 0x1_0000_0000
  }

  /** So a run from reset never reads one field into another. */
  lemma {:induction false} RunStaysInWidth(queues: nat, entries: nat, ops: seq<R.Atomic>, s: R.Serial, cplSize: nat)
    requires queues > 0 && entries > 0 && WordsInWidth(ops)
    requires R.SerialReaches(Initial(queues, entries), ops, s, cplSize)
    ensures AllInWidth(s.m)
    decreases |ops|
  {
    if ops != [] {
      var last := |ops| - 1;
      var before :| R.SerialExtends(Initial(queues, entries), ops, before, s, cplSize);
      RunStaysInWidth(queues, entries, ops[..last], before, cplSize);
      if ops[last].Do? { StaysInWidth(before.m, ops[last].op, cplSize); }
    }
  }

  // ---- what a read returns ----

  function ReadData(m: Manager, q: nat, reg: nat, cplSize: nat): nat
    requires m.Valid() && q < |m.ram|
  {
    EffectOf(m, Read(q, reg), cplSize).rdata.value
  }

  // The bits of v from weight on.
  predicate BitAt(v: nat, weight: nat)
    requires weight > 0
  {
    v / weight % 2 == 1
  }

  /** The status register shows the event queue number, the flags, whether an operation of the queue is outstanding, and
      the size, each in its own bits. */
  lemma StatusReads(m: Manager, a: F.Fifo, q: nat, cplSize: nat)
    requires S.Simulates(m, a) && q < |m.ram| && InWidth(m.ram[q])
    ensures
      var v, w := ReadData(m, q, 2, cplSize), a.queues[q];
      && v < 0x1_0000_0000 && v % 0x1_0000 == w.eqn && v / 0x1000_0000 == w.flags.logSize
      && (BitAt(v, 0x1_0000) <==> w.flags.enable) && (BitAt(v, 0x2_0000) <==> w.flags.armed)
      && (BitAt(v, 0x4_0000) <==> w.flags.continuous)
      && (BitAt(v, 0x8_0000) <==> F.Count(a.ops, q) > 0)
      && v / 0x10_0000 % 256 == 0
  {
    S.ActivePointerRecovered(m, a, q);
    assert S.HoldsWord(m.ram[q], a.queues[q]);
    StatusBits(m.ram[q].eqn, m.ram[q].flags, m.table.Owns(m.ram[q], q));
  }

  // A digit of a number, with what is below and above it.
  lemma DigitIs(v: nat, weight: nat, base: nat, low: nat, digit: nat, high: nat)
    requires v == (high * base + digit) * weight + low && low < weight && digit < base
    ensures v / weight == high * base + digit && v / weight % base == digit
  {
    DivModUnique(v, weight, high * base + digit, low);
    DivModUnique(high * base + digit, base, high, digit);
  }

  lemma LowStatusBits(v: nat, eqn: nat, e: nat, r: nat, high: nat)
    requires eqn < 0x1_0000 && e < 2 && r < 2 && v == eqn + e * 0x1_0000 + r * 0x2_0000 + high * 0x4_0000
    ensures v % 0x1_0000 == eqn && BitAt(v, 0x1_0000) == (e == 1) && BitAt(v, 0x2_0000) == (r == 1)
  {
    DigitIs(v, 1, 0x1_0000, 0, eqn, e + r * 2 + high * 4);
    DigitIs(v, 0x1_0000, 2, eqn, e, r + high * 2);
    DigitIs(v, 0x2_0000, 2, eqn + e * 0x1_0000, r, high);
  }

  lemma HighStatusBits(v: nat, low: nat, c: nat, o: nat, logSize: nat)
    requires low < 0x4_0000 && c < 2 && o < 2 && logSize < 16 && v == low + c * 0x4_0000 + o * 0x8_0000 + logSize * 0x1000_0000
    ensures v < 0x1_0000_0000 && v / 0x10_0000 % 256 == 0 && v / 0x1000_0000 == logSize
    ensures BitAt(v, 0x4_0000) == (c == 1) && BitAt(v, 0x8_0000) == (o == 1)
  {
    DigitIs(v, 0x4_0000, 2, low, c, o + logSize * 0x200);
    DigitIs(v, 0x8_0000, 2, low + c * 0x4_0000, o, logSize * 0x100);
    DigitIs(v, 0x10_0000, 256, low + c * 0x4_0000 + o * 0x8_0000, 0, logSize);
    DigitIs(v, 0x1000_0000, 16, low + c * 0x4_0000 + o * 0x8_0000, logSize, 0);
  }

  lemma StatusBits(eqn: nat, f: Flags, owned: bool)
    requires eqn < 0x1_0000 && f.logSize < 16
    ensures
      var v := eqn + Bit(f.enable, 0x1_0000) + Bit(f.armed, 0x2_0000) + Bit(f.continuous, 0x4_0000) + Bit(owned, 0x8_0000)
               + f.logSize * 0x1000_0000;
      && v < 0x1_0000_0000 && v % 0x1_0000 == eqn && v / 0x1000_0000 == f.logSize
      && BitAt(v, 0x1_0000) == f.enable && BitAt(v, 0x2_0000) == f.armed
      && BitAt(v, 0x4_0000) == f.continuous && BitAt(v, 0x8_0000) == owned && v / 0x10_0000 % 256 == 0
  {
    var e, r, c, o := Bit(f.enable, 1), Bit(f.armed, 1), Bit(f.continuous, 1), Bit(owned, 1);
    var v := eqn + e * 0x1_0000 + r * 0x2_0000 + c * 0x4_0000 + o * 0x8_0000 + f.logSize * 0x1000_0000;
    LowStatusBits(v, eqn, e, r, c + o * 2 + f.logSize * 0x400);
    HighStatusBits(v, eqn + e * 0x1_0000 + r * 0x2_0000, c, o, f.logSize);
  }

  /** The pointer register shows the counters of finalized and of released records, each modulo 2^16. */
  lemma PointersRead(m: Manager, a: F.Fifo, q: nat, cplSize: nat)
    requires S.Simulates(m, a) && q < |m.ram|
    ensures
      var v := ReadData(m, q, 3, cplSize);
      v % PTR == a.queues[q].fin % PTR && v / PTR == a.queues[q].cons % PTR
  {
    assert S.HoldsWord(m.ram[q], a.queues[q]);
  }

  // mqnic_cq_read_prod_ptr: the driver's pointer moves on to the upper half of the pointer register.
  function ReadBack(v: nat, prod: nat): nat
  {
    prod + (v / PTR - prod) % PTR
  }

  /** The driver's read-back of a producer pointer gives it the consumer pointer; on an enabled queue that is the producer
      pointer if and only if the two are equal. */
  lemma ReadBackIsProducerIff(m: Manager, a: F.Fifo, q: nat, prod: nat, cplSize: nat)
    requires S.Simulates(m, a) && q < |m.ram|
    ensures
      var r, w := ReadBack(ReadData(m, q, 3, cplSize), prod), a.queues[q];
      && prod <= r < prod + PTR && r % PTR == w.cons % PTR
      && (w.flags.enable ==> (r % PTR == w.fin % PTR <==> w.fin == w.cons))
  {
    var v, w := ReadData(m, q, 3, cplSize), a.queues[q];
    PointersRead(m, a, q, cplSize);
    ModAdd(v / PTR - prod, prod, PTR);
    SmallResidue(w.cons);
    if w.flags.enable {
      S.PointersClose(a, q);
      if w.fin % PTR == w.cons % PTR { ModInjective(w.fin, w.cons, PTR); }
    }
  }

  lemma SmallResidue(n: nat)
    ensures n % PTR % PTR == n % PTR
  {
  }

  // ---- which words are commands ----

  /** What a word written to the control register asks for: pointers and the event queue number in the lower 16 bits,
      a size in the lower 4, an on/off in bit 0. */
  predicate Asks(d: nat, c: F.Command) {
    match c
    case SetSize(n) => d / 0x1_0000 == 0x8002 && n == d % 16
    case SetEqn(e) => d / 0x100_0000 == 0xC0 && e == d % 0x1_0000
    case SetProd(p) => d / 0x1_0000 == 0x8080 && p == d % 0x1_0000
    case SetCons(p) => d / 0x1_0000 == 0x8090 && p == d % 0x1_0000
    case SetConsArm(p) => d / 0x1_0000 == 0x8091 && p == d % 0x1_0000
    case SetEnable(on) => d / 0x100 == 0x40_0001 && on == (d % 2 == 1)
    case SetArm(on) => d / 0x100 == 0x40_0002 && on == (d % 2 == 1)
  }

  // Two words with the same code and the same bits of the value asked for.
  ghost predicate SameRequest(d: nat, e: nat) {
    || (d / 0x1_0000 == e / 0x1_0000 == 0x8002 && d % 16 == e % 16)
    || (d / 0x1_0000 == e / 0x1_0000 && d / 0x1_0000 in {0x8080, 0x8090, 0x8091} && d % 0x1_0000 == e % 0x1_0000)
    || (d / 0x100_0000 == e / 0x100_0000 == 0xC0 && d % 0x1_0000 == e % 0x1_0000)
    || (d / 0x100 == e / 0x100 && d / 0x100 in {0x40_0001, 0x40_0002} && d % 2 == e % 2)
  }

  lemma SameRequestActs(w: QueueWord, q: nat, d: nat, e: nat)
    requires SameRequest(d, e)
    ensures ExecuteCommand(w, q, d) == ExecuteCommand(w, q, e)
  {
  }

  // code * weight + low, seen through the two widths that a command uses.
  lemma Splits(code: nat, weight: nat, low: nat, part: nat)
    requires part > 0 && weight % part == 0 && low < part <= weight
    ensures (code * weight + low) / weight == code && (code * weight + low) % part == low
  {
    var k := weight / part;
    assert weight == k * part;
    assert code * weight + low == (code * k) * part + low;
    DivModUnique(code * weight + low, weight, code, low);
    DivModUnique(code * weight + low, part, code * k, low);
  }

  lemma EncodesPointer(d: nat, c: F.Command)
    requires Asks(d, c) && (c.SetProd? || c.SetCons? || c.SetConsArm?)
    ensures SameRequest(d, F.Encode(c))
  {
    Splits(if c.SetProd? then 0x8080 else if c.SetCons? then 0x8090 else 0x8091, 0x1_0000, c.ptr, 0x1_0000);
  }

  lemma EncodesSetting(d: nat, c: F.Command)
    requires Asks(d, c) && (c.SetSize? || c.SetEqn?)
    ensures SameRequest(d, F.Encode(c))
  {
    if c.SetSize? { Splits(0x8002, 0x1_0000, c.logSize, 16); } else { Splits(0xC0, 0x100_0000, c.eqn, 0x1_0000); }
  }

  lemma EncodesSwitch(d: nat, c: F.Command)
    requires Asks(d, c) && (c.SetEnable? || c.SetArm?)
    ensures SameRequest(d, F.Encode(c))
  {
    Splits(if c.SetEnable? then 0x40_0001 else 0x40_0002, 0x100, d % 2, 2);
  }

  /** Every word that asks for something does what the driver's own encoding of that command does. */
  lemma CommandWordsAct(w: QueueWord, q: nat, d: nat, c: F.Command)
    requires Asks(d, c)
    ensures ExecuteCommand(w, q, d) == ExecuteCommand(w, q, F.Encode(c))
  {
    if c.SetEnable? || c.SetArm? {
      EncodesSwitch(d, c);
    } else if c.SetSize? || c.SetEqn? {
      EncodesSetting(d, c);
    } else {
      EncodesPointer(d, c);
    }
    SameRequestActs(w, q, d, F.Encode(c));
  }

  /** A word that asks for nothing is acknowledged and changes nothing. */
  lemma OtherWordsDoNothing(m: Manager, q: nat, reg: nat, d: nat, strobe: seq<bool>, cplSize: nat)
    requires m.Valid() && q < |m.ram| && reg >= 2 && |strobe| == 4 && forall c :: !Asks(d, c)
    ensures Apply(m, Write(q, reg, d, strobe), cplSize) == m
    ensures EffectOf(m, Write(q, reg, d, strobe), cplSize).event == None && EffectOf(m, Write(q, reg, d, strobe), cplSize).ack
  {
    var w := m.ram[q];
    assert !Asks(d, F.SetSize(d % 16)) && !Asks(d, F.SetEqn(d % 0x1_0000)) && !Asks(d, F.SetProd(d % 0x1_0000));
    assert !Asks(d, F.SetCons(d % 0x1_0000)) && !Asks(d, F.SetConsArm(d % 0x1_0000));
    assert !Asks(d, F.SetEnable(d % 2 == 1)) && !Asks(d, F.SetArm(d % 2 == 1));
    assert Merge(w, w, NOTHING) == w;
  }

  /** While a queue is enabled its place, size, event queue and producer pointer are locked: such a write changes
      nothing at all. */
  lemma LockedWhileEnabled(m: Manager, q: nat, reg: nat, d: nat, strobe: seq<bool>, cplSize: nat)
    requires m.Valid() && q < |m.ram| && m.ram[q].flags.enable && |strobe| == 4
    requires reg < 2 || exists c: F.Command :: Asks(d, c) && (c.SetSize? || c.SetEqn? || c.SetProd?)
    ensures Apply(m, Write(q, reg, d, strobe), cplSize) == m
    ensures EffectOf(m, Write(q, reg, d, strobe), cplSize).event == None
  {
    var w := m.ram[q];
    assert Merge(w, w, NOTHING) == w;
  }

  // What the status and pointer registers show.
  ghost predicate Shows(m: Manager, q: nat, cplSize: nat, eqn: nat, logSize: nat, enable: bool, armed: bool, fin: nat, cons: nat)
    requires m.Valid() && q < |m.ram|
  {
    var v, p := ReadData(m, q, 2, cplSize), ReadData(m, q, 3, cplSize);
    && v % 0x1_0000 == eqn && v / 0x1000_0000 == logSize && BitAt(v, 0x1_0000) == enable && BitAt(v, 0x2_0000) == armed
    && p % PTR == fin % PTR && p / PTR == cons % PTR
  }

  lemma ShowsQueue(m: Manager, a: F.Fifo, q: nat, cplSize: nat)
    requires S.Simulates(m, a) && q < |m.ram| && InWidth(m.ram[q])
    ensures
      var w := a.queues[q];
      Shows(m, q, cplSize, w.eqn, w.flags.logSize, w.flags.enable, w.flags.armed, w.fin, w.cons)
  {
    StatusReads(m, a, q, cplSize);
    PointersRead(m, a, q, cplSize);
  }

  lemma WrittenInWidth(m: Manager, q: nat, reg: nat, d: nat, strobe: seq<bool>, cplSize: nat)
    requires m.Valid() && q < |m.ram| && InWidth(m.ram[q]) && d < 0x1_0000_0000 && |strobe| == 4
    ensures InWidth(Apply(m, Write(q, reg, d, strobe), cplSize).ram[q])
  {
    WriteInWidth(m.ram[q], q, reg, d, strobe);
  }

  lemma EncodedFits(a: F.Fifo, q: nat, c: F.Command)
    requires q < |a.queues| && F.Legal(a, q, c)
    ensures F.Encode(c) < 0x1_0000_0000
  {
  }

  /** What the registers read after a command of the driver: the fields it names are what it asked for, unless the queue
      is enabled and locks them; all others are as before. An arm sticks unless the queue is enabled with unequal
      pointers. */
  lemma CommandReadsBack(m: Manager, a: F.Fifo, q: nat, c: F.Command, cplSize: nat)
    requires S.Simulates(m, a) && q < |m.ram| && InWidth(m.ram[q]) && F.Legal(a, q, c)
    ensures
      var m', w := Apply(m, Write(q, 2, F.Encode(c), ALL_LANES), cplSize), a.queues[q];
      var on := w.flags.enable;
      match c
      case SetSize(n) => Shows(m', q, cplSize, w.eqn, if on then w.flags.logSize else n, on, w.flags.armed, w.fin, w.cons)
      case SetEqn(n) => Shows(m', q, cplSize, if on then w.eqn else n, w.flags.logSize, on, w.flags.armed, w.fin, w.cons)
      case SetProd(p) => Shows(m', q, cplSize, w.eqn, w.flags.logSize, on, w.flags.armed, if on then w.fin else p, w.cons)
      case SetCons(p) => Shows(m', q, cplSize, w.eqn, w.flags.logSize, on, w.flags.armed, w.fin, p)
      case SetConsArm(p) => Shows(m', q, cplSize, w.eqn, w.flags.logSize, on, !(on && w.fin != p), w.fin, p)
      case SetEnable(e) => Shows(m', q, cplSize, w.eqn, w.flags.logSize, e, w.flags.armed, w.fin, w.cons)
      case SetArm(e) => Shows(m', q, cplSize, w.eqn, w.flags.logSize, on, e && !(on && w.fin != w.cons), w.fin, w.cons)
  {
    S.CommandSimulates(m, a, q, c, 2, ALL_LANES, cplSize);
    EncodedFits(a, q, c);
    WrittenInWidth(m, q, 2, F.Encode(c), ALL_LANES, cplSize);
    ShowsQueue(Apply(m, Write(q, 2, F.Encode(c), ALL_LANES), cplSize), F.Program(a, q, c), q, cplSize);
  }

  // ---- the base address, read back ----

  function Byte(v: nat, k: nat): nat
    requires k < 4
  {
    if k == 0 then v % 0x100 else if k == 1 then v / 0x100 % 0x100 else if k == 2 then v / 0x1_0000 % 0x100 else v / 0x100_0000 % 0x100
  }

  // A byte of the word that a base register keeps: the lower one has no bits below 2^12.
  function Kept(d: nat, reg: nat, k: nat): nat
    requires k < 4
  {
    if reg == 0 && k == 0 then 0 else if reg == 0 && k == 1 then Byte(d, 1) / 16 * 16 else Byte(d, k)
  }

  // The strobe bit that the RAM's byte enable is wired to: one to the right in the lower register.
  function Strobe(strobe: seq<bool>, reg: nat, k: nat): bool
    requires |strobe| == 4 && k < 4
  {
    if reg == 0 then k > 0 && strobe[k - 1] else strobe[k]
  }

  // Byte k of a base register, as the lanes of the word hold it.
  function LaneByte(base: seq<nat>, reg: nat, k: nat): nat
    requires |base| == 7 && reg < 2 && k < 4
  {
    if reg == 1 then base[3 + k] else if k == 0 then 0 else if k == 1 then base[0] * 16 else base[k - 1]
  }

  lemma LanesRead(m: Manager, q: nat, reg: nat, k: nat, cplSize: nat)
    requires m.Valid() && q < |m.ram| && InWidth(m.ram[q]) && reg < 2 && k < 4
    ensures Byte(ReadData(m, q, reg, cplSize), k) == LaneByte(m.ram[q].base, reg, k)
  {
    var b := m.ram[q].base;
    if reg == 0 { Bytes(0, b[0] * 16, b[1], b[2]); } else { Bytes(b[3], b[4], b[5], b[6]); }
  }

  lemma Bytes(x: nat, y: nat, z: nat, u: nat)
    requires x < 256 && y < 256 && z < 256 && u < 256
    ensures
      var v := x + y * 0x100 + z * 0x1_0000 + u * 0x100_0000;
      Byte(v, 0) == x && Byte(v, 1) == y && Byte(v, 2) == z && Byte(v, 3) == u
  {
    var v := x + y * 0x100 + z * 0x1_0000 + u * 0x100_0000;
    DigitIs(v, 1, 256, 0, x, y + z * 0x100 + u * 0x1_0000);
    DigitIs(v, 0x100, 256, x, y, z + u * 0x100);
    DigitIs(v, 0x1_0000, 256, x + y * 0x100, z, u);
    DigitIs(v, 0x100_0000, 256, x + y * 0x100 + z * 0x1_0000, u, 0);
  }

  // The nibble that the lowest lane keeps.
  lemma Nibble(d: nat)
    ensures (d / 0x1000) % 16 * 16 == Byte(d, 1) / 16 * 16
  {
    var h, r := d / 0x1_0000, d % 0x1_0000;
    var n, s := r / 0x1000, r % 0x1000;
    DigitIs(d, 0x1000, 16, s, n, h);
    DigitIs(d, 0x100, 256, s % 0x100, n * 16 + s / 0x100, h);
    DivModUnique(n * 16 + s / 0x100, 16, n, s / 0x100);
  }

  // The lanes after a base write.
  lemma LanesAfter(w: QueueWord, q: nat, reg: nat, d: nat, strobe: seq<bool>, k: nat)
    requires InWidth(w) && !w.flags.enable && reg < 2 && |strobe| == 4 && k < 4 && d < 0x1_0000_0000
    ensures
      var e := ExecuteWrite(w, q, reg, d, strobe);
      |e.data.base| == |e.be.base| == 7 &&
      var b := Merge(w, e.data, e.be).base;
      && LaneByte(b, reg, k) == (if Strobe(strobe, reg, k) then Kept(d, reg, k) else LaneByte(w.base, reg, k))
      && if reg == 0 then b[3..] == w.base[3..] else b[..3] == w.base[..3]
  {
    Nibble(d);
  }

  // A read of a base register depends on its own lanes only.
  lemma ReadsOwnLanes(m: Manager, m': Manager, q: nat, reg: nat, cplSize: nat)
    requires m.Valid() && m'.Valid() && q < |m.ram| && q < |m'.ram| && reg < 2
    requires if reg == 1 then m'.ram[q].base[3..] == m.ram[q].base[3..] else m'.ram[q].base[..3] == m.ram[q].base[..3]
    ensures ReadData(m', q, reg, cplSize) == ReadData(m, q, reg, cplSize)
  {
    var b, b' := m.ram[q].base, m'.ram[q].base;
    if reg == 1 {
      assert b[3..][0] == b'[3..][0] && b[3..][1] == b'[3..][1] && b[3..][2] == b'[3..][2] && b[3..][3] == b'[3..][3];
    } else {
      assert b[..3][0] == b'[..3][0] && b[..3][1] == b'[..3][1] && b[..3][2] == b'[..3][2];
    }
  }

  /** A write to half of the base address of a disabled queue, read back byte by byte, and the other half. */
  lemma BaseReadsBack(m: Manager, q: nat, reg: nat, d: nat, strobe: seq<bool>, k: nat, cplSize: nat)
    requires m.Valid() && q < |m.ram| && InWidth(m.ram[q]) && !m.ram[q].flags.enable
    requires reg < 2 && |strobe| == 4 && k < 4 && d < 0x1_0000_0000
    ensures
      var m' := Apply(m, Write(q, reg, d, strobe), cplSize);
      && Byte(ReadData(m', q, reg, cplSize), k)
         == (if Strobe(strobe, reg, k) then Kept(d, reg, k) else Byte(ReadData(m, q, reg, cplSize), k))
      && ReadData(m', q, 1 - reg, cplSize) == ReadData(m, q, 1 - reg, cplSize)
  {
    var m' := Apply(m, Write(q, reg, d, strobe), cplSize);
    LanesAfter(m.ram[q], q, reg, d, strobe, k);
    WrittenInWidth(m, q, reg, d, strobe, cplSize);
    LanesRead(m, q, reg, k, cplSize);
    LanesRead(m', q, reg, k, cplSize);
    ReadsOwnLanes(m, m', q, 1 - reg, cplSize);
  }

  // Byte k of the read after a write of d is what a register with byte strobes keeps.
  ghost predicate Honoured(m: Manager, q: nat, reg: nat, strobe: seq<bool>, cplSize: nat, d: nat, k: nat)
    requires m.Valid() && q < |m.ram| && |strobe| == 4 && k < 4
  {
    Byte(ReadData(Apply(m, Write(q, reg, d, strobe), cplSize), q, reg, cplSize), k)
    == if strobe[k] then Kept(d, reg, k) else Byte(ReadData(m, q, reg, cplSize), k)
  }

  ghost predicate StrobesHonoured(m: Manager, q: nat, reg: nat, strobe: seq<bool>, cplSize: nat)
    requires m.Valid() && q < |m.ram| && |strobe| == 4
  {
    forall d: nat, k: nat :: d < 0x1_0000_0000 && k < 4 ==> Honoured(m, q, reg, strobe, cplSize, d, k)
  }

  /** The upper base register honours every pattern of byte strobes; the lower one, whose enables are wired one byte
      off, honours a pattern exactly when all four strobes agree. */
  lemma StrobesHonouredIff(m: Manager, q: nat, reg: nat, strobe: seq<bool>, cplSize: nat)
    requires m.Valid() && q < |m.ram| && InWidth(m.ram[q]) && !m.ram[q].flags.enable && reg < 2 && |strobe| == 4
    ensures StrobesHonoured(m, q, reg, strobe, cplSize)
      <==> reg == 1 || (strobe[0] == strobe[1] == strobe[2] == strobe[3])
  {
    forall d: nat, k: nat | d < 0x1_0000_0000 && k < 4
      ensures Strobe(strobe, reg, k) == strobe[k] || k == 0 ==> Honoured(m, q, reg, strobe, cplSize, d, k)
    {
      BaseReadsBack(m, q, reg, d, strobe, k, cplSize);
      LanesRead(m, q, reg, k, cplSize);
    }
    if reg == 0 && !(strobe[0] == strobe[1] == strobe[2] == strobe[3]) {
      var k := if strobe[0] != strobe[1] then 1 else if strobe[1] != strobe[2] then 2 else 3;
      NotHonoured(m, q, strobe, k, cplSize);
    }
  }

  lemma Extremes(k: nat)
    requires 0 < k < 4
    ensures Kept(0, 0, k) == 0 && Kept(0xFFFF_FFFF, 0, k) > 0
  {
  }

  // A write of zeros or of ones shows a strobe that acts on the wrong byte.
  lemma NotHonoured(m: Manager, q: nat, strobe: seq<bool>, k: nat, cplSize: nat)
    requires m.Valid() && q < |m.ram| && InWidth(m.ram[q]) && !m.ram[q].flags.enable && |strobe| == 4
    requires 0 < k < 4 && strobe[k] != strobe[k - 1]
    ensures !StrobesHonoured(m, q, 0, strobe, cplSize)
  {
    var d: nat := if Byte(ReadData(m, q, 0, cplSize), k) == 0 then 0xFFFF_FFFF else 0;
    BaseReadsBack(m, q, 0, d, strobe, k, cplSize);
    Extremes(k);
    assert !Honoured(m, q, 0, strobe, cplSize, d, k);
  }
}

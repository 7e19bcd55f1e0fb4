/**
 Reading a transceiver's EEPROM as one linear space: SFP modules answer at two I2C addresses, QSFP modules have
 128 fixed bytes and an upper half that shows the page selected by byte 127.
 */
module ModuleEeprom {
  import opened Arith

  type byte = x: nat | x < 256

  const SFP: byte := 0x03
  const QSFP: byte := 0x0c
  const QSFP_PLUS: byte := 0x0d
  const QSFP28: byte := 0x11
  const BLOCK_MAX: nat := 32
  const PAGE_SELECT: nat := 127

  // The memory of a module: 128 bytes below, upper pages of 128 bytes, and the 256 bytes behind address 0x51.
  datatype Memory = Memory(lower: seq<byte>, upper: seq<seq<byte>>, diag: seq<byte>)
  {
    predicate Valid()
    {
      |lower| == 128 && |upper| == 256 && |diag| == 256 && forall p :: 0 <= p < 256 ==> |upper[p]| == 128
    }

    function Id(): byte
      requires Valid()
    {
      lower[0]
    }

    predicate IsQsfp()
      requires Valid()
    {
      Id() == QSFP || Id() == QSFP_PLUS || Id() == QSFP28
    }

    predicate Known()
      requires Valid()
    {
      Id() == SFP || IsQsfp()
    }

    // An I2C block read: consecutive bytes from an offset on.
    function ShownBlock(addr: nat, page: byte, offset: nat, n: nat): (r: seq<byte>)
      requires Valid() && offset + n <= 256
      ensures |r| == n && forall i :: 0 <= i < n ==> r[i] == Shown(addr, page, offset + i)
    {
      if n == 0 then [] else ShownBlock(addr, page, offset, n - 1) + [Shown(addr, page, offset + n - 1)]
    }

    // What the ethtool core lets a request reach, at most.
    function Space(): nat
      requires Valid()
    {
      if Id() == SFP then 512 else 640
    }

    // The byte an I2C read at this address and offset returns while the register holds page.
    function Shown(addr: nat, page: byte, offset: nat): byte
      requires Valid() && offset < 256
    {
      if addr == 0x51 then diag[offset]
      else if offset == PAGE_SELECT && IsQsfp() then page
      else if offset < 128 then lower[offset]
      else upper[if IsQsfp() then page else 0][offset - 128]
    }

    // The linear space of SFF-8472 (section 4) and SFF-8636 (section 6).
    function Linear(k: nat): byte
      requires Valid() && k < Space()
    {
      if k < 128 then lower[k]
      else if k < 256 then upper[0][k - 128]
      else if Id() == SFP then diag[k - 256]
      else upper[1 + (k - 256) / 128][(k - 256) % 128]
    }
  }

  datatype Error = Invalid | BusError

  datatype Outcome<T> = Ok(value: T) | Err(error: Error)

  // Where the driver looks for a linear offset: I2C address, page and offset there.
  datatype Place = Place(addr: nat, page: nat, offset: nat)

  function PlaceOf(m: Memory, offset: nat): (r: Place)
    requires m.Valid() && offset < m.Space()
    ensures r.offset < 256 && r.page <= 3
  {
    if m.Id() == SFP then
      (if offset >= 256 then Place(0x51, 0, offset - 256) else Place(0x50, 0, offset))
    else if offset < 256 then Place(0x50, 0, offset)
    else Place(0x50, 1 + (offset - 256) / 128, offset - (1 + (offset - 256) / 128) * 128)
  }

  /** The place shows the linear byte when its page is selected, whatever comes after it up to the end of the page;
      the only exception is the page-select byte itself. */
  lemma PlaceShowsLinear(m: Memory, offset: nat, d: nat, page: byte)
    requires m.Valid() && m.Known() && offset < m.Space() && PlaceOf(m, offset).offset + d < 256
    ensures
      var p := PlaceOf(m, offset);
      && offset + d < m.Space()
      && ((m.IsQsfp() && offset + d == PAGE_SELECT) || m.Shown(p.addr, p.page, p.offset + d) == m.Linear(offset + d))
    // below the upper half the page does not matter
    ensures PlaceOf(m, offset).offset + d < PAGE_SELECT ==>
      m.Shown(PlaceOf(m, offset).addr, page, PlaceOf(m, offset).offset + d) == m.Linear(offset + d)
  {
    if m.IsQsfp() && offset >= 256 {
      var q := (offset - 256) / 128;
      assert offset - 256 == q * 128 + (offset - 256) % 128;
      assert PlaceOf(m, offset).offset == 128 + (offset - 256) % 128;
      DivModUnique(offset + d - 256, 128, q, (offset - 256) % 128 + d);
    }
  }

  // ---- the reads as functions of the bus ----

  // What the bus will do with transaction n: bytes delivered for a data read (None: it fails), lost identifier
  // reads, lost page selects. present says whether mod_i2c_client is there.
  datatype Bus = Bus(present: bool, answers: nat -> Option<nat>, idFails: nat -> bool, selectFails: nat -> bool)

  // The page register and the number of transactions so far.
  datatype State = State(page: byte, calls: nat)

  function Used(s: State): State { s.(calls := s.calls + 1) }

  function AfterSelect(b: Bus, s: State, d: byte): State
  {
    if b.present && !b.selectFails(s.calls) then State(d, s.calls + 1) else Used(s)
  }

  function Block(m: Memory, b: Bus, s: State, addr: nat, offset: nat, len: nat): Outcome<seq<byte>>
    requires m.Valid() && offset + len <= 256
  {
    if !b.present then Err(Invalid)
    else match b.answers(s.calls)
    case None => Err(BusError)
    case Some(k) => Ok(m.ShownBlock(addr, s.page, offset, Min(k, Min(len, BLOCK_MAX))))
  }

  function IdRead(m: Memory, b: Bus, s: State): Outcome<byte>
    requires m.Valid()
  {
    if !b.present then Err(Invalid) else if b.idFails(s.calls) then Err(BusError) else Ok(m.Id())
  }

  // The page select comes before every read that reaches the upper half.
  predicate Selects(m: Memory, offset: nat, len: nat)
    requires m.Valid()
  {
    m.IsQsfp() && offset + len >= 128
  }

  predicate BadPlace(m: Memory, i2c: nat, page: nat, bank: nat)
    requires m.Valid()
  {
    if m.Id() == SFP then page > 0 || bank > 0 || (i2c != 0x50 && i2c != 0x51)
    else !m.IsQsfp() || page > 3 || bank > 0 || i2c != 0x50
  }

  // The register when the data is read.
  function AtRead(m: Memory, b: Bus, s: State, page: byte, offset: nat, len: nat): State
    requires m.Valid()
  {
    if Selects(m, offset, len) then AfterSelect(b, s, page) else s
  }

  function ByPage(m: Memory, b: Bus, s: State, i2c: nat, page: nat, bank: nat, offset: nat, len: nat): (Outcome<seq<byte>>, State)
    requires m.Valid() && offset + len <= 256
  {
    match IdRead(m, b, s)
    case Err(e) => (Err(e), Used(s))
    case Ok(_) =>
      if BadPlace(m, i2c, page, bank) then (Err(Invalid), Used(s))
      else var t := AtRead(m, b, Used(s), page, offset, len); (Block(m, b, t, i2c, offset, len), Used(t))
  }

  function Clip(at: nat, len: nat): nat { if at + len > 256 && at <= 256 then 256 - at else len }

  function AtOffset(m: Memory, b: Bus, s: State, offset: nat, len: nat): (r: (Outcome<seq<byte>>, State))
    requires m.Valid() && (m.Known() ==> offset < m.Space())
    ensures r.0.Ok? ==> m.Known() && |r.0.value| <= len && PlaceOf(m, offset).offset + |r.0.value| <= 256
  {
    match IdRead(m, b, s)
    case Err(e) => (Err(e), Used(s))
    case Ok(_) =>
      if !m.Known() then (Err(Invalid), Used(s))
      else var p := PlaceOf(m, offset);
        ByPage(m, b, Used(s), p.addr, p.page, 0, p.offset, Clip(p.offset, len))
  }

  // ---- what a bus that works gives ----

  // From this transaction on, every one succeeds and delivers all that is asked for.
  ghost predicate Works(b: Bus, calls: nat) {
    b.present && forall n :: n >= calls ==> b.answers(n) == Some(BLOCK_MAX) && !b.idFails(n) && !b.selectFails(n)
  }

  // The identifiers of the modules the driver knows, and the places it accepts for each.
  predicate Accepted(id: nat, i2c: nat, page: nat, bank: nat) {
    || (id == 0x03 && page == 0 && bank == 0 && (i2c == 0x50 || i2c == 0x51))
    || ((id == 0x0c || id == 0x0d || id == 0x11) && page <= 3 && bank == 0 && i2c == 0x50)
  }

  /** On a bus that works a read by page succeeds exactly for the places accepted, and then returns what was asked for, at
      most 32 bytes, with the page selected exactly when it is a QSFP module and the end of the read is at 128 or past
      it. A place not accepted is refused before the page register or any data is touched. */
  lemma ByPageIffAccepted(m: Memory, b: Bus, s: State, i2c: nat, page: byte, bank: nat, offset: nat, len: nat)
    requires m.Valid() && offset + len <= 256 && Works(b, s.calls)
    ensures
      var (r, t) := ByPage(m, b, s, i2c, page, bank, offset, len);
      if Accepted(m.lower[0], i2c, page, bank) then
        && r == Ok(m.ShownBlock(i2c, t.page, offset, Min(len, 32)))
        && t.page == if m.lower[0] != 0x03 && offset + len >= 128 then page else s.page
      else r == Err(Invalid) && t == State(s.page, s.calls + 1)
  {
  }

  // How many bytes of the linear space follow an offset before its page or its I2C address ends.
  function ToPageEnd(id: nat, offset: nat): nat {
    if offset < 256 then 256 - offset
    else if id == 0x03 then (if offset < 512 then 512 - offset else 0)
    else 128 - offset % 128
  }

  /** On a bus that works a read at a linear offset succeeds on every module that the driver knows, and returns the bytes
      asked for, at most 32 and at most up to the end of the page: never none. */
  lemma ReadLength(m: Memory, b: Bus, s: State, offset: nat, len: nat)
    requires m.Valid() && Works(b, s.calls) && len > 0 && (m.Known() ==> offset < m.Space())
    ensures
      var id, r := m.lower[0], AtOffset(m, b, s, offset, len).0;
      if id == 0x03 || id == 0x0c || id == 0x0d || id == 0x11 then
        r.Ok? && |r.value| == Min(32, Min(len, ToPageEnd(id, offset))) > 0
      else r == Err(Invalid)
  {
    if m.Known() {
      var p := PlaceOf(m, offset);
      if m.IsQsfp() && offset >= 256 { PageEnd(offset); }
      ByPageIffAccepted(m, b, Used(s), p.addr, p.page, 0, p.offset, Clip(p.offset, len));
    }
  }

  lemma PageEnd(offset: nat)
    requires offset >= 256
    ensures offset - (1 + (offset - 256) / 128) * 128 == 128 + offset % 128 < 256
  {
    var q, r := offset / 128, offset % 128;
    DivModUnique(offset - 256, 128, q - 2, r);
  }

  // ---- when the bytes of a module are right ----

  // A chunk of a request: the state before it, its linear offset, the length still to read, and the bytes it got.
  datatype Chunk = Chunk(before: State, offset: nat, len: nat, bytes: seq<byte>)

  // The register at the data read of a chunk; its page select is transaction calls + 2.
  function Register(m: Memory, b: Bus, c: Chunk): byte
    requires m.Valid() && m.Known() && c.offset < m.Space()
  {
    var p := PlaceOf(m, c.offset);
    AtRead(m, b, Used(Used(c.before)), p.page, p.offset, Clip(p.offset, c.len)).page
  }

  predicate RightByte(m: Memory, offset: nat, v: byte)
    requires m.Valid()
  {
    offset < m.Space() && ((m.IsQsfp() && offset == PAGE_SELECT) || v == m.Linear(offset))
  }

  // The bytes are the linear ones from offset on, byte 127 of a QSFP module excepted.
  ghost predicate Right(m: Memory, offset: nat, bytes: seq<byte>)
    requires m.Valid()
  {
    forall k :: 0 <= k < |bytes| ==> RightByte(m, offset + k, bytes[k])
  }

  // The register is the page of the chunk, or the chunk stays in the lower half, or the two pages agree on the
  // bytes it reads.
  ghost predicate PageFits(m: Memory, offset: nat, n: nat, page: byte)
    requires m.Valid() && m.Known() && offset < m.Space() && PlaceOf(m, offset).offset + n <= 256
  {
    var p := PlaceOf(m, offset);
    || !m.IsQsfp() || page == p.page || p.offset + n <= 128
    || forall j :: p.offset <= j < p.offset + n && 128 <= j ==> SameByte(m, page, p.page, j)
  }

  // Byte j of the upper half is the same in both pages.
  predicate SameByte(m: Memory, page: byte, other: byte, j: nat)
    requires m.Valid() && 128 <= j < 256
  {
    m.upper[page][j - 128] == m.upper[other][j - 128]
  }

  // One byte, whatever the register holds.
  lemma ShownIsLinearIff(m: Memory, offset: nat, d: nat, page: byte)
    requires m.Valid() && m.Known() && offset < m.Space() && PlaceOf(m, offset).offset + d < 256
    ensures
      var p := PlaceOf(m, offset);
      var j := p.offset + d;
      RightByte(m, offset + d, m.Shown(p.addr, page, j)) <==> !m.IsQsfp() || j < 128 || SameByte(m, page, p.page, j)
  {
    PlaceShowsLinear(m, offset, d, page);
    var p := PlaceOf(m, offset);
    if m.IsQsfp() && p.offset + d >= 128 {
      assert m.Shown(p.addr, p.page, p.offset + d) == m.upper[p.page][p.offset + d - 128];
    }
  }

  // A block read is right exactly when the register fits.
  lemma BlockRightIff(m: Memory, offset: nat, n: nat, page: byte)
    requires m.Valid() && m.Known() && offset < m.Space() && PlaceOf(m, offset).offset + n <= 256
    ensures Right(m, offset, m.ShownBlock(PlaceOf(m, offset).addr, page, PlaceOf(m, offset).offset, n))
       <==> PageFits(m, offset, n, page)
  {
    var p := PlaceOf(m, offset);
    var bytes := m.ShownBlock(p.addr, page, p.offset, n);
    forall d: nat | d < n
      ensures RightByte(m, offset + d, bytes[d]) <==> !m.IsQsfp() || p.offset + d < 128 || SameByte(m, page, p.page, p.offset + d)
    {
      ShownIsLinearIff(m, offset, d, page);
    }
    if Right(m, offset, bytes) && m.IsQsfp() {
      forall j: nat | p.offset <= j < p.offset + n && 128 <= j
        ensures SameByte(m, page, p.page, j)
      {
        assert RightByte(m, offset + (j - p.offset), bytes[j - p.offset]);
      }
    }
  }

  // What a read of the driver delivers is the block at its register.
  lemma ReadIsBlock(m: Memory, b: Bus, c: Chunk)
    requires m.Valid() && c.len > 0 && (m.Known() ==> c.offset + c.len <= m.Space())
    requires AtOffset(m, b, c.before, c.offset, c.len).0 == Ok(c.bytes)
    ensures m.Known() && PlaceOf(m, c.offset).offset + |c.bytes| <= 256
    ensures c.bytes == m.ShownBlock(PlaceOf(m, c.offset).addr, Register(m, b, c), PlaceOf(m, c.offset).offset, |c.bytes|)
  {
  }

  // The register fits at a chunk.
  ghost predicate ChunkFits(m: Memory, b: Bus, c: Chunk)
    requires m.Valid()
  {
    && m.Known() && c.offset < m.Space() && PlaceOf(m, c.offset).offset + |c.bytes| <= 256
    && PageFits(m, c.offset, |c.bytes|, Register(m, b, c))
  }

  lemma ChunkRightIff(m: Memory, b: Bus, c: Chunk)
    requires m.Valid() && c.len > 0 && (m.Known() ==> c.offset + c.len <= m.Space())
    requires AtOffset(m, b, c.before, c.offset, c.len).0 == Ok(c.bytes)
    ensures Right(m, c.offset, c.bytes) <==> ChunkFits(m, b, c)
  {
    ReadIsBlock(m, b, c);
    BlockRightIff(m, c.offset, |c.bytes|, Register(m, b, c));
  }

  lemma RightSplits(m: Memory, offset: nat, a: seq<byte>, b: seq<byte>)
    requires m.Valid()
    ensures Right(m, offset, a + b) <==> Right(m, offset, a) && Right(m, offset + |a|, b)
  {
    if Right(m, offset, a + b) {
      forall k | 0 <= k < |a| ensures RightByte(m, offset + k, a[k]) { assert (a + b)[k] == a[k]; }
      forall k | 0 <= k < |b| ensures RightByte(m, offset + |a| + k, b[k]) { assert (a + b)[|a| + k] == b[k]; }
    }
  }

  // The register fits at every chunk.
  ghost predicate AllFit(m: Memory, b: Bus, cs: seq<Chunk>)
    requires m.Valid()
  {
    forall i :: 0 <= i < |cs| ==> ChunkFits(m, b, cs[i])
  }

  lemma FitsOneMore(m: Memory, b: Bus, cs: seq<Chunk>, c: Chunk)
    requires m.Valid()
    ensures AllFit(m, b, cs + [c]) <==> AllFit(m, b, cs) && ChunkFits(m, b, c)
  {
    if AllFit(m, b, cs + [c]) {
      assert (cs + [c])[|cs|] == c;
      assert forall i :: 0 <= i < |cs| ==> (cs + [c])[i] == cs[i];
    }
  }

  // The bytes of the chunks in order, and the chunks as parts of the request that follow one another, the register
  // of each being what the one before it left.
  function Filled(cs: seq<Chunk>): seq<byte>
  {
    if cs == [] then [] else Filled(cs[..|cs| - 1]) + cs[|cs| - 1].bytes
  }

  ghost predicate Follows(m: Memory, b: Bus, cs: seq<Chunk>, s: State, offset: nat, len: nat, page: byte)
    requires m.Valid()
    decreases |cs|
  {
    if cs == [] then page == s.page else
    var most, c := cs[..|cs| - 1], cs[|cs| - 1];
    && c.offset == offset + |Filled(most)| < m.Space() && c.len == len - |Filled(most)| && m.Known()
    && Follows(m, b, most, s, offset, len, c.before.page) && page == Register(m, b, c)
  }

  lemma FollowsOneMore(m: Memory, b: Bus, cs: seq<Chunk>, s: State, offset: nat, len: nat, page: byte, c: Chunk)
    requires m.Valid() && Follows(m, b, cs, s, offset, len, page) && c.before.page == page
    requires m.Known() && c.offset == offset + |Filled(cs)| < m.Space() && c.len == len - |Filled(cs)|
    ensures Follows(m, b, cs + [c], s, offset, len, Register(m, b, c)) && Filled(cs + [c]) == Filled(cs) + c.bytes
  {
    assert (cs + [c])[..|cs|] == cs;
  }

  /** Bytes filled chunk by chunk are the linear bytes if and only if at each of the reads the page register holds the
      chunk's page, or the read stays below the upper half, or the two pages agree on what it reads. */
  lemma {:induction false} FilledRightIff(m: Memory, b: Bus, cs: seq<Chunk>, s: State, offset: nat, len: nat, page: byte)
    requires m.Valid() && Follows(m, b, cs, s, offset, len, page)
    requires forall i :: 0 <= i < |cs| ==> (Right(m, cs[i].offset, cs[i].bytes) <==> ChunkFits(m, b, cs[i]))
    ensures Right(m, offset, Filled(cs)) <==> AllFit(m, b, cs)
    decreases |cs|
  {
    if cs != [] {
      var most, c := cs[..|cs| - 1], cs[|cs| - 1];
      assert cs == most + [c];
      FilledRightIff(m, b, most, s, offset, len, c.before.page);
      RightSplits(m, offset, Filled(most), c.bytes);
      FitsOneMore(m, b, most, c);
    }
  }

  // The page select of a chunk succeeds if it has to change the register.
  predicate SelectHolds(m: Memory, b: Bus, c: Chunk)
    requires m.Valid()
  {
    m.Known() && c.offset < m.Space() &&
    var p := PlaceOf(m, c.offset);
    var needed := Selects(m, p.offset, Clip(p.offset, c.len)) && c.before.page != p.page;
    needed ==> !b.selectFails(c.before.calls + 2)
  }

  lemma SelectSuffices(m: Memory, b: Bus, c: Chunk)
    requires m.Valid() && c.len > 0 && (m.Known() ==> c.offset + c.len <= m.Space())
    requires AtOffset(m, b, c.before, c.offset, c.len).0 == Ok(c.bytes)
    ensures m.Known() && (SelectHolds(m, b, c) ==> ChunkFits(m, b, c))
  {
    ReadIsBlock(m, b, c);
    var p := PlaceOf(m, c.offset);
    if SelectHolds(m, b, c) && m.IsQsfp() && Register(m, b, c) != p.page {
      assert !Selects(m, p.offset, Clip(p.offset, c.len));
    }
  }

  // A chunk is right exactly when its register fits, which it does when a select it needs succeeds.
  ghost predicate ChunkOk(m: Memory, b: Bus, c: Chunk)
    requires m.Valid()
  {
    (Right(m, c.offset, c.bytes) <==> ChunkFits(m, b, c)) && (SelectHolds(m, b, c) ==> ChunkFits(m, b, c))
  }

  // The chunks of a request so far.
  ghost predicate Told(m: Memory, b: Bus, cs: seq<Chunk>, s: State, offset: nat, len: nat, page: byte)
    requires m.Valid()
  {
    Follows(m, b, cs, s, offset, len, page) && forall i :: 0 <= i < |cs| ==> ChunkOk(m, b, cs[i])
  }

  lemma ToldOneMore(m: Memory, b: Bus, cs: seq<Chunk>, s: State, offset: nat, len: nat, c: Chunk)
    requires m.Valid() && Told(m, b, cs, s, offset, len, c.before.page) && ChunkOk(m, b, c)
    requires m.Known() && c.offset == offset + |Filled(cs)| < m.Space() && c.len == len - |Filled(cs)|
    ensures Told(m, b, cs + [c], s, offset, len, Register(m, b, c)) && Filled(cs + [c]) == Filled(cs) + c.bytes
  {
    FollowsOneMore(m, b, cs, s, offset, len, c.before.page, c);
  }

  lemma ToldRightIff(m: Memory, b: Bus, cs: seq<Chunk>, s: State, offset: nat, len: nat, page: byte)
    requires m.Valid() && Told(m, b, cs, s, offset, len, page)
    ensures Right(m, offset, Filled(cs)) <==> AllFit(m, b, cs)
    ensures (forall i :: 0 <= i < |cs| ==> SelectHolds(m, b, cs[i])) ==> AllFit(m, b, cs)
  {
    forall i | 0 <= i < |cs|
      ensures Right(m, cs[i].offset, cs[i].bytes) <==> ChunkFits(m, b, cs[i])
    {
      assert ChunkOk(m, b, cs[i]);
    }
    FilledRightIff(m, b, cs, s, offset, len, page);
    if forall i :: 0 <= i < |cs| ==> SelectHolds(m, b, cs[i]) {
      forall i | 0 <= i < |cs| ensures ChunkFits(m, b, cs[i]) { assert ChunkOk(m, b, cs[i]) && SelectHolds(m, b, cs[i]); }
    }
  }

  // A QSFP whose page k is filled with the byte k.
  function PageNumbers(): (m: Memory)
    ensures m.Valid() && m.IsQsfp() && m.upper[0][0] == 0 && m.upper[1][0] == 1
  {
    Memory([QSFP] + seq(127, _ => 0), seq(256, (p: byte) requires p < 256 => seq(128, _ => p)), seq(256, _ => 0))
  }

  // ---- when the loop fails or ends early ----

  // One of the transactions from lo up to hi failed on the bus, or delivered nothing.
  ghost predicate Failed(b: Bus, lo: nat, hi: nat) { exists n :: lo <= n < hi && (b.idFails(n) || b.answers(n) == None) }

  ghost predicate CameEmpty(b: Bus, lo: nat, hi: nat) { exists n :: lo <= n < hi && b.answers(n) == Some(0) }

  // One read fails only with the bus or on an unknown module, and comes back empty only if the bus delivers nothing.
  lemma ReadEnds(m: Memory, b: Bus, s: State, offset: nat, len: nat)
    requires m.Valid() && (m.Known() ==> offset + len <= m.Space()) && len > 0
    ensures
      var (r, t) := AtOffset(m, b, s, offset, len);
      && (r.Err? ==> !b.present || !m.Known() || Failed(b, s.calls, t.calls))
      && (r.Ok? ==> m.Known() && (r.value == [] ==> CameEmpty(b, s.calls, t.calls)))
  {
    var (r, t) := AtOffset(m, b, s, offset, len);
    if r.Err? && b.present && m.Known() {
      assert b.idFails(s.calls) || b.idFails(s.calls + 1) || b.answers(t.calls - 1) == None;
    } else if r.Ok? && r.value == [] {
      assert b.answers(t.calls - 1) == Some(0);
    }
  }

  class Module {
    const m: Memory
    const bus: Bus
    var addr: nat
    var page: byte
    var calls: nat

    ghost predicate Valid()
      reads this
    {
      m.Valid() && addr == 0x50
    }

    ghost function View(): State
      reads this
    {
      State(page, calls)
    }

    constructor (m: Memory, page: byte, bus: Bus)
      requires m.Valid()
      ensures Valid() && this.m == m && this.bus == bus && View() == State(page, 0)
    {
      this.m, this.page, this.bus := m, page, bus;
      addr, calls := 0x50, 0;
    }

    // mqnic_read_module_eeprom: at most a block, and possibly fewer bytes than asked for.
    method ReadBlock(offset: nat, len: nat) returns (r: Outcome<seq<byte>>)
      requires m.Valid() && offset + len <= 256
      modifies this`calls
      ensures r == Block(m, bus, old(View()), addr, offset, len) && View() == Used(old(View()))
      ensures r.Ok? ==>
        && bus.present && bus.answers(old(calls)).Some?
        && |r.value| == Min(bus.answers(old(calls)).value, Min(len, BLOCK_MAX))
        && forall i :: 0 <= i < |r.value| ==> r.value[i] == m.Shown(addr, page, offset + i)
    {
      var n := calls;
      calls := calls + 1;
      if !bus.present {
        return Err(Invalid);
      }
      var len' := if len > BLOCK_MAX then BLOCK_MAX else len;
      match bus.answers(n)
      case None => return Err(BusError);
      case Some(k) =>
        var got := Min(k, len');
        return Ok(m.ShownBlock(addr, page, offset, got));
    }

    // mqnic_query_module_id: byte 0 at the client's address.
    method QueryId() returns (r: Outcome<byte>)
      requires Valid()
      modifies this`calls
      ensures r == IdRead(m, bus, old(View())) && View() == Used(old(View()))
    {
      var n := calls;
      calls := calls + 1;
      if !bus.present {
        return Err(Invalid);
      }
      if bus.idFails(n) {
        return Err(BusError);
      }
      return Ok(m.Shown(addr, page, 0));
    }

    // Writing byte 127; the driver does not look at the result.
    method SelectPage(d: byte)
      requires Valid()
      modifies this`calls, this`page
      ensures View() == AfterSelect(bus, old(View()), d)
      ensures bus.present && !bus.selectFails(old(calls)) ==> page == d
    {
      var n := calls;
      calls := calls + 1;
      if bus.present && !bus.selectFails(n) {
        page := d;
      }
    }

    // mqnic_query_module_eeprom_by_page; the client's address is put back.
    method QueryByPage(i2c: nat, page: nat, bank: nat, offset: nat, len: nat) returns (r: Outcome<seq<byte>>)
      requires Valid() && offset + len <= 256
      modifies this
      ensures Valid() && (r, View()) == ByPage(m, bus, old(View()), i2c, page, bank, offset, len)
      ensures r.Ok? ==>
        && |r.value| <= Min(len, BLOCK_MAX) && m.Known() && !BadPlace(m, i2c, page, bank)
        && (forall i :: 0 <= i < |r.value| ==> r.value[i] == m.Shown(i2c, this.page, offset + i))
        // the register is right whenever the upper half is read, unless the select is lost
        && (Selects(m, offset, len) && !bus.selectFails(old(calls) + 1) ==> this.page == page)
    {
      var id := QueryId();
      if id.Err? {
        return Err(id.error);
      }
      if id.value == SFP {
        if page > 0 || bank > 0 {
          return Err(Invalid);
        }
        if i2c != 0x50 && i2c != 0x51 {
          return Err(Invalid);
        }
      } else if id.value == QSFP || id.value == QSFP_PLUS || id.value == QSFP28 {
        if page > 3 || bank > 0 {
          return Err(Invalid);
        }
        if i2c != 0x50 {
          return Err(Invalid);
        }
        if offset + len >= 128 {
          SelectPage(page);
        }
      } else {
        return Err(Invalid);
      }
      var orig := addr;
      addr := i2c;
      r := ReadBlock(offset, len);
      addr := orig;
    }

    // mqnic_query_module_eeprom: the linear offset becomes a place, clipped at the end of its page.
    method QueryLinear(offset: nat, len: nat) returns (r: Outcome<seq<byte>>)
      requires Valid() && (m.Known() ==> offset < m.Space()) && len > 0
      modifies this
      ensures Valid() && (r, View()) == AtOffset(m, bus, old(View()), offset, len)
      // the bytes are the linear ones exactly when the register fits at the read
      ensures r.Ok? ==>
        && m.Known() && |r.value| <= len && offset + |r.value| <= m.Space()
        && PlaceOf(m, offset).offset + |r.value| <= 256
        && (Right(m, offset, r.value) <==> PageFits(m, offset, |r.value|, page))
    {
      var id := QueryId();
      if id.Err? {
        return Err(id.error);
      }
      var i2c, page, at := 0x50, 0, offset;
      if id.value == SFP {
        if offset >= 256 {
          at, i2c := offset - 256, 0x51;
        }
      } else if id.value == QSFP || id.value == QSFP_PLUS || id.value == QSFP28 {
        if offset >= 256 {
          page := 1 + (offset - 256) / 128;
          at := offset - page * 128;
        }
      } else {
        return Err(Invalid);
      }
      assert Place(i2c, page, at) == PlaceOf(m, offset);
      var len' := if at + len > 256 then 256 - at else len;
      r := QueryByPage(i2c, page, 0, at, len');
      if r.Ok? {
        BlockRightIff(m, offset, |r.value|, this.page);
        assert r.value == m.ShownBlock(i2c, this.page, at, |r.value|);
      }
    }

    /** mqnic_get_module_eeprom: the loop ends, and what it fills is the linear space from offset on, byte 127 of a
        QSFP module excepted, exactly when the page register fits at each of its reads cs; in particular when every
        select that has to change it succeeds. It fills all unless a read came back empty. The driver's result is 0;
        the number of bytes filled is given here in its place. */
    method GetModuleEeprom(offset: nat, data: array<byte>) returns (r: Outcome<nat>, ghost cs: seq<Chunk>)
      requires Valid() && (m.Known() ==> offset + data.Length <= m.Space())
      modifies this, data
      ensures Valid()
      ensures data.Length == 0 ==> r == Err(Invalid)
      ensures r.Err? ==> data.Length == 0 || !bus.present || !m.Known() || Failed(bus, old(calls), calls)
      ensures r.Ok? ==>
        && m.Known() && r.value <= data.Length && data[..r.value] == Filled(cs)
        && Follows(m, bus, cs, old(View()), offset, data.Length, page)
        && (Right(m, offset, data[..r.value]) <==> AllFit(m, bus, cs))
        && ((forall i :: 0 <= i < |cs| ==> SelectHolds(m, bus, cs[i])) ==> Right(m, offset, data[..r.value]))
        && (forall k :: r.value <= k < data.Length ==> data[k] == 0)
        && (r.value < data.Length ==> CameEmpty(bus, old(calls), calls))
    {
      if data.Length == 0 {
        return Err(Invalid), [];
      }
      Clear(data);
      r, cs := FillChunks(offset, data);
      if r.Ok? {
        ToldRightIff(m, bus, cs, old(View()), offset, data.Length, page);
      }
    }

    // The loop over chunks.
    method FillChunks(offset: nat, data: array<byte>) returns (r: Outcome<nat>, ghost cs: seq<Chunk>)
      requires Valid() && (m.Known() ==> offset + data.Length <= m.Space()) && data.Length > 0
      requires forall k :: 0 <= k < data.Length ==> data[k] == 0
      modifies this, data
      ensures Valid()
      ensures r.Err? ==> !bus.present || !m.Known() || Failed(bus, old(calls), calls)
      ensures r.Ok? ==>
        && m.Known() && r.value <= data.Length && data[..r.value] == Filled(cs)
        && Told(m, bus, cs, old(View()), offset, data.Length, page)
        && (forall k :: r.value <= k < data.Length ==> data[k] == 0)
        && (r.value < data.Length ==> CameEmpty(bus, old(calls), calls))
    {
      cs := [];
      ghost var s := View();
      var n, i := data.Length, 0;
      while i < n
        invariant i <= n == data.Length && Valid() && calls >= s.calls && (i > 0 ==> m.Known())
        invariant data[..i] == Filled(cs) && Told(m, bus, cs, s, offset, n, page)
        invariant forall k :: i <= k < n ==> data[k] == 0
        decreases n - i
      {
        var got;
        got, cs := Round(offset, n, i, cs, s);
        if got.Err? {
          return Err(got.error), cs;
        }
        if |got.value| == 0 {
          return Ok(i), cs;
        }
        CopyIn(data, i, got.value);
        i := i + |got.value|;
      }
      return Ok(i), cs;
    }

    // One round of the loop, after i bytes in the chunks cs.
    method Round(offset: nat, n: nat, i: nat, ghost cs: seq<Chunk>, ghost s: State) returns (r: Outcome<seq<byte>>, ghost more: seq<Chunk>)
      requires Valid() && (m.Known() ==> offset + n <= m.Space()) && i < n && i == |Filled(cs)|
      requires Told(m, bus, cs, s, offset, n, page)
      modifies this
      ensures Valid() && calls >= old(calls)
      ensures r.Err? ==> !bus.present || !m.Known() || Failed(bus, old(calls), calls)
      ensures r.Ok? ==>
        && m.Known() && Filled(more) == Filled(cs) + r.value && |r.value| <= n - i
        && Told(m, bus, more, s, offset, n, page) && (r.value == [] ==> CameEmpty(bus, old(calls), calls))
    {
      ghost var c;
      r, c := NextChunk(offset + i, n - i);
      more := cs;
      if r.Ok? {
        ToldOneMore(m, bus, cs, s, offset, n, c);
        more := cs + [c];
      }
    }

    method NextChunk(offset: nat, len: nat) returns (r: Outcome<seq<byte>>, ghost c: Chunk)
      requires Valid() && (m.Known() ==> offset + len <= m.Space()) && len > 0
      modifies this
      ensures Valid() && calls >= old(calls)
      ensures r.Err? ==> !bus.present || !m.Known() || Failed(bus, old(calls), calls)
      ensures r.Ok? ==>
        && m.Known() && c == Chunk(old(View()), offset, len, r.value) && |r.value| <= len && offset < m.Space()
        && page == Register(m, bus, c) && ChunkOk(m, bus, c)
        && (r.value == [] ==> CameEmpty(bus, old(calls), calls))
    {
      ghost var s := View();
      r := QueryLinear(offset, len);
      ReadEnds(m, bus, s, offset, len);
      c := Chunk(s, offset, len, if r.Ok? then r.value else []);
      if r.Ok? {
        ChunkRightIff(m, bus, c);
        SelectSuffices(m, bus, c);
      }
    }

    // memset
    method Clear(data: array<byte>)
      modifies data
      ensures forall k :: 0 <= k < data.Length ==> data[k] == 0
    {
      var z := 0;
      while z < data.Length
        invariant z <= data.Length && forall k :: 0 <= k < z ==> data[k] == 0
      {
        data[z] := 0;
        z := z + 1;
      }
    }

    // The bytes of a chunk go where it was asked for.
    method CopyIn(data: array<byte>, i: nat, bytes: seq<byte>)
      requires i + |bytes| <= data.Length
      modifies data
      ensures data[..i + |bytes|] == old(data[..i]) + bytes
      ensures forall k :: i + |bytes| <= k < data.Length ==> data[k] == old(data[k])
    {
      var j := 0;
      while j < |bytes|
        invariant j <= |bytes|
        invariant forall k :: 0 <= k < data.Length ==> data[k] == if i <= k < i + j then bytes[k - i] else old(data[k])
      {
        data[i + j] := bytes[j];
        j := j + 1;
      }
    }
  }

  // Every select is lost and the register stays at page 0: a byte of page 1 does not fit.
  lemma {:induction false} LostSelectsDoNotFit(m: Memory, b: Bus, cs: seq<Chunk>, s: State, page: byte)
    requires m == PageNumbers() && (forall n :: b.selectFails(n)) && s.page == 0
    requires Follows(m, b, cs, s, 256, 1, page)
    ensures page == 0 && (|Filled(cs)| == 1 ==> !AllFit(m, b, cs))
    decreases |cs|
  {
    if cs != [] {
      var most, c := cs[..|cs| - 1], cs[|cs| - 1];
      LostSelectsDoNotFit(m, b, most, s, c.before.page);
      assert cs == most + [c];
      FitsOneMore(m, b, most, c);
      if |Filled(most)| == 0 && |c.bytes| == 1 {
        assert PlaceOf(m, 256) == Place(0x50, 1, 128) && !SameByte(m, 0, 1, 128);
      }
    }
  }

  /** A lost select goes unnoticed: one byte read at 256, while the register is at page 0 and every select is lost,
      comes back without an error and is not the byte that is there. */
  method LostSelect() returns (r: Outcome<nat>, v: byte)
    ensures r == Ok(1) && v != PageNumbers().Linear(256)
  {
    var bus := Bus(true, _ => Some(1), _ => false, _ => true);
    var eeprom := new Module(PageNumbers(), 0, bus);
    var data := new byte[1];
    ghost var cs;
    r, cs := eeprom.GetModuleEeprom(256, data);
    assert r.Ok? && r.value == 1;
    LostSelectsDoNotFit(PageNumbers(), bus, cs, State(0, 0), eeprom.page);
    v := data[0];
    assert data[..1][0] == v;
  }
}

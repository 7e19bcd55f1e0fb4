/**
 The parallel RAM models: a byte range is split into words that are striped over segments, each written or read
 through its own lane. Here are the geometry, the splitting loops and the word access; StripedSystem has the lanes.
 */
module StripedRam {
  import opened Arith

  // segs segments (seg_count) of width bytes (seg_byte_lanes), rows words each (2^seg_addr_width).
  datatype Geometry = Geometry(segs: nat, width: nat, rows: nat)
  {
    predicate Valid() { segs > 0 && width > 0 && rows > 0 }

    function Words(): nat { rows * segs }

    function Size(): nat { Words() * width }
  }

  // int.bit_length
  function BitLength(n: nat): nat { if n == 0 then 0 else 1 + BitLength(n / 2) }

  // 2^address_width, the bound in the range check of read and write.
  function CheckedSpace(segs: nat, width: nat, segAddrWidth: nat): nat
    requires segs > 0 && width > 0
  {
    Pow2(segAddrWidth + BitLength(segs * width - 1))
  }

  ghost predicate IsPow2(n: nat) { exists b: nat :: n == Pow2(b) }

  // bit_length is the number of bits: n lies between the power below it and the power above it.
  lemma {:induction false} BitLengthBounds(n: nat)
    ensures n < Pow2(BitLength(n))
    ensures n > 0 ==> BitLength(n) > 0 && Pow2(BitLength(n) - 1) <= n
  {
    if n > 0 { BitLengthBounds(n / 2); }
  }

  lemma {:induction false} BitLengthOfOnes(b: nat)
    ensures BitLength(Pow2(b) - 1) == b
  {
    if b > 0 {
      BitLengthOfOnes(b - 1);
      assert (Pow2(b) - 1) / 2 == Pow2(b - 1) - 1;
    }
  }

  /** For every geometry the checked space covers the memory, and it is exactly the memory if and only if the number
      of bytes across the lanes is a power of two. */
  lemma CheckIsExactIff(segs: nat, width: nat, segAddrWidth: nat)
    requires segs > 0 && width > 0
    ensures
      var space, size := CheckedSpace(segs, width, segAddrWidth), Geometry(segs, width, Pow2(segAddrWidth)).Size();
      space >= size && (space == size <==> IsPow2(segs * width))
  {
    var lanes := segs * width;
    BytesAcross(segs, width);
    var above, rows := Pow2(BitLength(lanes - 1)), Pow2(segAddrWidth);
    BitLengthBounds(lanes - 1);
    Pow2Split(segAddrWidth, segAddrWidth + BitLength(lanes - 1));
    Associate(rows, segs, width);
    Scales(rows, above, lanes);
    if b: nat :| lanes == Pow2(b) { BitLengthOfOnes(b); }
  }

  lemma BytesAcross(segs: nat, width: nat)
    requires segs > 0 && width > 0
    ensures segs * width > 0
  {
    MultipleFar(segs, width);
  }

  lemma Scales(r: int, x: int, y: int)
    requires r > 0 && x >= y
    ensures r * x >= r * y && (r * x == r * y <==> x == y)
  {
    MultipleFar(x - y, r);
    assert (x - y) * r == r * x - r * y;
  }

  /** Otherwise the check lets the first address past the memory through, and the lanes write byte 0 instead. */
  lemma PastTheEndPassesIff(segs: nat, width: nat, segAddrWidth: nat)
    requires segs > 0 && width > 0
    ensures
      var g := Geometry(segs, width, Pow2(segAddrWidth));
      && (g.Size() + 1 <= CheckedSpace(segs, width, segAddrWidth) <==> !IsPow2(segs * width))
      && g.Valid() && Lane(g, g.Size(), 0) == 0 && Row(g, g.Size(), 0) == 0
  {
    var g := Geometry(segs, width, Pow2(segAddrWidth));
    CheckIsExactIff(segs, width, segAddrWidth);
    BytesAcross(segs, width);
    Associate(g.rows, segs, width);
    DivModUnique(g.Size(), width, g.Words(), 0);
    DivModUnique(g.Words(), segs, g.rows, 0);
    DivModUnique(0, segs, 0, 0);
    DivModUnique(g.Size(), segs * width, g.rows, 0);
    DivModUnique(g.rows, g.rows, 1, 0);
  }

  lemma Associate(a: int, b: int, c: int)
    ensures (a * b) * c == a * (b * c)
  {
  }

  datatype Cmd = Cmd(address: nat, data: seq<bv8>)
  {
    predicate Valid(g: Geometry) { address < g.Size() && address + |data| <= g.Size() }
  }

  // One lane's share of a command; word is what the lane writes, be its byte enables.
  datatype WriteOp = WriteOp(row: nat, word: seq<bv8>, be: seq<bool>)
  datatype Routed<T> = Routed(lane: nat, op: T)

  // ---- the words a byte range touches ----

  function Segments(g: Geometry, address: nat, len: nat): nat
    requires g.Valid()
  {
    (len + address % g.width + g.width - 1) / g.width
  }

  function EndOffset(g: Geometry, address: nat, len: nat): nat
    requires g.Valid()
  {
    (address + len - 1) % g.width + 1
  }

  // The bytes of the k-th word that belong to the range: start <= j < stop in the loops.
  function Start(g: Geometry, address: nat, k: nat): nat
    requires g.Valid()
  {
    if k == 0 then address % g.width else 0
  }

  function Stop(g: Geometry, address: nat, len: nat, k: nat): nat
    requires g.Valid()
  {
    if k == Segments(g, address, len) - 1 then EndOffset(g, address, len) else g.width
  }

  function Lane(g: Geometry, address: nat, k: nat): (r: nat)
    requires g.Valid()
    ensures r < g.segs
  {
    (address / g.width % g.segs + k) % g.segs
  }

  function FirstSeg(g: Geometry, address: nat): (r: nat)
    requires g.Valid()
    ensures r == Lane(g, address, 0)
  {
    ModAdd(address / g.width, 0, g.segs);
    address / g.width % g.segs
  }

  function Row(g: Geometry, address: nat, k: nat): nat
    requires g.Valid()
  {
    (address + k * g.width) / (g.segs * g.width) % g.rows
  }

  // The first byte the RAM uses for this word.
  function WordAddress(g: Geometry, lane: nat, row: nat): nat { (row * g.segs + lane) * g.width }

  lemma DivOf(x: int, a: int, b: int)
    requires a > 0 && b > 0
    ensures b * a > 0 && x / (b * a) == x / a / b
  {
    var q, r, s, t := x / a, x % a, x / a / b, x / a % b;
    TwoDigits(t, r, b, a);
    Regroup(s, b, t, a, r);
    assert b * a == a * b;
    DivModUnique(x, a * b, s, t * a + r);
  }

  lemma Below(x: int, m: int, n: int)
    requires 0 <= x < n * m && m > 0
    ensures 0 <= x / m < n
  {
    var d := x / m - n;
    assert x == x / m * m + x % m;
    assert d * m == x / m * m - n * m;
    assert d >= 0 ==> d * m >= 0;
  }

  // Lane and row of the k-th word are the word number split over the segments.
  lemma WordPlace(g: Geometry, address: nat, k: nat)
    requires g.Valid() && address / g.width + k < g.Words()
    ensures
      var w, lane, row := address / g.width + k, Lane(g, address, k), Row(g, address, k);
      lane == w % g.segs && row == w / g.segs < g.rows && row * g.segs + lane == w
  {
    var w := address / g.width + k;
    ModAdd(address / g.width, k, g.segs);
    AddMultiple(address, k, g.width);
    DivOf(address + k * g.width, g.width, g.segs);
    Below(w, g.segs, g.rows);
    DivModUnique(w / g.segs, g.rows, 0, w / g.segs);
    assert w == (w / g.segs) * g.segs + w % g.segs;
  }

  // The range ends in the last word: len bytes from offset o are S - 1 full words and EndOffset bytes.
  lemma LastWord(g: Geometry, address: nat, len: nat)
    requires g.Valid()
    ensures
      var s := Segments(g, address, len);
      len + address % g.width == if s == 0 then 0 else (s - 1) * g.width + EndOffset(g, address, len)
    ensures 1 <= EndOffset(g, address, len) <= g.width
  {
    var m, n := g.width, len + address % g.width;
    assert address == address / m * m + address % m;
    AddMultiple(n - 1, address / m, m);
    AddMultiple(n - 1, 1, m);
    assert n - 1 == (n - 1) / m * m + (n - 1) % m;
    if n == 0 { DivModUnique(n - 1, m, -1, m - 1); } else { assert (n - 1) / m >= 0; }
  }

  /** Byte j of word k lies between start and stop exactly when its address is in the range. */
  lemma InRange(g: Geometry, address: nat, len: nat, k: nat, j: nat)
    requires g.Valid() && k < Segments(g, address, len) && j < g.width
    ensures
      var a := (address / g.width + k) * g.width + j;
      && a - address == k * g.width + j - address % g.width
      && (Start(g, address, k) <= j < Stop(g, address, len, k) <==> address <= a < address + len)
  {
    var m, s, q := g.width, Segments(g, address, len), address / g.width;
    LastWord(g, address, len);
    assert address == q * m + address % m;
    assert (q + k) * m == q * m + k * m;
    if k > 0 { MultipleFar(k, m); }
    MultipleFar(s - 1 - k, m);
    assert (s - 1 - k) * m == (s - 1) * m - k * m;
  }

  lemma DivMod(x: int, m: int)
    requires m > 0
    ensures x == x / m * m + x % m && 0 <= x % m < m
  {
  }

  // Word numbers in plain integers: address q * m + o, a word x of it, and s words ending e bytes into the last.
  lemma WordCount(q: int, o: int, x: int, j: int, s: int, e: int, len: int, m: int)
    requires 0 <= o < m && 0 <= j < m && 0 <= s && 1 <= e <= m && len + o == if s == 0 then 0 else (s - 1) * m + e
    requires q * m + o <= x * m + j < q * m + o + len
    ensures 0 <= x - q < s
  {
    assert (x - q) * m == x * m - q * m;
    MultipleFar(x - q, m);
    assert (x - q - s) * m == (x - q) * m - s * m && (s - 1) * m == s * m - m;
    MultipleFar(x - q - s, m);
  }

  // Every address of the range lies in one of its words.
  lemma WordOfAddress(g: Geometry, address: nat, len: nat, a: nat)
    requires g.Valid() && address <= a < address + len
    ensures 0 <= a / g.width - address / g.width < Segments(g, address, len)
  {
    var m, s, e := g.width, Segments(g, address, len), EndOffset(g, address, len);
    LastWord(g, address, len);
    DivMod(a, m);
    DivMod(address, m);
    WordCount(address / m, address % m, a / m, a % m, s, e, len, m);
  }

  lemma WordLimit(q: int, o: int, k: int, s: int, e: int, len: int, m: int, words: int)
    requires m > 0 && 0 <= o < m && 0 <= k < s && 1 <= e && len + o == (s - 1) * m + e
    requires q * m + o < words * m && q * m + o + len <= words * m
    ensures q + k < words
  {
    assert (q + s - 1) * m == q * m + (s - 1) * m < words * m;
    assert (words - (q + s - 1)) * m == words * m - (q + s - 1) * m;
    MultipleFar(words - (q + s - 1), m);
  }

  // The words of a range inside the memory are words of the memory.
  lemma WordInMemory(g: Geometry, address: nat, len: nat, k: nat)
    requires g.Valid() && address < g.Size() && address + len <= g.Size() && k < Segments(g, address, len)
    ensures address / g.width + k < g.Words()
  {
    var q, o, s, e, m, words := address / g.width, address % g.width, Segments(g, address, len), EndOffset(g, address, len), g.width, g.Words();
    LastWord(g, address, len);
    DivMod(address, m);
    assert address < words * m && address + len <= words * m;
    WordLimit(q, o, k, s, e, len, m, words);
  }

  // ---- writing ----

  // Specification of the k-th operation of a write.
  function OpOf(g: Geometry, c: Cmd, k: nat): (r: Routed<WriteOp>)
    requires g.Valid() && k < Segments(g, c.address, |c.data|)
    ensures r.lane < g.segs && |r.op.word| == |r.op.be| == g.width
  {
    var lo, hi := Start(g, c.address, k), Stop(g, c.address, |c.data|, k);
    Routed(Lane(g, c.address, k),
           WriteOp(Row(g, c.address, k), seq(g.width, j requires 0 <= j < g.width => ByteOf(g, c, k, j)),
                   seq(g.width, j => lo <= j < hi)))
  }

  function ByteOf(g: Geometry, c: Cmd, k: nat, j: nat): bv8
    requires g.Valid() && k < Segments(g, c.address, |c.data|) && j < g.width
  {
    InRange(g, c.address, |c.data|, k, j);
    if Start(g, c.address, k) <= j < Stop(g, c.address, |c.data|, k)
    then c.data[k * g.width + j - c.address % g.width] else 0
  }

  function WriteOps(g: Geometry, c: Cmd): (r: seq<Routed<WriteOp>>)
    requires g.Valid()
  {
    seq(Segments(g, c.address, |c.data|), k requires 0 <= k < Segments(g, c.address, |c.data|) => OpOf(g, c, k))
  }

  predicate Hits(g: Geometry, r: Routed<WriteOp>, a: nat)
    requires g.Valid()
  {
    && r.op.row * g.segs + r.lane == a / g.width
    && a % g.width < |r.op.be| == |r.op.word| && r.op.be[a % g.width]
  }

  /** An operation of a write touches a byte exactly when the write covers it and the byte lies in the
      operation's word; it then carries the right byte of the data. */
  lemma OpHits(g: Geometry, c: Cmd, k: nat, a: nat)
    requires g.Valid() && c.Valid(g) && k < Segments(g, c.address, |c.data|)
    ensures Hits(g, OpOf(g, c, k), a)
       <==> c.address <= a < c.address + |c.data| && a / g.width == c.address / g.width + k
    ensures Hits(g, OpOf(g, c, k), a) ==> OpOf(g, c, k).op.word[a % g.width] == c.data[a - c.address]
  {
    var r, j := OpOf(g, c, k), a % g.width;
    WordInMemory(g, c.address, |c.data|, k);
    WordPlace(g, c.address, k);
    assert r.op.row * g.segs + r.lane == c.address / g.width + k;
    assert r.op.be[j] <==> Start(g, c.address, k) <= j < Stop(g, c.address, |c.data|, k);
    assert r.op.word[j] == ByteOf(g, c, k, j);
    if c.address / g.width + k == a / g.width {
      InRangeAt(g, c.address, |c.data|, k, a);
    }
  }

  lemma InRangeAt(g: Geometry, address: nat, len: nat, k: nat, a: nat)
    requires g.Valid() && k < Segments(g, address, len) && a / g.width == address / g.width + k
    ensures a - address == k * g.width + a % g.width - address % g.width
    ensures Start(g, address, k) <= a % g.width < Stop(g, address, len, k) <==> address <= a < address + len
  {
    var w, j := address / g.width + k, a % g.width;
    DivMod(a, g.width);
    InRange(g, address, len, k, j);
    assert a == w * g.width + j;
  }

  // The share of lane l in operations p up to q, in order.
  function Share<T>(s: seq<Routed<T>>, p: nat, q: nat, l: nat): seq<T>
    requires p <= q <= |s|
  {
    if p == q then [] else Share(s, p, q - 1, l) + if s[q - 1].lane == l then [s[q - 1].op] else []
  }

  class WriteMaster {
    const g: Geometry
    const queues: array<seq<WriteOp>>

    constructor (g: Geometry)
      requires g.Valid()
      ensures this.g == g && fresh(queues) && queues.Length == g.segs && forall l :: 0 <= l < g.segs ==> queues[l] == []
    {
      this.g := g;
      queues := new seq<WriteOp>[g.segs](_ => []);
    }

    // One round of the loop of _process_write: the bytes of word k, taken from the data at a running offset.
    method Operation(c: Cmd, k: nat, offset: nat) returns (op: WriteOp, offset': nat)
      requires g.Valid() && k < Segments(g, c.address, |c.data|) && offset == Offset(g, c.address, k)
      ensures op == OpOf(g, c, k).op
      ensures offset' == offset + Stop(g, c.address, |c.data|, k) - Start(g, c.address, k)
    {
      var start, stop := Start(g, c.address, k), Stop(g, c.address, |c.data|, k);
      LastWord(g, c.address, |c.data|);
      var word := seq(g.width, _ => 0);
      offset' := offset;
      var j := start;
      while j < stop
        invariant start <= j <= stop <= g.width == |word|
        invariant offset' == offset + j - start
        invariant forall i :: 0 <= i < g.width ==> word[i] == if i < j then ByteOf(g, c, k, i) else 0
      {
        InRange(g, c.address, |c.data|, k, j);
        word := word[j := c.data[offset']];
        offset', j := offset' + 1, j + 1;
      }
      op := WriteOp(Row(g, c.address, k), word, seq(g.width, j => start <= j < stop));
    }

    /** _process_write: every lane's queue gets its share of the operations of the write, in order. */
    method Accept(c: Cmd)
      requires g.Valid() && c.Valid(g) && queues.Length == g.segs
      modifies queues
      ensures forall l :: 0 <= l < g.segs ==> queues[l] == old(queues[l]) + Share(WriteOps(g, c), 0, |WriteOps(g, c)|, l)
    {
      var segments := Segments(g, c.address, |c.data|);
      var seg, offset, k := FirstSeg(g, c.address), 0, 0;
      ghost var ops, was := WriteOps(g, c), queues[..];
      while k < segments
        invariant k <= segments == |ops| && (k < segments ==> offset == Offset(g, c.address, k))
        invariant seg == Lane(g, c.address, k)
        invariant Queued(was, ops, k)
      {
        NextSegment(g, c.address, |c.data|, k);
        var op;
        op, offset := Operation(c, k, offset);
        Put(seg, op, was, ops, k);
        seg, k := (seg + 1) % g.segs, k + 1;
      }
    }

    // Every queue holds what it held and its share of the first k operations.
    ghost predicate Queued(was: seq<seq<WriteOp>>, ops: seq<Routed<WriteOp>>, k: nat)
      reads queues
    {
      && queues.Length == |was| && k <= |ops|
      && forall l :: 0 <= l < queues.Length ==> queues[l] == was[l] + Share(ops, 0, k, l)
    }

    // seg_write_queue[seg].put(op)
    method Put(seg: nat, op: WriteOp, ghost was: seq<seq<WriteOp>>, ghost ops: seq<Routed<WriteOp>>, ghost k: nat)
      requires seg < queues.Length && k < |ops| && ops[k] == Routed(seg, op) && Queued(was, ops, k)
      modifies queues
      ensures Queued(was, ops, k + 1)
    {
      queues[seg] := queues[seg] + [op];
    }
  }

  // The running offset at the start of word k, and how it and the segment move on.
  function Offset(g: Geometry, address: nat, k: nat): int
    requires g.Valid()
  {
    if k == 0 then 0 else k * g.width - address % g.width
  }

  lemma NextSegment(g: Geometry, address: nat, len: nat, k: nat)
    requires g.Valid() && k < Segments(g, address, len)
    ensures Lane(g, address, k + 1) == (Lane(g, address, k) + 1) % g.segs
    ensures Offset(g, address, k) >= 0
    ensures k + 1 < Segments(g, address, len) ==>
      Offset(g, address, k + 1) == Offset(g, address, k) + Stop(g, address, len, k) - Start(g, address, k)
  {
    ModAdd(address / g.width % g.segs + k, 1, g.segs);
    MultipleFar(k, g.width);
    assert (k + 1) * g.width == k * g.width + g.width;
  }

  lemma StartBeforeStop(g: Geometry, address: nat, len: nat, k: nat)
    requires g.Valid() && k < Segments(g, address, len)
    ensures Start(g, address, k) <= Stop(g, address, len, k) <= g.width
  {
    LastWord(g, address, len);
  }

  // ---- the memory behind the lanes ----

  datatype Run = Run(start: nat, stop: nat)

  predicate InRuns(runs: seq<Run>, j: int) { exists i :: 0 <= i < |runs| && runs[i].start <= j < runs[i].stop }

  // The loop of PsdpRamWrite that turns byte enables into runs; it looks at all byte lanes, not only the word's.
  method RunsOf(g: Geometry, be: seq<bool>) returns (runs: seq<Run>)
    requires g.Valid() && |be| == g.width
    ensures forall i :: 0 <= i < |runs| ==> runs[i].start < runs[i].stop <= g.width
    ensures forall j :: 0 <= j < g.width ==> (InRuns(runs, j) <==> be[j])
  {
    runs := [];
    var open: Option<nat> := None;
    var i := 0;
    assert g.segs * g.width >= g.width by { MultipleFar(g.segs, g.width); }
    while i < g.segs * g.width
      invariant i <= g.segs * g.width
      invariant open.Some? ==> open.value < i <= g.width && forall j :: open.value <= j < i ==> be[j]
      invariant forall n :: 0 <= n < |runs| ==> runs[n].start < runs[n].stop <= i && runs[n].stop <= g.width
      invariant forall j :: 0 <= j < i && j < g.width ==>
        ((InRuns(runs, j) || (open.Some? && open.value <= j)) <==> be[j])
    {
      ghost var before := runs;
      if i < g.width && be[i] {
        if open.None? {
          open := Some(i);
        }
      } else {
        if open.Some? {
          runs := runs + [Run(open.value, i)];
          assert runs[|before|] == Run(open.value, i);
          assert forall n :: 0 <= n < |before| ==> runs[n] == before[n];
        }
        assert forall j :: InRuns(before, j) ==> InRuns(runs, j);
        open := None;
      }
      i := i + 1;
    }
    if open.Some? {
      ghost var before := runs;
      runs := runs + [Run(open.value, i)];
      assert runs[|before|] == Run(open.value, i);
      assert forall j :: InRuns(before, j) ==> InRuns(runs, j) by {
        assert forall n :: 0 <= n < |before| ==> runs[n] == before[n];
      }
    }
  }

  // What one accepted operation does to the memory.
  function ApplyOp(g: Geometry, mem: seq<bv8>, r: Routed<WriteOp>): (m: seq<bv8>)
    requires g.Valid()
    ensures |m| == |mem|
  {
    seq(|mem|, a requires 0 <= a < |mem| => if Hits(g, r, a) then r.op.word[a % g.width] else mem[a])
  }

  // The bytes a word of the memory is made of.
  lemma WordBytes(g: Geometry, lane: nat, row: nat, a: nat)
    requires g.Valid()
    ensures
      var base := WordAddress(g, lane, row);
      && (row * g.segs + lane == a / g.width <==> base <= a < base + g.width)
      && (base <= a < base + g.width ==> a % g.width == a - base)
    ensures lane < g.segs && row < g.rows ==> WordAddress(g, lane, row) + g.width <= g.Size()
  {
    var w := row * g.segs + lane;
    if w * g.width <= a < w * g.width + g.width {
      DivModUnique(a, g.width, w, a - w * g.width);
    } else {
      assert a == a / g.width * g.width + a % g.width;
    }
    if lane < g.segs && row < g.rows {
      TwoDigits(row, lane, g.rows, g.segs);
      TwoDigits(w, g.width - 1, g.Words(), g.width);
    }
  }

  class Ram {
    const g: Geometry
    const mem: array<bv8>

    constructor (g: Geometry, init: seq<bv8>)
      requires g.Valid() && |init| == g.Size()
      ensures this.g == g && fresh(mem) && mem[..] == init
    {
      this.g := g;
      mem := new bv8[|init|](i requires 0 <= i < |init| => init[i]);
      new;
      assert mem[..] == init;
    }

    method Store(address: nat, data: seq<bv8>)
      requires address + |data| <= mem.Length
      modifies mem
      ensures forall a :: 0 <= a < mem.Length ==>
        mem[a] == if address <= a < address + |data| then data[a - address] else old(mem[a])
    {
      var i := 0;
      while i < |data|
        invariant i <= |data|
        invariant forall a :: 0 <= a < mem.Length ==>
          mem[a] == if address <= a < address + i then data[a - address] else old(mem[a])
      {
        mem[address + i] := data[i];
        i := i + 1;
      }
    }

    /** One word arriving at a lane: exactly the enabled bytes change, run by run. */
    method WriteWord(lane: nat, op: WriteOp)
      requires g.Valid() && mem.Length == g.Size() && lane < g.segs && op.row < g.rows
      requires |op.be| == |op.word| == g.width
      modifies mem
      ensures mem[..] == ApplyOp(g, old(mem[..]), Routed(lane, op))
    {
      var base := WordAddress(g, lane, op.row);
      ghost var was := mem[..];
      var runs := RunsOf(g, op.be);
      WordBytes(g, lane, op.row, 0);
      var n := 0;
      while n < |runs|
        invariant n <= |runs|
        invariant forall a :: 0 <= a < mem.Length ==>
          mem[a] == if base <= a < base + g.width && InRuns(runs[..n], a - base) then op.word[a - base] else was[a]
      {
        Store(base + runs[n].start, op.word[runs[n].start..runs[n].stop]);
        forall j: int
          ensures InRuns(runs[..n + 1], j) <==> InRuns(runs[..n], j) || runs[n].start <= j < runs[n].stop
        {
          OneMoreRun(runs, n, j);
        }
        n := n + 1;
      }
      assert runs[..n] == runs;
      forall a | 0 <= a < mem.Length
        ensures mem[a] == ApplyOp(g, was, Routed(lane, op))[a]
      {
        WordBytes(g, lane, op.row, a);
      }
    }

    // One word of a lane, as the read side fetches it.
    method ReadWord(lane: nat, row: nat) returns (word: seq<bv8>)
      requires g.Valid() && mem.Length == g.Size() && lane < g.segs && row < g.rows
      ensures word == Word(g, mem[..], lane, row)
    {
      WordBytes(g, lane, row, 0);
      DivModUnique(WordAddress(g, lane, row), mem.Length, 0, WordAddress(g, lane, row));
      var addr := WordAddress(g, lane, row) % mem.Length;
      word := mem[addr..addr + g.width];
    }
  }

  lemma OneMoreRun(runs: seq<Run>, n: nat, j: int)
    requires n < |runs|
    ensures InRuns(runs[..n + 1], j) <==> InRuns(runs[..n], j) || runs[n].start <= j < runs[n].stop
  {
    if InRuns(runs[..n], j) {
      var i :| 0 <= i < n && runs[..n][i].start <= j < runs[..n][i].stop;
      assert runs[..n + 1][i] == runs[..n][i];
    }
    if runs[n].start <= j < runs[n].stop { assert runs[..n + 1][n] == runs[n]; }
    if InRuns(runs[..n + 1], j) && !(runs[n].start <= j < runs[n].stop) {
      var i :| 0 <= i < n + 1 && runs[..n + 1][i].start <= j < runs[..n + 1][i].stop;
      assert runs[..n][i] == runs[i];
    }
  }

  // ---- reading ----

  function Word(g: Geometry, mem: seq<bv8>, lane: nat, row: nat): (word: seq<bv8>)
    requires g.Valid() && |mem| == g.Size() && lane < g.segs && row < g.rows
    ensures |word| == g.width
  {
    WordBytes(g, lane, row, 0);
    mem[WordAddress(g, lane, row)..WordAddress(g, lane, row) + g.width]
  }

  // at and since are bookkeeping: the address of the word, and how many writes were complete when the read was
  // asked for.
  datatype ReadOp = ReadOp(row: nat, at: nat, since: nat)
  datatype ReadCmd = ReadCmd(address: nat, len: nat, since: nat)
  {
    predicate Valid(g: Geometry) { address < g.Size() && address + len <= g.Size() }
  }

  function ReadOpOf(g: Geometry, c: ReadCmd, k: nat): Routed<ReadOp>
    requires g.Valid()
  {
    var lane, row := Lane(g, c.address, k), Row(g, c.address, k);
    Routed(lane, ReadOp(row, WordAddress(g, lane, row), c.since))
  }

  function ReadOps(g: Geometry, c: ReadCmd): (r: seq<Routed<ReadOp>>)
    requires g.Valid()
  {
    seq(Segments(g, c.address, c.len), (k: nat) => ReadOpOf(g, c, k))
  }

  // The reassembly loop over the bytes of one word.
  method AppendBytes(data: seq<bv8>, word: seq<bv8>, start: nat, stop: nat) returns (r: seq<bv8>)
    requires start <= stop <= |word|
    ensures r == data + word[start..stop]
  {
    r := data;
    var j := start;
    while j < stop
      invariant start <= j <= stop && r == data + word[start..j]
    {
      r := r + [word[j]];
      j := j + 1;
    }
  }

  // Offset k is what has been assembled before word k, and the whole range is after the last word.
  lemma AssembledLength(g: Geometry, address: nat, len: nat, k: nat)
    requires g.Valid() && k < Segments(g, address, len)
    ensures k + 1 == Segments(g, address, len) ==>
      Offset(g, address, k) + Stop(g, address, len, k) - Start(g, address, k) == len
  {
    LastWord(g, address, len);
  }

  lemma NothingToAssemble(g: Geometry, address: nat, len: nat)
    requires g.Valid() && Segments(g, address, len) == 0
    ensures len == 0
  {
    LastWord(g, address, len);
  }

  // Byte j of word k of a range is the byte at the address its place in the assembled data stands for.
  lemma AssembledByte(g: Geometry, address: nat, len: nat, k: nat, j: nat)
    requires g.Valid() && address < g.Size() && address + len <= g.Size() && k < Segments(g, address, len)
    requires Start(g, address, k) <= j < Stop(g, address, len, k)
    ensures WordAddress(g, Lane(g, address, k), Row(g, address, k)) + j
         == address + Offset(g, address, k) + j - Start(g, address, k)
  {
    WordInMemory(g, address, len, k);
    WordPlace(g, address, k);
    LastWord(g, address, len);
    InRange(g, address, len, k, j);
  }
}

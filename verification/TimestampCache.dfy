/**
 The completion timestamp cache: a completion carries 16 bits of seconds, the driver keeps the rest and reads the
 hardware clock again only when bits 8 to 15 no longer match.
 */
module TimestampCache {
  import opened Arith

  // A count of seconds, cut where the masks 0xff00 and ~0xff cut it; the operators work on each part by itself.
  datatype Seconds = Seconds(high: nat, mid: bv8, low: bv8)
  {
    function Value(): nat { high * 65536 + (mid as nat) * 256 + (low as nat) }

    // The 256-second block it lies in.
    function Block(): (nat, bv8) { (high, mid) }
  }

  // mqnic_ring: ts_s and ts_valid.
  datatype Cache = Cache(seconds: Seconds, valid: bool)

  const EMPTY := Cache(Seconds(0, 0, 0), false)

  // The 16 bits that a completion keeps of a second.
  function Truncated(t: Seconds): Seconds { Seconds(0, t.mid, t.low) }

  predicate Stale(c: Cache, cpl: Seconds) { !c.valid || c.seconds.mid ^ cpl.mid != 0 }

  function Refreshed(c: Cache, cpl: Seconds, phc: Option<Seconds>): Cache
  {
    if Stale(c, cpl) && phc.Some? then Cache(phc.value, true) else c
  }

  // ts_s |= ring->ts_s & ~0xff, for a completion that was made at second t.
  function Widened(c: Cache, t: Seconds): Seconds
  {
    Seconds(c.seconds.high, t.mid | c.seconds.mid, t.low)
  }

  class Ring {
    var cache: Cache

    constructor ()
      ensures cache == EMPTY
    {
      cache := EMPTY;
    }

    // mqnic_read_cpl_ts; phc is what the clock registers read now, None if there is no clock block.
    method ReadCplTs(cpl: Seconds, phc: Option<Seconds>) returns (seconds: Seconds)
      requires cpl.high == 0
      modifies this
      ensures cache == Refreshed(old(cache), cpl, phc) && seconds == Widened(cache, cpl)
      // the low byte is always that of the completion, and bits 8 to 15 are when there is a clock that keeps up
      ensures seconds.low == cpl.low && (cache.seconds.mid == cpl.mid ==> seconds.mid == cpl.mid)
    {
      if Stale(cache, cpl) {
        if phc.Some? {
          cache := Cache(phc.value, true);
        }
      }
      seconds := Seconds(cpl.high + cache.seconds.high, cpl.mid | cache.seconds.mid, cpl.low);
    }
  }

  lemma XorIsDifference(a: bv8, b: bv8)
    ensures a ^ b == 0 <==> a == b
  {
  }

  /** Without a refresh the full second comes out exactly when the cache is of its 256-second block. */
  lemma CachedExactIff(c: Cache, t: Seconds)
    requires !Stale(c, Truncated(t))
    ensures Widened(c, t) == t <==> c.seconds.Block() == t.Block()
  {
    XorIsDifference(c.seconds.mid, t.mid);
  }

  /** After a refresh with clock second p it comes out exactly when p agrees above bit 15 and sets no bit of 8 to
      15 that the true second has clear. */
  lemma RefreshedExactIff(p: Seconds, t: Seconds)
    ensures Widened(Cache(p, true), t) == t <==> p.high == t.high && p.mid & !t.mid == 0
    ensures p.Block() == t.Block() ==> Widened(Cache(p, true), t) == t
  {
    assert t.mid | p.mid == t.mid <==> p.mid & !t.mid == 0;
  }

  predicate Close(a: Seconds, b: Seconds) { -65280 <= a.Value() - b.Value() <= 65280 }

  // Two times at most 65280 seconds apart with the same bits 8 to 15 lie in the same block.
  lemma CloseSameBlock(a: Seconds, b: Seconds)
    requires Close(a, b) && a.mid == b.mid
    ensures a.Block() == b.Block()
  {
    assert a.low as nat < 256 && b.low as nat < 256;
  }

  // A completion with its true second, and what the clock would read when the driver handles it.
  datatype Event = Event(second: Seconds, phc: Seconds)

  function CacheAfter(es: seq<Event>): Cache
  {
    if es == [] then EMPTY else
    var e := es[|es| - 1];
    Refreshed(CacheAfter(es[..|es| - 1]), Truncated(e.second), Some(e.phc))
  }

  // What the driver reports for the last completion of a run.
  function Reported(es: seq<Event>): Seconds
    requires es != []
  {
    Widened(CacheAfter(es), es[|es| - 1].second)
  }

  // The clock is read within the block of the completion, and successive seconds are close.
  predicate Steady(es: seq<Event>)
  {
    && (forall k :: 0 <= k < |es| ==> es[k].phc.Block() == es[k].second.Block())
    && (forall k, j :: 0 <= k < |es| && j == k + 1 < |es| ==> Close(es[k].second, es[j].second))
  }

  // One completion: a cache of the last second's block becomes one of this second's block.
  lemma CacheFollows(c: Cache, last: Seconds, t: Seconds, p: Seconds)
    requires c.valid ==> c.seconds.Block() == last.Block() && Close(last, t)
    requires p.Block() == t.Block()
    ensures
      var d := Refreshed(c, Truncated(t), Some(p));
      d.valid && d.seconds.Block() == t.Block()
  {
    XorIsDifference(c.seconds.mid, t.mid);
    if c.valid && c.seconds.mid == t.mid {
      CloseSameBlock(last, t);
    }
  }

  lemma BlockWidens(c: Cache, t: Seconds)
    requires c.seconds.Block() == t.Block()
    ensures Widened(c, t) == t
  {
    assert t.mid | t.mid == t.mid;
  }

  /** Over every such run each 16-bit second is widened to the exact full second. */
  lemma {:induction false} EverySecondExact(es: seq<Event>)
    requires es != [] && Steady(es)
    ensures CacheAfter(es).valid && CacheAfter(es).seconds.Block() == es[|es| - 1].second.Block()
    ensures Reported(es) == es[|es| - 1].second
  {
    var most, e := es[..|es| - 1], es[|es| - 1];
    var last := if most == [] then e.second else es[|es| - 2].second;
    if most != [] {
      EverySecondExact(most);
    }
    CacheFollows(CacheAfter(most), last, e.second, e.phc);
    BlockWidens(CacheAfter(es), e.second);
  }

  /** The bound is sharp: of two seconds one more apart, 255 and 65536, the second is reported as 0. */
  lemma OneSecondFurtherFails()
    ensures
      var a, b := Seconds(0, 0, 255), Seconds(1, 0, 0);
      b.Value() - a.Value() == 65281 && Reported([Event(a, a), Event(b, b)]).Value() == 0
  {
    var a, b := Seconds(0, 0, 255), Seconds(1, 0, 0);
    var es := [Event(a, a), Event(b, b)];
    assert es[..1] == [es[0]] && es[..1][..0] == [];
    assert CacheAfter(es[..1]) == Cache(a, true);
    XorIsDifference(0, 0);
  }

  /** Without a clock block a second comes out exactly when it fits in 16 bits. */
  lemma NoClockExactIff(t: Seconds)
    ensures Widened(Refreshed(EMPTY, Truncated(t), None), t) == t <==> t.Value() < 65536
  {
    assert t.mid | 0 == t.mid;
    assert t.mid as nat < 256 && t.low as nat < 256;
  }
}

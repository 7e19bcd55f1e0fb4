/**
 Weighted fair queueing ranks: every packet gets a virtual finish time, packets are sorted by it, and the rank is
 the place in that order. Finish times are exact rationals here.
 */
module WfqRank {

  datatype Config = Config(qid: int, weight: nat, count: nat)
  datatype Entry = Entry(qid: int, num: nat, weight: nat, vft: real)

  ghost predicate ValidConfigs(cfgs: seq<Config>)
  {
    && (forall i :: 0 <= i < |cfgs| ==> cfgs[i].weight > 0)
    && (forall i, j :: 0 <= i < j < |cfgs| ==> cfgs[i].qid != cfgs[j].qid)
  }

  // The packet number num of a queue, with the finish time (num + 1) / weight.
  function EntryOf(c: Config, num: nat): Entry
    requires c.weight > 0
  {
    Entry(c.qid, num, c.weight, (num + 1) as real / c.weight as real)
  }

  function Packets(c: Config, m: nat): (r: seq<Entry>)
    requires c.weight > 0
  {
    seq(m, (num: nat) => EntryOf(c, num))
  }

  function Entries(cfgs: seq<Config>, n: nat): seq<Entry>
    requires n <= |cfgs| && forall i :: 0 <= i < |cfgs| ==> cfgs[i].weight > 0
  {
    if n == 0 then [] else Entries(cfgs, n - 1) + Packets(cfgs[n - 1], cfgs[n - 1].count)
  }

  lemma FinishTimeStep(c: Config, num: nat)
    requires c.weight > 0
    ensures num as real / c.weight as real + 1.0 / c.weight as real == EntryOf(c, num).vft
  {
  }

  // virtual_finish_times: the queues from n on have not started.
  ghost predicate Untouched(cfgs: seq<Config>, n: nat, times: map<int, real>)
  {
    forall i :: n <= i < |cfgs| ==> cfgs[i].qid in times && times[cfgs[i].qid] == 0.0
  }

  // The inner loop: the running finish time of one queue.
  method BuildQueue(c: Config, times: map<int, real>) returns (entries: seq<Entry>, times': map<int, real>)
    requires c.weight > 0 && c.qid in times && times[c.qid] == 0.0
    ensures entries == Packets(c, c.count)
    ensures times'.Keys == times.Keys && forall q :: q in times && q != c.qid ==> times'[q] == times[q]
  {
    entries, times' := [], times;
    var increment := 1.0 / c.weight as real;
    var num := 0;
    while num < c.count
      invariant num <= c.count && entries == Packets(c, num)
      invariant times'.Keys == times.Keys && times'[c.qid] == num as real / c.weight as real
      invariant forall q :: q in times && q != c.qid ==> times'[q] == times[q]
    {
      FinishTimeStep(c, num);
      var vft := times'[c.qid] + increment;
      times' := times'[c.qid := vft];
      entries := entries + [Entry(c.qid, num, c.weight, vft)];
      num := num + 1;
    }
  }

  /** The nested loops: the accumulated finish times are the multiples of 1 / weight. */
  method BuildEntries(cfgs: seq<Config>) returns (entries: seq<Entry>)
    requires ValidConfigs(cfgs)
    ensures entries == Entries(cfgs, |cfgs|)
  {
    entries := [];
    var times: map<int, real> := map c | c in cfgs :: c.qid := 0.0;
    var n := 0;
    while n < |cfgs|
      invariant n <= |cfgs| && entries == Entries(cfgs, n) && Untouched(cfgs, n, times)
    {
      var more;
      more, times := BuildQueue(cfgs[n], times);
      entries := entries + more;
      n := n + 1;
    }
  }

  // e is a packet of one of the queues.
  ghost predicate Listed(cfgs: seq<Config>, e: Entry)
    requires ValidConfigs(cfgs)
  {
    exists i :: 0 <= i < |cfgs| && e.num < cfgs[i].count && e == EntryOf(cfgs[i], e.num)
  }

  /** The entries are exactly the packets of the queues, each once. */
  lemma {:induction false} EntriesAreThePackets(cfgs: seq<Config>, n: nat, e: Entry)
    requires ValidConfigs(cfgs) && n <= |cfgs|
    ensures e in Entries(cfgs, n) <==> exists i :: 0 <= i < n && e.num < cfgs[i].count && e == EntryOf(cfgs[i], e.num)
    ensures forall p, q :: 0 <= p < q < |Entries(cfgs, n)| ==> Entries(cfgs, n)[p] != Entries(cfgs, n)[q]
  {
    if n > 0 {
      var c, most := cfgs[n - 1], Entries(cfgs, n - 1);
      EntriesAreThePackets(cfgs, n - 1, e);
      if e in Packets(c, c.count) { assert e == EntryOf(c, e.num) && e.num < c.count; }
      if e.num < c.count && e == EntryOf(c, e.num) { assert Packets(c, c.count)[e.num] == e; }
      forall p | 0 <= p < |most|
        ensures most[p].qid != c.qid
      {
        EntriesAreThePackets(cfgs, n - 1, most[p]);
        assert most[p] in most;
      }
    }
  }

  // ---- the order ----

  // The sort key (vft, qid, num), compared lexicographically.
  predicate Before(a: Entry, b: Entry)
  {
    a.vft < b.vft || (a.vft == b.vft && (a.qid < b.qid || (a.qid == b.qid && a.num < b.num)))
  }

  // What sorted() promises: a permutation of the entries in which no key comes before an earlier one.
  ghost predicate Sorted(cfgs: seq<Config>, s: seq<Entry>)
  {
    && ValidConfigs(cfgs)
    && multiset(s) == multiset(Entries(cfgs, |cfgs|))
    && (forall i, j :: 0 <= i < j < |s| ==> !Before(s[j], s[i]))
  }

  // The packets of all queues, each once, in the strict order of their keys.
  ghost predicate Ordered(cfgs: seq<Config>, s: seq<Entry>)
  {
    && ValidConfigs(cfgs)
    && (forall e :: e in s <==> Listed(cfgs, e))
    && (forall i, j :: 0 <= i < j < |s| ==> Before(s[i], s[j]))
  }

  function Total(cfgs: seq<Config>): nat
  {
    if cfgs == [] then 0 else Total(cfgs[..|cfgs| - 1]) + cfgs[|cfgs| - 1].count
  }

  lemma {:induction false} EntriesLength(cfgs: seq<Config>, n: nat)
    requires ValidConfigs(cfgs) && n <= |cfgs|
    ensures |Entries(cfgs, n)| == Total(cfgs[..n])
  {
    if n > 0 {
      EntriesLength(cfgs, n - 1);
      assert cfgs[..n][..n - 1] == cfgs[..n - 1];
    }
  }

  lemma {:induction false} OnceInDistinct(s: seq<Entry>, e: Entry)
    requires forall i, j :: 0 <= i < j < |s| ==> s[i] != s[j]
    ensures multiset(s)[e] <= 1
  {
    if s != [] {
      var n := |s| - 1;
      assert s == s[..n] + [s[n]];
      OnceInDistinct(s[..n], e);
      if e == s[n] { assert e !in s[..n]; }
    }
  }

  lemma TwiceInMultiset(s: seq<Entry>, i: nat, j: nat)
    requires i < j < |s| && s[i] == s[j]
    ensures multiset(s)[s[i]] >= 2
  {
    assert s == s[..j] + s[j..];
    assert s[..j][i] in multiset(s[..j]) && s[j..][0] in multiset(s[j..]);
  }

  // Two packets with equal keys are one packet.
  lemma KeysIdentify(cfgs: seq<Config>, a: Entry, b: Entry)
    requires ValidConfigs(cfgs) && Listed(cfgs, a) && Listed(cfgs, b) && a.qid == b.qid && a.num == b.num
    ensures a == b
  {
    var i :| 0 <= i < |cfgs| && a.num < cfgs[i].count && a == EntryOf(cfgs[i], a.num);
    var j :| 0 <= j < |cfgs| && b.num < cfgs[j].count && b == EntryOf(cfgs[j], b.num);
    assert cfgs[i].qid == cfgs[j].qid;
  }

  lemma SortedHasThePackets(cfgs: seq<Config>, s: seq<Entry>, e: Entry)
    requires Sorted(cfgs, s)
    ensures e in s <==> Listed(cfgs, e)
  {
    EntriesAreThePackets(cfgs, |cfgs|, e);
    assert e in s <==> e in multiset(s);
    assert e in Entries(cfgs, |cfgs|) <==> e in multiset(Entries(cfgs, |cfgs|));
  }

  lemma SortedIsStrict(cfgs: seq<Config>, s: seq<Entry>, i: nat, j: nat)
    requires Sorted(cfgs, s) && i < j < |s|
    ensures Before(s[i], s[j])
  {
    SortedHasThePackets(cfgs, s, s[i]);
    SortedHasThePackets(cfgs, s, s[j]);
    if s[i].qid == s[j].qid && s[i].num == s[j].num {
      KeysIdentify(cfgs, s[i], s[j]);
      TwiceInMultiset(s, i, j);
      EntriesAreThePackets(cfgs, |cfgs|, s[i]);
      OnceInDistinct(Entries(cfgs, |cfgs|), s[i]);
    }
  }

  /** Sorting gives every packet one place in a strict order, and there are as many places as packets. */
  lemma SortedIsOrdered(cfgs: seq<Config>, s: seq<Entry>)
    requires Sorted(cfgs, s)
    ensures Ordered(cfgs, s) && |s| == Total(cfgs)
  {
    forall e
      ensures e in s <==> Listed(cfgs, e)
    {
      SortedHasThePackets(cfgs, s, e);
    }
    forall i, j | 0 <= i < j < |s|
      ensures Before(s[i], s[j])
    {
      SortedIsStrict(cfgs, s, i, j);
    }
    EntriesLength(cfgs, |cfgs|);
    assert cfgs[..|cfgs|] == cfgs;
    assert |s| == |multiset(s)| && |Entries(cfgs, |cfgs|)| == |multiset(Entries(cfgs, |cfgs|))|;
  }

  // enumerate(ordered, start=1).
  function Rank(s: seq<Entry>, p: nat): nat
    requires p < |s|
  {
    p + 1
  }

  // Packets of a queue among the entries.
  function CountQueue(s: seq<Entry>, qid: int): (n: nat)
    ensures n <= |s|
  {
    if s == [] then 0 else CountQueue(s[..|s| - 1], qid) + if s[|s| - 1].qid == qid then 1 else 0
  }

  lemma CountNext(s: seq<Entry>, n: nat, qid: int)
    requires n < |s|
    ensures CountQueue(s[..n + 1], qid) == CountQueue(s[..n], qid) + if s[n].qid == qid then 1 else 0
  {
    assert s[..n + 1][..n] == s[..n];
  }

  lemma {:induction false} CountMonotone(s: seq<Entry>, m: nat, n: nat, qid: int)
    requires m <= n <= |s|
    ensures CountQueue(s[..m], qid) <= CountQueue(s[..n], qid)
  {
    if m < n {
      CountNext(s, n - 1, qid);
      CountMonotone(s, m, n - 1, qid);
    }
  }

  // Two packets of one queue belong to one configuration.
  lemma SameQueue(cfgs: seq<Config>, s: seq<Entry>, p: nat, q: nat) returns (i: nat)
    requires Ordered(cfgs, s) && p < |s| && q < |s| && s[p].qid == s[q].qid
    ensures i < |cfgs| && s[p] == EntryOf(cfgs[i], s[p].num) && s[q] == EntryOf(cfgs[i], s[q].num)
  {
    assert Listed(cfgs, s[p]) && Listed(cfgs, s[q]);
    i :| 0 <= i < |cfgs| && s[p].num < cfgs[i].count && s[p] == EntryOf(cfgs[i], s[p].num);
  }

  // Within one queue the finish time, and so the order, follows the packet number.
  lemma QueueOrder(cfgs: seq<Config>, s: seq<Entry>, p: nat, q: nat)
    requires Ordered(cfgs, s) && p < |s| && q < |s| && s[p].qid == s[q].qid
    ensures s[p].num < s[q].num <==> p < q
  {
    var i := SameQueue(cfgs, s, p, q);
    if s[p].num < s[q].num { FinishTimesIncrease(cfgs[i], s[p].num, s[q].num); }
    if s[q].num < s[p].num { FinishTimesIncrease(cfgs[i], s[q].num, s[p].num); }
    assert p < q ==> Before(s[p], s[q]);
    assert q < p ==> Before(s[q], s[p]);
  }

  lemma FinishTimesIncrease(c: Config, a: nat, b: nat)
    requires c.weight > 0 && a < b
    ensures EntryOf(c, a).vft < EntryOf(c, b).vft
  {
    Divide((a + 1) as real, (b + 1) as real, c.weight as real);
  }

  lemma Divide(x: real, y: real, w: real)
    requires w > 0.0 && x < y
    ensures x / w < y / w
  {
    assert x / w * w == x && y / w * w == y;
  }

  // The queue's own packet with this number is somewhere in the order.
  lemma PlaceOf(cfgs: seq<Config>, s: seq<Entry>, p: nat, num: nat) returns (q: nat)
    requires Ordered(cfgs, s) && p < |s| && num <= s[p].num
    ensures q < |s| && s[q].qid == s[p].qid && s[q].num == num
  {
    assert Listed(cfgs, s[p]);
    var i :| 0 <= i < |cfgs| && s[p] == EntryOf(cfgs[i], s[p].num) && s[p].num < cfgs[i].count;
    var e := EntryOf(cfgs[i], num);
    assert Listed(cfgs, e);
    q :| 0 <= q < |s| && s[q] == e;
  }

  /** The packets of a queue get their ranks in the order of their numbers: packet n is the one with n packets of
      its queue ranked before it. */
  lemma {:induction false} NumberIsCount(cfgs: seq<Config>, s: seq<Entry>, p: nat)
    requires Ordered(cfgs, s) && p < |s|
    ensures s[p].num == CountQueue(s[..p], s[p].qid)
    decreases p
  {
    if s[p].num > 0 {
      var q := PlaceOf(cfgs, s, p, s[p].num - 1);
      QueueOrder(cfgs, s, q, p);
      NumberIsCount(cfgs, s, q);
      CountNext(s, q, s[p].qid);
      NoneBetween(cfgs, s, q, p, q + 1);
    } else {
      NoneBefore(cfgs, s, p, p);
    }
  }

  // Between packets n and n + 1 of a queue there is no other of it.
  lemma {:induction false} NoneBetween(cfgs: seq<Config>, s: seq<Entry>, q: nat, p: nat, r: nat)
    requires Ordered(cfgs, s) && q < p < |s| && s[q].qid == s[p].qid && s[q].num + 1 == s[p].num && q + 1 <= r <= p
    ensures CountQueue(s[..p], s[p].qid) == CountQueue(s[..r], s[p].qid)
    decreases p - r
  {
    if r < p {
      if s[r].qid == s[p].qid {
        QueueOrder(cfgs, s, q, r);
        QueueOrder(cfgs, s, r, p);
      }
      CountNext(s, r, s[p].qid);
      NoneBetween(cfgs, s, q, p, r + 1);
    }
  }

  lemma {:induction false} NoneBefore(cfgs: seq<Config>, s: seq<Entry>, p: nat, r: nat)
    requires Ordered(cfgs, s) && p < |s| && s[p].num == 0 && r <= p
    ensures CountQueue(s[..r], s[p].qid) == 0
  {
    if r > 0 {
      if s[r - 1].qid == s[p].qid { QueueOrder(cfgs, s, r - 1, p); }
      CountNext(s, r - 1, s[p].qid);
      NoneBefore(cfgs, s, p, r - 1);
    }
  }

  // ---- ranks ----

  lemma PlacesDiffer(cfgs: seq<Config>, s: seq<Entry>, p: nat, q: nat)
    requires Ordered(cfgs, s) && p < |s| && q < |s| && p != q
    ensures s[p] != s[q]
  {
    assert Before(s[if p < q then p else q], s[if p < q then q else p]);
  }

  /** Ranks are a bijection from the packets onto 1..N, N being the number of packets: every packet has one rank,
      and every rank is a packet's. */
  lemma RanksAreABijection(cfgs: seq<Config>, s: seq<Entry>, e: Entry) returns (p: nat)
    requires Sorted(cfgs, s) && Listed(cfgs, e)
    ensures |s| == Total(cfgs) && forall q :: 0 <= q < |s| ==> Listed(cfgs, s[q])
    ensures p < |s| && s[p] == e && 1 <= Rank(s, p) <= Total(cfgs)
    ensures forall q :: 0 <= q < |s| && q != p ==> s[q] != e && Rank(s, q) != Rank(s, p)
  {
    SortedIsOrdered(cfgs, s);
    p := OnePlace(cfgs, s, e);
  }

  lemma OnePlace(cfgs: seq<Config>, s: seq<Entry>, e: Entry) returns (p: nat)
    requires Ordered(cfgs, s) && Listed(cfgs, e)
    ensures p < |s| && s[p] == e && forall q :: 0 <= q < |s| && q != p ==> s[q] != e
  {
    assert e in s;
    p :| 0 <= p < |s| && s[p] == e;
    forall q | 0 <= q < |s| && q != p
      ensures s[q] != e
    {
      PlacesDiffer(cfgs, s, p, q);
    }
  }

  /** Within a queue the ranks increase strictly with the packet number. */
  lemma RanksIncreaseInQueue(cfgs: seq<Config>, s: seq<Entry>, p: nat, q: nat)
    requires Sorted(cfgs, s) && p < |s| && q < |s| && s[p].qid == s[q].qid
    ensures s[p].num < s[q].num <==> Rank(s, p) < Rank(s, q)
  {
    SortedIsOrdered(cfgs, s);
    QueueOrder(cfgs, s, p, q);
  }

  // ---- fairness ----

  function Service(s: seq<Entry>, n: nat, c: Config): real
    requires n <= |s| && c.weight > 0
  {
    CountQueue(s[..n], c.qid) as real / c.weight as real
  }

  // The last packet of a queue among the first n, if there is one.
  lemma {:induction false} LastServed(s: seq<Entry>, n: nat, qid: int) returns (p: nat)
    requires n <= |s| && CountQueue(s[..n], qid) > 0
    ensures p < n && s[p].qid == qid && CountQueue(s[..p], qid) == CountQueue(s[..n], qid) - 1
  {
    assert n > 0;
    CountNext(s, n - 1, qid);
    p := n - 1;
    if s[n - 1].qid != qid {
      p := LastServed(s, n - 1, qid);
    }
  }

  lemma EntryAt(cfgs: seq<Config>, s: seq<Entry>, i: nat, p: nat)
    requires Ordered(cfgs, s) && i < |cfgs| && p < |s| && s[p].qid == cfgs[i].qid
    ensures s[p] == EntryOf(cfgs[i], s[p].num)
  {
    assert Listed(cfgs, s[p]);
  }

  /** One queue is never ahead of another with packets left by more than the other's 1 / weight. */
  lemma AheadByAtMost(cfgs: seq<Config>, s: seq<Entry>, n: nat, i: nat, j: nat)
    requires Ordered(cfgs, s) && n <= |s| && i < |cfgs| && j < |cfgs|
    requires CountQueue(s[..n], cfgs[j].qid) < cfgs[j].count
    ensures Service(s, n, cfgs[i]) - Service(s, n, cfgs[j]) <= 1.0 / cfgs[j].weight as real
  {
    var ci, cj := CountQueue(s[..n], cfgs[i].qid), CountQueue(s[..n], cfgs[j].qid);
    FinishTimeStep(cfgs[j], cj);
    if ci > 0 {
      var p := LastServed(s, n, cfgs[i].qid);
      NumberIsCount(cfgs, s, p);
      EntryAt(cfgs, s, i, p);
      var e := EntryOf(cfgs[j], cj);
      assert Listed(cfgs, e);
      var q := OnePlace(cfgs, s, e);
      NumberIsCount(cfgs, s, q);
      if q < n {
        CountNext(s, q, cfgs[j].qid);
        CountMonotone(s, q + 1, n, cfgs[j].qid);
      }
      assert Before(s[p], s[q]);
      assert s[p].vft == ci as real / cfgs[i].weight as real;
    } else {
      assert Service(s, n, cfgs[i]) == 0.0;
      NotNegative(cj, cfgs[j].weight);
    }
  }

  lemma NotNegative(a: nat, w: nat)
    requires w > 0
    ensures (a + 1) as real / w as real >= 0.0
  {
  }

  lemma Scale(a: real, b: real, m: real)
    requires m > 0.0
    ensures a < b <==> a * m < b * m
  {
    if a < b { assert (b - a) * m > 0.0; }
    if b < a { assert (a - b) * m > 0.0; }
  }

  lemma Cancel(x: real, v: real, w: real)
    requires v > 0.0
    ensures x / v * (v * w) == x * w
  {
    var a := x / v;
    assert a * v == x;
    assert a * (v * w) == (a * v) * w;
  }

  // Fractions with positive denominators compare as the crossed products.
  lemma CrossProducts(x: nat, v: nat, y: nat, w: nat)
    requires v > 0 && w > 0
    ensures x as real / v as real < y as real / w as real <==> x * w < y * v
    ensures x as real / v as real == y as real / w as real <==> x * w == y * v
  {
    var a, b, m := x as real / v as real, y as real / w as real, v as real * w as real;
    Positive(v, w);
    Cancel(x as real, v as real, w as real);
    Cancel(y as real, w as real, v as real);
    Scale(a, b, m);
    Scale(b, a, m);
    assert b * m == (y * v) as real && a * m == (x * w) as real;
  }

  lemma Positive(v: nat, w: nat)
    requires v > 0 && w > 0
    ensures v as real * w as real > 0.0 && v as real * w as real == w as real * v as real
  {
  }

  /** Which of two packets has the lower rank, in whole numbers: the one that finishes earlier at its queue's weight;
      when both finish together, the one of the queue with the lower number; within one queue, the earlier packet. */
  lemma RankRule(cfgs: seq<Config>, s: seq<Entry>, p: nat, q: nat, i: nat, j: nat)
    requires Sorted(cfgs, s) && p < |s| && q < |s| && i < |cfgs| && j < |cfgs|
    requires s[p].qid == cfgs[i].qid && s[q].qid == cfgs[j].qid
    ensures
      var x, y := (s[p].num + 1) * cfgs[j].weight, (s[q].num + 1) * cfgs[i].weight;
      Rank(s, p) < Rank(s, q)
      <==> x < y || (x == y && (cfgs[i].qid < cfgs[j].qid || (cfgs[i].qid == cfgs[j].qid && s[p].num < s[q].num)))
  {
    SortedIsOrdered(cfgs, s);
    EntryAt(cfgs, s, i, p);
    EntryAt(cfgs, s, j, q);
    CrossProducts(s[p].num + 1, cfgs[i].weight, s[q].num + 1, cfgs[j].weight);
    assert p < q ==> Before(s[p], s[q]);
    assert q < p ==> Before(s[q], s[p]);
  }

  /** Fairness at every rank: queues that both have packets left have had service, in packets per unit of weight,
      that differs by at most the larger of their 1 / weight. */
  lemma Fairness(cfgs: seq<Config>, s: seq<Entry>, n: nat, i: nat, j: nat)
    requires Sorted(cfgs, s) && n <= |s| && i < |cfgs| && j < |cfgs|
    requires CountQueue(s[..n], cfgs[i].qid) < cfgs[i].count && CountQueue(s[..n], cfgs[j].qid) < cfgs[j].count
    ensures
      var wi, wj := 1.0 / cfgs[i].weight as real, 1.0 / cfgs[j].weight as real;
      var d := Service(s, n, cfgs[i]) - Service(s, n, cfgs[j]);
      -(if wi > wj then wi else wj) <= d <= (if wi > wj then wi else wj)
  {
    SortedIsOrdered(cfgs, s);
    AheadByAtMost(cfgs, s, n, i, j);
    AheadByAtMost(cfgs, s, n, j, i);
  }

  /** A queue that has run out of packets has not run ahead either: its last finish time is not past the next one
      of any queue with packets left. */
  lemma DrainedQueueIsNotAhead(cfgs: seq<Config>, s: seq<Entry>, n: nat, i: nat, j: nat)
    requires Sorted(cfgs, s) && n <= |s| && i < |cfgs| && j < |cfgs|
    requires CountQueue(s[..n], cfgs[i].qid) == cfgs[i].count && CountQueue(s[..n], cfgs[j].qid) < cfgs[j].count
    ensures cfgs[i].count as real / cfgs[i].weight as real
         <= (CountQueue(s[..n], cfgs[j].qid) + 1) as real / cfgs[j].weight as real
  {
    SortedIsOrdered(cfgs, s);
    AheadByAtMost(cfgs, s, n, i, j);
    FinishTimeStep(cfgs[j], CountQueue(s[..n], cfgs[j].qid));
  }
}

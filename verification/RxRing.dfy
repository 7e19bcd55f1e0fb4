/**
 The receive descriptor ring: mqnic_process_rx_cq hands pages up, advances over empty slots and refills;
 short frames keep their page, and allocation may fail part of the way.
 */
module RxRing {
  import opened Arith
  import opened RingWindow

  const ETH_HLEN: nat := 14

  // A completion as the loop meets it; skb says whether allocating the socket buffer succeeds.
  datatype Completion = Completion(index: nat, len: nat, skb: bool)

  // What the loop does with one completion; Break ends the poll without using it up.
  datatype Verdict = Drop | HandUp | Break

  function Judge(pages: seq<Option<nat>>, lens: seq<nat>, c: Completion): Verdict
    requires |pages| == |lens| > 0
  {
    var k := c.index % |pages|;
    if Min(c.len, lens[k]) < ETH_HLEN then Drop
    else if pages[k].None? || !c.skb then Break
    else HandUp
  }

  datatype Outcome = Outcome(pages: seq<Option<nat>>, count: nat, slots: seq<nat>)

  // The completion loop: how many completions it uses and which slots it empties, in order.
  function Consume(pages: seq<Option<nat>>, lens: seq<nat>, cpls: seq<Completion>): Outcome
    requires |pages| == |lens| > 0
    decreases |cpls|
  {
    if cpls == [] then Outcome(pages, 0, []) else
    match Judge(pages, lens, cpls[0])
    case Break => Outcome(pages, 0, [])
    case Drop => var r := Consume(pages, lens, cpls[1..]); r.(count := r.count + 1)
    case HandUp =>
      var k := cpls[0].index % |pages|;
      var r := Consume(pages[k := None], lens, cpls[1..]);
      r.(count := r.count + 1, slots := [k] + r.slots)
  }

  /** Whatever the completions name, the loop empties only occupied slots, each at most once, and the ring
      stays consistent. */
  lemma {:induction false} ConsumeKeepsWindow(pages: seq<Option<nat>>, lens: seq<nat>, cpls: seq<Completion>,
                                              sent: nat, done: nat, freed: set<nat>, items: seq<nat>, log: seq<nat>)
      returns (freed': set<nat>, log': seq<nat>)
    requires |pages| == |lens| > 0 && Window(pages, sent, done, freed, items)
    requires NoDuplicates(log) && Elements(log) == freed
    ensures
      var r := Consume(pages, lens, cpls);
      && |r.pages| == |pages| && r.count <= |cpls|
      && Window(r.pages, sent, done, freed', items) && NoDuplicates(log') && Elements(log') == freed'
      && |log'| == |log| + |r.slots| && log'[..|log|] == log
      && (forall i :: 0 <= i < |r.slots| ==> r.slots[i] < |pages| && log'[|log| + i] == PositionOf(done, r.slots[i], |pages|))
    decreases |cpls|
  {
    freed', log' := freed, log;
    if cpls != [] {
      match Judge(pages, lens, cpls[0])
      case Break =>
      case Drop =>
        freed', log' := ConsumeKeepsWindow(pages, lens, cpls[1..], sent, done, freed, items, log);
      case HandUp =>
        var k := cpls[0].index % |pages|;
        var p := PositionOf(done, k, |pages|);
        Empty(pages, sent, done, freed, items, k);
        LogOneMore(log, p);
        freed', log' := ConsumeKeepsWindow(pages[k := None], lens, cpls[1..], sent, done, freed + {p}, items, log + [p]);
        assert log'[..|log|] == log'[..|log| + 1][..|log|] == log;
        assert log'[|log|] == log'[..|log| + 1][|log|] == p;
    }
  }

  datatype Prepared = Ready | NotProcessed | NoMemory | MapFailed

  // How many pages can be had before memory runs out or a mapping fails.
  function Got(supply: seq<nat>, mapFails: Option<nat>): (n: nat)
    ensures n <= |supply|
  {
    if mapFails.Some? then Min(mapFails.value, |supply|) else |supply|
  }

  // How an attempt to post so many pages ends.
  function Ending(missing: nat, supply: seq<nat>, mapFails: Option<nat>): Prepared
  {
    if missing <= Got(supply, mapFails) then Ready else if Got(supply, mapFails) < |supply| then MapFailed else NoMemory
  }

  // A slot with a page has its length; one without may never have had a page.
  ghost predicate Lengths(pages: seq<Option<nat>>, lens: seq<nat>, pageLen: nat) {
    && |lens| == |pages|
    && (forall k :: 0 <= k < |pages| && pages[k].Some? ==> lens[k] == pageLen)
    && (forall k :: 0 <= k < |pages| ==> lens[k] == pageLen || lens[k] == 0)
  }

  // ---- what a run of the loop amounts to ----

  // The slots after the first n completions have been used: those of full frames have handed their page up.
  function HandedUp(pages: seq<Option<nat>>, cpls: seq<Completion>, n: nat): (r: seq<Option<nat>>)
    requires |pages| > 0 && n <= |cpls|
    ensures |r| == |pages|
  {
    if n == 0 then pages
    else if cpls[n - 1].len < 14 then HandedUp(pages, cpls, n - 1)
    else HandedUp(pages, cpls, n - 1)[cpls[n - 1].index % |pages| := None]
  }

  // Completion n is used up: it is short, or its slot has a page and a socket buffer is had, or its slot never had one.
  ghost predicate Usable(pages: seq<Option<nat>>, lens: seq<nat>, cpls: seq<Completion>, n: nat)
    requires |lens| == |pages| > 0 && n < |cpls|
  {
    var c, k := cpls[n], cpls[n].index % |pages|;
    c.len < 14 || if HandedUp(pages, cpls, n)[k].Some? then c.skb else lens[k] == 0
  }

  // The loop uses up the completions before the first that is not usable, and stops there.
  ghost predicate StopsAt(pages: seq<Option<nat>>, lens: seq<nat>, cpls: seq<Completion>, count: nat)
    requires |lens| == |pages| > 0
  {
    && count <= |cpls| && (forall n :: 0 <= n < count ==> Usable(pages, lens, cpls, n))
    && (count < |cpls| ==> !Usable(pages, lens, cpls, count))
  }

  // The first completion used up, then the others.
  lemma {:induction false} HandedUpFirst(pages: seq<Option<nat>>, cpls: seq<Completion>, n: nat)
    requires |pages| > 0 && n < |cpls|
    ensures HandedUp(pages, cpls, n + 1) == HandedUp(HandedUp(pages, cpls, 1), cpls[1..], n)
  {
    if n > 0 {
      HandedUpFirst(pages, cpls, n - 1);
      assert cpls[1..][n - 1] == cpls[n];
    } else {
      assert HandedUp(pages, cpls, 0) == pages;
    }
  }

  lemma {:induction false} OnlyEmpties(pages: seq<Option<nat>>, lens: seq<nat>, cpls: seq<Completion>, pageLen: nat, n: nat)
    requires |pages| > 0 && n <= |cpls| && Lengths(pages, lens, pageLen)
    ensures Lengths(HandedUp(pages, cpls, n), lens, pageLen)
    ensures forall k :: 0 <= k < |pages| && HandedUp(pages, cpls, n)[k].Some? ==> HandedUp(pages, cpls, n)[k] == pages[k]
  {
    if n > 0 { OnlyEmpties(pages, lens, cpls, pageLen, n - 1); }
  }

  /** The loop, with pages that hold a frame: a completion of a posted slot for a full frame empties that slot and counts
      one, one of a short frame counts one and empties nothing, and the loop stops at the first other one. */
  lemma {:induction false} ConsumeStops(pages: seq<Option<nat>>, lens: seq<nat>, cpls: seq<Completion>, pageLen: nat)
    requires |pages| > 0 && Lengths(pages, lens, pageLen) && pageLen >= 14
    ensures
      var r := Consume(pages, lens, cpls);
      StopsAt(pages, lens, cpls, r.count) && r.pages == HandedUp(pages, cpls, r.count)
    decreases |cpls|
  {
    if cpls != [] && Usable(pages, lens, cpls, 0) {
      var next, rest := HandedUp(pages, cpls, 1), cpls[1..];
      FirstUsed(pages, lens, cpls, pageLen);
      ConsumeStops(next, lens, rest, pageLen);
      var count := Consume(next, lens, rest).count;
      HandedUpFirst(pages, cpls, count);
      forall n | 0 <= n < |rest| ensures Usable(next, lens, rest, n) == Usable(pages, lens, cpls, n + 1) {
        HandedUpFirst(pages, cpls, n);
        assert rest[n] == cpls[n + 1];
      }
      StopsAfter(pages, lens, cpls, count);
    }
  }

  lemma {:induction false} ConsumeKeepsLengths(pages: seq<Option<nat>>, lens: seq<nat>, cpls: seq<Completion>, pageLen: nat)
    requires |pages| > 0 && Lengths(pages, lens, pageLen)
    ensures |Consume(pages, lens, cpls).pages| == |pages| && Lengths(Consume(pages, lens, cpls).pages, lens, pageLen)
    decreases |cpls|
  {
    if cpls != [] {
      ConsumeKeepsLengths(pages, lens, cpls[1..], pageLen);
      ConsumeKeepsLengths(pages[cpls[0].index % |pages| := None], lens, cpls[1..], pageLen);
    }
  }

  lemma StopsAfter(pages: seq<Option<nat>>, lens: seq<nat>, cpls: seq<Completion>, count: nat)
    requires |lens| == |pages| > 0 && count < |cpls| && Usable(pages, lens, cpls, 0)
    requires StopsAt(HandedUp(pages, cpls, 1), lens, cpls[1..], count)
    requires forall n :: 0 <= n < |cpls[1..]| ==> Usable(HandedUp(pages, cpls, 1), lens, cpls[1..], n) == Usable(pages, lens, cpls, n + 1)
    ensures StopsAt(pages, lens, cpls, count + 1)
  {
    forall n | 0 <= n < count + 1 ensures Usable(pages, lens, cpls, n) {
      if n > 0 { assert Usable(HandedUp(pages, cpls, 1), lens, cpls[1..], n - 1); }
    }
    if count + 1 < |cpls| { assert !Usable(HandedUp(pages, cpls, 1), lens, cpls[1..], count); }
  }

  lemma FirstUsed(pages: seq<Option<nat>>, lens: seq<nat>, cpls: seq<Completion>, pageLen: nat)
    requires |pages| > 0 && Lengths(pages, lens, pageLen) && pageLen >= 14 && cpls != [] && Usable(pages, lens, cpls, 0)
    ensures Lengths(HandedUp(pages, cpls, 1), lens, pageLen)
    ensures
      var r, rest := Consume(pages, lens, cpls), Consume(HandedUp(pages, cpls, 1), lens, cpls[1..]);
      r.count == rest.count + 1 && r.pages == rest.pages
  {
    OnlyEmpties(pages, lens, cpls, pageLen, 1);
    assert HandedUp(pages, cpls, 0) == pages;
    var k := cpls[0].index % |pages|;
    if pages[k].None? { assert pages[k := None] == pages; }
  }

  lemma Amounts(pages: seq<Option<nat>>, lens: seq<nat>, cpls: seq<Completion>, pageLen: nat)
    requires |pages| == |lens| > 0
    ensures
      var r := Consume(pages, lens, cpls);
      Lengths(pages, lens, pageLen) ==>
        && |r.pages| == |pages| && Lengths(r.pages, lens, pageLen)
        && (pageLen >= 14 ==> StopsAt(pages, lens, cpls, r.count) && r.pages == HandedUp(pages, cpls, r.count))
  {
    if Lengths(pages, lens, pageLen) {
      ConsumeKeepsLengths(pages, lens, cpls, pageLen);
      if pageLen >= 14 { ConsumeStops(pages, lens, cpls, pageLen); }
    }
  }

  // The slot at the producer position is empty, and filling it keeps window and lengths.
  lemma PostKeeps(pages: seq<Option<nat>>, lens: seq<nat>, pageLen: nat, sent: nat, done: nat, freed: set<nat>, items: seq<nat>,
                  page: Option<nat>)
    requires Window(pages, sent, done, freed, items) && Lengths(pages, lens, pageLen) && sent < done + |pages|
    ensures
      var k := sent % |pages|;
      && pages[k] == None && Lengths(pages[k := page], lens[k := pageLen], pageLen)
      && (page.Some? ==> Window(pages[k := page], sent + 1, done, freed, items + [page.value]))
  {
    Fill(pages, sent, done, freed, items, if page.Some? then page.value else 0);
  }

  class RxRing {
    const logSize: nat
    const pageLen: nat
    const pages: array<Option<nat>>
    const lens: array<nat>
    var prodPtr: nat
    var consPtr: nat
    var doorbell: nat
    ghost var sent: nat
    ghost var done: nat
    ghost var freed: set<nat>
    ghost var items: seq<nat>
    ghost var log: seq<nat>

    function Size(): nat { Pow2(logSize) }

    ghost predicate Valid()
      reads this, pages, lens
    {
      && logSize <= 15 && pages.Length == lens.Length == Size() && Lengths(pages[..], lens[..], pageLen)
      && prodPtr == sent % U32 && consPtr == done % U32
      && Window(pages[..], sent, done, freed, items)
      && NoDuplicates(log) && Elements(log) == freed
    }

    constructor (logSize: nat, pageLen: nat)
      requires logSize <= 15
      ensures Valid() && fresh(pages) && fresh(lens) && sent == 0
    {
      this.logSize, this.pageLen := logSize, pageLen;
      pages := new Option<nat>[Pow2(logSize)](_ => None);
      lens := new nat[Pow2(logSize)](_ => 0);
      prodPtr, consPtr, doorbell := 0, 0, 0;
      sent, done, freed, items, log := 0, 0, {}, [], [];
      new;
      assert forall i :: 0 <= i < Size() ==> Holds(pages[..], i, 0, {}, []);
    }

    // mqnic_prepare_rx_desc; page is what the allocator returns, mapOk whether mapping it works.
    method PrepareDesc(index: nat, page: Option<nat>, mapOk: bool) returns (r: Prepared)
      requires index < pages.Length == lens.Length
      modifies pages, lens
      ensures r == if old(pages[index]).Some? then NotProcessed
                   else if page.None? then NoMemory else if !mapOk then MapFailed else Ready
      ensures pages[..] == if r.Ready? then old(pages[..])[index := page] else old(pages[..])
      ensures lens[..] == if r.Ready? then old(lens[..])[index := pageLen] else old(lens[..])
      ensures r.Ready? ==> old(pages[index]) == None && page.Some?
    {
      if pages[index].Some? {
        return NotProcessed;
      }
      if page.None? {
        return NoMemory;
      }
      if !mapOk {
        return MapFailed;
      }
      pages[index], lens[index] := page, pageLen;
      return Ready;
    }

    // One round of the refill loop: the slot of the producer pointer is never still occupied.
    method PostPage(page: Option<nat>, mapOk: bool) returns (r: Prepared)
      requires Valid() && sent < done + Size()
      modifies this`prodPtr, this`sent, this`items, pages, lens
      ensures Valid() && r == if page.None? then NoMemory else if !mapOk then MapFailed else Ready
      ensures sent == if r.Ready? then old(sent) + 1 else old(sent)
      ensures items == if r.Ready? then old(items) + [page.value] else old(items)
    {
      PointerArithmetic(sent, done, logSize);
      PostKeeps(pages[..], lens[..], pageLen, sent, done, freed, items, page);
      r := PrepareDesc(prodPtr % Size(), page, mapOk);
      if r.Ready? {
        ModAdd(sent, 1, U32);
        prodPtr := (prodPtr + 1) % U32;
        sent, items := sent + 1, items + [page.value];
      }
    }

    // The refill loop; page i comes from supply[i] while there is one, and maps unless i is mapFails.
    method PostPages(missing: nat, supply: seq<nat>, mapFails: Option<nat>) returns (r: Prepared)
      requires Valid() && sent + missing <= done + Size()
      modifies this`prodPtr, this`sent, this`items, pages, lens
      ensures Valid() && r == Ending(missing, supply, mapFails)
      ensures sent == old(sent) + Min(missing, Got(supply, mapFails)) && items == old(items) + supply[..sent - old(sent)]
    {
      r := Ready;
      var i := 0;
      while i < missing
        invariant i <= missing && i <= Got(supply, mapFails) && Valid() && r.Ready?
        invariant sent == old(sent) + i && items == old(items) + supply[..i]
      {
        r := PostPage(if i < |supply| then Some(supply[i]) else None, mapFails != Some(i));
        if !r.Ready? {
          break;
        }
        assert supply[..i + 1] == supply[..i] + [supply[i]];
        i := i + 1;
      }
    }

    // The ring misses this many pages.
    ghost function Missing(posted: nat): int
      reads this
    {
      Size() - (posted - done)
    }

    // mqnic_refill_rx_buffers: the branch for a page not yet processed is never taken.
    method Refill(supply: seq<nat>, mapFails: Option<nat>) returns (r: Prepared)
      requires Valid()
      modifies this`prodPtr, this`doorbell, this`sent, this`items, pages, lens
      ensures Valid() && Refilled(old(sent), old(items), old(doorbell), supply, mapFails, r)
    {
      PointerArithmetic(sent, done, logSize);
      var missing := Size() - (prodPtr - consPtr) % U32;
      if missing < 8 {
        return Ready;
      }
      r := PostPages(missing, supply, mapFails);
      ModOfMod(sent, 65536, 65536);
      doorbell := prodPtr % 65536;
    }

    // What a refill does to a ring with so many pages posted: nothing while fewer than eight are missing, else all that
    // are missing and can be had, and the device is told.
    ghost predicate Refilled(posted: nat, was: seq<nat>, bell: nat, supply: seq<nat>, mapFails: Option<nat>, r: Prepared)
      reads this
    {
      && posted <= sent && sent - posted <= |supply| && items == was + supply[..sent - posted]
      && (Missing(posted) < 8 ==> sent == posted && doorbell == bell && r == Ready)
      && (Missing(posted) >= 8 ==>
            && sent == posted + Min(Missing(posted), Got(supply, mapFails)) && doorbell == sent % 65536
            && r == Ending(Missing(posted), supply, mapFails))
    }

    // The completion loop of mqnic_process_rx_cq over the completions its phase test lets through.
    method HandUpPages(cpls: seq<Completion>) returns (count: nat)
      requires pages.Length == lens.Length == Size()
      modifies pages
      ensures
        var r := Consume(old(pages[..]), lens[..], cpls);
        count == r.count && pages[..] == r.pages
      ensures old(Lengths(pages[..], lens[..], pageLen)) ==> Lengths(pages[..], lens[..], pageLen)
      // frames fit their pages
      ensures old(Lengths(pages[..], lens[..], pageLen)) && pageLen >= 14 ==>
        StopsAt(old(pages[..]), lens[..], cpls, count) && pages[..] == HandedUp(old(pages[..]), cpls, count)
    {
      ghost var all, ls := Consume(pages[..], lens[..], cpls), lens[..];
      Amounts(pages[..], lens[..], cpls, pageLen);
      count := 0;
      while count < |cpls|
        invariant count <= |cpls| && lens[..] == ls
        invariant
          var rest := Consume(pages[..], ls, cpls[count..]);
          all.pages == rest.pages && all.count == count + rest.count
      {
        var c := cpls[count];
        var k := c.index % Size();
        assert cpls[count..][0] == c && cpls[count..][1..] == cpls[count + 1..];
        if Min(c.len, lens[k]) >= ETH_HLEN {
          if pages[k].None? || !c.skb {
            break;
          }
          ghost var before := pages[..];
          pages[k] := None;
          assert pages[..] == before[k := None];
        }
        count := count + 1;
      }
    }

    // The advance over slots without a page.
    method AdvanceConsumer()
      requires Valid()
      modifies this`consPtr, this`done
      ensures Valid() && done == Frontier(sent, old(done), freed)
    {
      var cons, d := AdvanceOver(pages, logSize, prodPtr, consPtr, sent, done, freed, items);
      consPtr, done := cons, d;
    }

    // mqnic_process_rx_cq: no contract on what the completions name is needed.
    method ProcessRxCq(cpls: seq<Completion>, supply: seq<nat>, mapFails: Option<nat>) returns (count: nat, r: Prepared)
      requires Valid()
      modifies this, pages, lens
      ensures Valid() && count == Consume(old(pages[..]), old(lens[..]), cpls).count
      ensures pageLen >= 14 ==> StopsAt(old(pages[..]), old(lens[..]), cpls, count)
      ensures old(freed) <= freed && |log| == |old(log)| + |Consume(old(pages[..]), old(lens[..]), cpls).slots|
      ensures log[..|old(log)|] == old(log)
      ensures done == Frontier(old(sent), old(done), freed)
      ensures Refilled(old(sent), old(items), old(doorbell), supply, mapFails, r) && sent <= done + Size()
    {
      count := HandUpPages(cpls);
      freed, log := ConsumeKeepsWindow(old(pages[..]), lens[..], cpls, sent, done, freed, items, log);
      assert forall i :: i in old(log) ==> i in log[..|old(log)|];
      AdvanceConsumer();
      r := Refill(supply, mapFails);
    }
  }

  // In every state between calls: slots outside the posted positions have no page, and at most size are posted.
  lemma UnpostedSlotsAreEmpty(pages: seq<Option<nat>>, sent: nat, done: nat, freed: set<nat>, items: seq<nat>, k: nat)
    requires Window(pages, sent, done, freed, items) && k < |pages| && PositionOf(done, k, |pages|) >= sent
    ensures pages[k] == None && sent - done <= |pages|
  {
    SlotMeaning(pages, sent, done, freed, items, k);
  }
}

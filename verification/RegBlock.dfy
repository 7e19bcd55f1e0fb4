/**
 The register-block list of a device: blocks chained by a next pointer in their header, walked once into an array
 that grows as needed, and searched by type and version.
 */
module RegBlock {
  import opened Arith

  // The header of the block at an offset: type, version and the offset of the next block.
  datatype Header = Header(kind: nat, version: nat, next: nat)
  type RegisterMap = nat -> Header

  // An entry of the list; at is the offset of the block, None the null pointer of the terminator.
  datatype Block = Block(kind: nat, version: nat, at: Option<nat>)

  const TERMINATOR := Block(0, 0, None)

  function Entry(regs: RegisterMap, offset: nat): Block { Block(regs(offset).kind, regs(offset).version, Some(offset)) }

  // ---- the chain, without any bookkeeping ----

  // The offset reached after k steps, and whether the chain ends there.
  function At(regs: RegisterMap, offset: nat, k: nat): nat
  {
    if k == 0 then offset else regs(At(regs, offset, k - 1)).next
  }

  predicate Ends(regs: RegisterMap, offset: nat, size: nat, k: nat)
  {
    (At(regs, offset, k) == 0 && k != 0) || At(regs, offset, k) >= size
  }

  // Distinct offsets below size: there are at most size of them.
  ghost predicate Distinct(s: seq<nat>, size: nat)
  {
    (forall i :: 0 <= i < |s| ==> s[i] < size) && forall i, j :: 0 <= i < j < |s| ==> s[i] != s[j]
  }

  lemma {:induction false} DistinctIsShort(s: seq<nat>, size: nat)
    requires Distinct(s, size)
    ensures |s| <= size
  {
    assert s != [] ==> s[0] < size;
    if size > 0 {
      if k :| 0 <= k < |s| && s[k] == size - 1 {
        DistinctIsShort(s[..k] + s[k + 1..], size - 1);
      } else {
        DistinctIsShort(s, size - 1);
      }
    }
  }

  // If an offset that was visited comes back before the chain ends, it never ends.
  lemma {:induction false} LoopNeverEnds(regs: RegisterMap, offset: nat, size: nat, i: nat, j: nat, k: nat)
      returns (m: nat)
    requires i < j && At(regs, offset, i) == At(regs, offset, j)
    requires forall n :: 0 <= n <= j ==> !Ends(regs, offset, size, n)
    ensures i <= m < j && At(regs, offset, k) == At(regs, offset, if k < i then k else m)
    ensures !Ends(regs, offset, size, k)
  {
    if k < j {
      m := if k < i then i else k;
      assert !Ends(regs, offset, size, k);
    } else {
      m := LoopNeverEnds(regs, offset, size, i, j, k - 1);
      m := if m + 1 == j then i else m + 1;
      assert !Ends(regs, offset, size, m) && !Ends(regs, offset, size, j);
    }
  }

  // ---- enumeration ----

  // Copies into a larger array, as krealloc does.
  method Grow(list: array<Block>, capacity: nat) returns (bigger: array<Block>)
    requires list.Length <= capacity
    ensures fresh(bigger) && bigger.Length == capacity && bigger[..list.Length] == list[..list.Length]
  {
    bigger := new Block[capacity](_ => TERMINATOR);
    var k := 0;
    while k < list.Length
      invariant k <= list.Length && bigger[..k] == list[..k]
    {
      bigger[k] := list[k];
      k := k + 1;
    }
  }

  // The array grows by four when it is full; the allocs-th allocation may fail.
  method MakeRoom(list: array<Block>, count: nat, allocs: nat, allocFails: nat -> bool)
      returns (ok: bool, room: array<Block>, more: nat)
    requires count <= list.Length
    ensures !ok ==> allocFails(allocs)
    ensures ok ==> count < room.Length && room[..count] == list[..count] && (room == list || fresh(room))
  {
    ok, room, more := true, list, allocs;
    if count >= list.Length {
      if allocFails(allocs) {
        return false, list, allocs;
      }
      more := allocs + 1;
      room := Grow(list, list.Length + 4);
      assert room[..count] == list[..count];
    }
  }

  // The list so far: the first offsets of the chain, all different, none of them its end.
  ghost predicate Walked(regs: RegisterMap, start: nat, size: nat, list: seq<Block>)
  {
    && (forall k :: 0 <= k < |list| ==> list[k] == Entry(regs, At(regs, start, k)) && !Ends(regs, start, size, k))
    && (forall i, j :: 0 <= i < j < |list| ==> list[i].at != list[j].at)
  }

  lemma WalkedIsShort(regs: RegisterMap, start: nat, size: nat, list: seq<Block>)
    requires Walked(regs, start, size, list)
    ensures |list| <= size
  {
    var s := seq(|list|, (k: nat) => At(regs, start, k));
    forall i, j | 0 <= i < j < |s|
      ensures s[i] != s[j]
    {
      assert list[i].at != list[j].at;
    }
    assert forall k :: 0 <= k < |s| ==> !Ends(regs, start, size, k);
    DistinctIsShort(s, size);
  }

  // The loop that looks for the offset among the blocks found.
  method Lookup(blocks: array<Block>, count: nat, offset: nat) returns (found: Option<nat>)
    requires count <= blocks.Length
    ensures match found
            case Some(k) => k < count && blocks[k].at == Some(offset)
            case None => forall k :: 0 <= k < count ==> blocks[k].at != Some(offset)
  {
    var k := 0;
    while k < count
      invariant k <= count && forall i :: 0 <= i < k ==> blocks[i].at != Some(offset)
    {
      if blocks[k].at == Some(offset) {
        return Some(k);
      }
      k := k + 1;
    }
    return None;
  }

  datatype Outcome = Listed | Loops | NoMemory

  /** mqnic_enumerate_reg_block_list; allocation number k fails if allocFails(k), and NULL is returned except for
      Listed. The list is the chain in order with a terminator; the loop error means the chain never ends. */
  method Enumerate(regs: RegisterMap, start: nat, size: nat, allocFails: nat -> bool)
      returns (r: Outcome, list: array<Block>, count: nat)
    ensures r.Listed? ==>
      && count < list.Length && Walked(regs, start, size, list[..count]) && Ends(regs, start, size, count)
      && list[count] == TERMINATOR
    ensures r.Loops? ==> forall k :: !Ends(regs, start, size, k)
    ensures r.NoMemory? ==> exists k :: allocFails(k)
  {
    r, count := NoMemory, 0;
    list := new Block[8](_ => TERMINATOR);
    var offset, allocs := start, 1;
    if allocFails(0) {
      return;
    }
    while true
      invariant count < list.Length && offset == At(regs, start, count)
      invariant Walked(regs, start, size, list[..count]) && count <= size && r.NoMemory?
      invariant fresh(list)
      decreases size - count
    {
      var end := Visit(regs, start, size, list, count, offset);
      if end.Some? {
        r := end.value;
        return;
      }
      offset := regs(offset).next;
      count := count + 1;
      var ok;
      ok, list, allocs := MakeRoom(list, count, allocs, allocFails);
      if !ok {
        return;
      }
    }
  }

  // One offset: the end of the chain, an offset already seen, or a block more.
  method Visit(regs: RegisterMap, start: nat, size: nat, list: array<Block>, count: nat, offset: nat) returns (end: Option<Outcome>)
    requires count < list.Length && offset == At(regs, start, count) && Walked(regs, start, size, list[..count])
    modifies list
    ensures end.Some? ==> end.value.Listed? || end.value.Loops?
    ensures end == Some(Listed) ==> Walked(regs, start, size, list[..count]) && Ends(regs, start, size, count)
                                    && list[count] == TERMINATOR
    ensures end == Some(Loops) ==> forall k :: !Ends(regs, start, size, k)
    ensures end == None ==> Walked(regs, start, size, list[..count + 1]) && count < size
  {
    ghost var walked := list[..count];
    list[count] := TERMINATOR;
    assert list[..count] == walked;
    if (offset == 0 && count != 0) || offset >= size {
      return Some(Listed);
    }
    var found := Lookup(list, count, offset);
    if found.Some? {
      assert walked[found.value].at == Some(offset);
      LoopForever(regs, start, size, found.value, count);
      return Some(Loops);
    }
    list[count] := Entry(regs, offset);
    assert list[..count + 1] == walked + [Entry(regs, offset)];
    WalkedOneMore(regs, start, size, walked);
    return None;
  }

  lemma WalkedOneMore(regs: RegisterMap, start: nat, size: nat, list: seq<Block>)
    requires Walked(regs, start, size, list) && !Ends(regs, start, size, |list|)
    requires forall k :: 0 <= k < |list| ==> list[k].at != Some(At(regs, start, |list|))
    ensures Walked(regs, start, size, list + [Entry(regs, At(regs, start, |list|))]) && |list| < size
  {
    WalkedIsShort(regs, start, size, list + [Entry(regs, At(regs, start, |list|))]);
  }

  lemma EndIsNotWalked(regs: RegisterMap, start: nat, size: nat, list: seq<Block>, n: nat)
    requires Walked(regs, start, size, list) && Ends(regs, start, size, n)
    ensures n >= |list|
  {
  }

  /** The outcome is decided by the chain: with memory the list is found exactly when the chain ends, and there is
      only one list it can be. */
  lemma OneListOnly(regs: RegisterMap, start: nat, size: nat, list: seq<Block>, other: seq<Block>)
    requires Walked(regs, start, size, list) && Ends(regs, start, size, |list|)
    requires Walked(regs, start, size, other) && Ends(regs, start, size, |other|)
    ensures other == list
  {
    EndIsNotWalked(regs, start, size, list, |other|);
    EndIsNotWalked(regs, start, size, other, |list|);
  }

  lemma LoopForever(regs: RegisterMap, offset: nat, size: nat, i: nat, j: nat)
    requires i < j && At(regs, offset, i) == At(regs, offset, j)
    requires forall n :: 0 <= n <= j ==> !Ends(regs, offset, size, n)
    ensures forall k :: !Ends(regs, offset, size, k)
  {
    forall k: nat
      ensures !Ends(regs, offset, size, k)
    {
      var m := LoopNeverEnds(regs, offset, size, i, j, k);
    }
  }

  // Two steps of the chain at the same offset, with no end up to the second.
  predicate Repeats(regs: RegisterMap, offset: nat, size: nat, i: nat, j: nat)
  {
    i < j && At(regs, offset, i) == At(regs, offset, j) && forall n :: 0 <= n <= j ==> !Ends(regs, offset, size, n)
  }

  /** The chain ends exactly when no offset comes back before the end; a return to offset 0 is an end. */
  lemma EndsIffNoRepeat(regs: RegisterMap, offset: nat, size: nat)
    ensures (exists k :: Ends(regs, offset, size, k)) <==> !(exists i, j :: Repeats(regs, offset, size, i, j))
  {
    if i, j :| Repeats(regs, offset, size, i, j) {
      LoopForever(regs, offset, size, i, j);
    } else if forall k :: !Ends(regs, offset, size, k) {
      var s := seq(size + 1, (k: nat) => At(regs, offset, k));
      forall k | 0 <= k < |s|
        ensures s[k] < size
      {
        assert !Ends(regs, offset, size, k);
      }
      forall i, j | 0 <= i < j < |s|
        ensures s[i] != s[j]
      {
        assert !Repeats(regs, offset, size, i, j);
      }
      DistinctIsShort(s, size);
    }
  }

  // ---- lookup ----

  // The places of the blocks of this type and, unless version is 0, of this version.
  ghost function Hits(list: seq<Block>, kind: nat, version: nat): set<nat>
  {
    set k: nat | k < |list| && list[k].kind == kind && (version == 0 || list[k].version == version)
  }

  lemma HitsNext(list: seq<Block>, n: nat, kind: nat, version: nat)
    requires n < |list|
    ensures n !in Hits(list[..n], kind, version)
    ensures Hits(list[..n + 1], kind, version)
         == Hits(list[..n], kind, version) + if n in Hits(list, kind, version) then {n} else {}
  {
  }

  /** mqnic_find_reg_block: the match with exactly index matches before it (a negative index counts as 0), or NULL
      exactly when there are not that many before the terminator. */
  method Find(list: array<Block>, count: nat, kind: nat, version: nat, index: int) returns (r: Option<nat>)
    requires count < list.Length && list[count].at == None && forall k :: 0 <= k < count ==> list[k].at.Some?
    ensures
      var n := if index > 0 then index else 0;
      match r
      case Some(k) =>
        && k < count && list[k].kind == kind && (version != 0 ==> list[k].version == version)
        && |Hits(list[..k], kind, version)| == n
      case None => |Hits(list[..count], kind, version)| <= n
  {
    var rb, left := 0, index;
    while list[rb].at.Some?
      invariant rb <= count
      invariant var n := if index > 0 then index else 0;
                (if left > 0 then left else 0) + |Hits(list[..rb], kind, version)| == n
      decreases count - rb
    {
      HitsNext(list[..], rb, kind, version);
      assert list[..][..rb] == list[..rb] && list[..][..rb + 1] == list[..rb + 1];
      if list[rb].kind == kind && (version == 0 || list[rb].version == version) {
        if left > 0 {
          left := left - 1;
        } else {
          return Some(rb);
        }
      }
      rb := rb + 1;
    }
    return None;
  }
}

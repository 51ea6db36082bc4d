/** The bounded priority queue of the relay: a sorted list under a mutex and a channel of wake-up tokens. */
module Scheduler {
  import opened Options
  import opened Collections
  import opened Ordering

  /** Points in time are numbers; this one stands for a time that was never set. */
  const ZERO_TIME: int := 0

  datatype Item = Item(
    id: string, priority: real, deadlineAt: int, enqueuedAt: int,
    expectedValue: real, expectedCost: real, expectedServiceMs: int, reason: string)

  datatype PushError = NoError | QueueClosed | StaleWork | QueueDisabled | QueueOverflow

  // ----- the order of items

  predicate BetterThan(a: Item, b: Item)
  {
    if a.priority != b.priority then a.priority > b.priority
    else if a.deadlineAt != b.deadlineAt then
      if a.deadlineAt == ZERO_TIME then false
      else if b.deadlineAt == ZERO_TIME then true
      else a.deadlineAt < b.deadlineAt
    else if a.enqueuedAt != b.enqueuedAt then a.enqueuedAt < b.enqueuedAt
    else Less(a.id, b.id)
  }

  /** What the order looks at. */
  predicate SameKey(a: Item, b: Item)
  {
    a.priority == b.priority && a.deadlineAt == b.deadlineAt && a.enqueuedAt == b.enqueuedAt && a.id == b.id
  }

  lemma BetterThanIsStrictWeak()
    ensures StrictWeak(BetterThan)
  {
    LessIsStrictWeak();
    forall x, y, z
      ensures BetterThan(x, z) ==> BetterThan(x, y) || BetterThan(y, z)
    {
      assert Less(x.id, z.id) ==> Less(x.id, y.id) || Less(y.id, z.id);
    }
    forall x, y
      ensures BetterThan(x, y) ==> !BetterThan(y, x)
    {
      assert Less(x.id, y.id) ==> !Less(y.id, x.id);
    }
  }

  /** The order is total: only items with equal keys are left undecided. */
  lemma BetterThanIsTotal(a: Item, b: Item)
    ensures BetterThan(a, b) || BetterThan(b, a) || SameKey(a, b)
    ensures SameKey(a, b) ==> !BetterThan(a, b) && !BetterThan(b, a)
  {
    LessTrichotomy(a.id, b.id);
  }

  /** The time `a` runs out is no later than that of `b`, where a time never set is the latest of all. */
  predicate DueNoLater(a: Item, b: Item)
  {
    b.deadlineAt == ZERO_TIME || (a.deadlineAt != ZERO_TIME && a.deadlineAt <= b.deadlineAt)
  }

  /** What it means that nothing speaks for `b` before `a`: field by field, from the weightiest. */
  ghost predicate HasPrecedence(a: Item, b: Item)
  {
    && a.priority >= b.priority
    && (a.priority == b.priority ==> DueNoLater(a, b))
    && (a.priority == b.priority && a.deadlineAt == b.deadlineAt ==> a.enqueuedAt <= b.enqueuedAt)
    && (a.priority == b.priority && a.deadlineAt == b.deadlineAt && a.enqueuedAt == b.enqueuedAt ==>
          a.id == b.id || Less(a.id, b.id))
  }

  lemma BetterThanMeans(a: Item, b: Item)
    ensures !BetterThan(b, a) <==> HasPrecedence(a, b)
  {
    LessTrichotomy(a.id, b.id);
  }

  /** A sorted queue hands out higher priorities first, then earlier deadlines, then longer waits, then smaller ids. */
  lemma SortedByPrecedence(items: seq<Item>)
    ensures Sorted(BetterThan, items) <==> forall i, j :: 0 <= i < j < |items| ==> HasPrecedence(items[i], items[j])
  {
    forall i, j | 0 <= i < j < |items|
      ensures !BetterThan(items[j], items[i]) <==> HasPrecedence(items[i], items[j])
    {
      BetterThanMeans(items[i], items[j]);
    }
  }

  // ----- one push, as a function of the list

  predicate Stale(item: Item, now: int)
  {
    item.deadlineAt == ZERO_TIME || now > item.deadlineAt
  }

  /** Puts `item` in front of the first listed item that is not better. */
  function Place(items: seq<Item>, item: Item): (r: seq<Item>)
    ensures |r| == |items| + 1 && multiset(r) == multiset(items) + multiset{item}
  {
    if items == [] || !BetterThan(items[0], item) then [item] + items
    else
      assert items == [items[0]] + items[1..];
      [items[0]] + Place(items[1..], item)
  }

  lemma {:induction false} PlaceAt(items: seq<Item>, item: Item, idx: nat)
    requires idx <= |items|
    requires forall i :: 0 <= i < idx ==> BetterThan(items[i], item)
    requires idx < |items| ==> !BetterThan(items[idx], item)
    ensures Place(items, item) == items[..idx] + [item] + items[idx..]
  {
    if idx > 0 {
      var rest := items[1..];
      PlaceAt(rest, item, idx - 1);
      assert Place(items, item) == [items[0]] + Place(rest, item);
      SplitShift(items, item, idx);
    } else {
      assert items[..0] + [item] + items[0..] == [item] + items;
    }
  }

  lemma SplitShift(items: seq<Item>, item: Item, idx: nat)
    requires 0 < idx <= |items|
    ensures [items[0]] + (items[1..][..idx - 1] + [item] + items[1..][idx - 1..]) ==
            items[..idx] + [item] + items[idx..]
  {
    assert items[1..][idx - 1..] == items[idx..];
    assert [items[0]] + items[1..][..idx - 1] == items[..idx];
  }

  lemma {:induction false} PlaceSorted(items: seq<Item>, item: Item)
    requires Sorted(BetterThan, items)
    ensures Sorted(BetterThan, Place(items, item))
  {
    BetterThanIsStrictWeak();
    if items != [] && BetterThan(items[0], item) {
      var rest := Place(items[1..], item);
      PlaceSorted(items[1..], item);
      forall j | 0 <= j < |rest|
        ensures !BetterThan(rest[j], items[0])
      {
        assert rest[j] in multiset(rest);
        assert rest[j] == item || rest[j] in items[1..];
      }
    } else if items != [] {
      forall j | 0 <= j < |items|
        ensures !BetterThan(items[j], item)
      {
        assert j == 0 || !BetterThan(items[j], items[0]);
      }
    }
  }

  datatype Outcome = Outcome(items: seq<Item>, evicted: Option<Item>, accepted: bool, error: PushError)

  /** What pushing `item` does to an open or closed queue with room for `cap` items. */
  function Offer(items: seq<Item>, cap: nat, closed: bool, item: Item, now: int): Outcome
  {
    if closed then Outcome(items, None, false, QueueClosed)
    else if Stale(item, now) then Outcome(items, None, false, StaleWork)
    else if cap == 0 then Outcome(items, None, false, QueueDisabled)
    else if |items| >= cap then
      if |items| == 0 then assert false; Outcome(items, None, false, QueueDisabled)
      else
        var worst := items[|items| - 1];
        if !BetterThan(item, worst) then Outcome(items, None, false, QueueOverflow)
        else Outcome(Place(items[..|items| - 1], item), Some(worst), true, NoError)
    else Outcome(Place(items, item), None, true, NoError)
  }

  lemma OfferKeepsOrder(items: seq<Item>, cap: nat, closed: bool, item: Item, now: int)
    requires Sorted(BetterThan, items) && |items| <= cap
    ensures Sorted(BetterThan, Offer(items, cap, closed, item, now).items)
    ensures |Offer(items, cap, closed, item, now).items| <= cap
  {
    PlaceSorted(items, item);
    if |items| > 0 {
      PlaceSorted(items[..|items| - 1], item);
    }
  }

  // ----- the best items are kept

  /** The offers of a run of pushes: an item and the time it was pushed. */
  type Offers = seq<(Item, int)>

  function Fresh(offers: Offers): seq<Item>
  {
    if offers == [] then []
    else
      var (item, now) := offers[|offers| - 1];
      Fresh(offers[..|offers| - 1]) + if Stale(item, now) then [] else [item]
  }

  /** What an initially empty queue holds after the offers, and what it turned away or evicted on the way. */
  ghost function AfterOffers(cap: nat, offers: Offers): (r: (seq<Item>, seq<Item>))
  {
    if offers == [] then ([], [])
    else
      var (items, dropped) := AfterOffers(cap, offers[..|offers| - 1]);
      var (item, now) := offers[|offers| - 1];
      var out := Offer(items, cap, false, item, now);
      (out.items,
       dropped + (if out.evicted.Some? then [out.evicted.value] else [])
               + (if out.error == QueueOverflow then [item] else []))
  }

  /** `kept` is sorted, full if anything was dropped, and nothing dropped is better than anything kept. */
  ghost predicate BestKept(cap: nat, all: seq<Item>, kept: seq<Item>, dropped: seq<Item>)
  {
    && multiset(kept) + multiset(dropped) == multiset(all)
    && Sorted(BetterThan, kept)
    && |kept| <= cap && (dropped != [] ==> |kept| == cap)
    && forall d, k :: d in dropped && k in kept ==> !BetterThan(d, k)
  }

  /** After any pushes, the queue is the sorted list of the best `cap` items that were not stale. */
  lemma {:induction false} QueueKeepsBest(cap: nat, offers: Offers)
    requires cap > 0
    ensures BestKept(cap, Fresh(offers), AfterOffers(cap, offers).0, AfterOffers(cap, offers).1)
  {
    if offers == [] {
    } else {
      var before := offers[..|offers| - 1];
      var (item, now) := offers[|offers| - 1];
      QueueKeepsBest(cap, before);
      OfferKeepsBest(cap, Fresh(before), AfterOffers(cap, before).0, AfterOffers(cap, before).1, item, now);
    }
  }

  lemma OfferKeepsBest(cap: nat, all: seq<Item>, kept: seq<Item>, dropped: seq<Item>, item: Item, now: int)
    requires cap > 0 && BestKept(cap, all, kept, dropped)
    ensures var out := Offer(kept, cap, false, item, now);
            BestKept(cap, all + if Stale(item, now) then [] else [item], out.items,
                     dropped + (if out.evicted.Some? then [out.evicted.value] else [])
                             + (if out.error == QueueOverflow then [item] else []))
  {
    if Stale(item, now) {
      assert dropped + [] + [] == dropped && all + [] == all;
    } else if |kept| < cap {
      OfferKeepsOrder(kept, cap, false, item, now);
      assert dropped + [] + [] == dropped;
    } else {
      OfferToFull(cap, all, kept, dropped, item, now);
    }
  }

  lemma OfferToFull(cap: nat, all: seq<Item>, kept: seq<Item>, dropped: seq<Item>, item: Item, now: int)
    requires cap > 0 && BestKept(cap, all, kept, dropped) && !Stale(item, now) && |kept| == cap
    ensures var out := Offer(kept, cap, false, item, now);
            BestKept(cap, all + [item], out.items,
                     dropped + (if out.evicted.Some? then [out.evicted.value] else [])
                             + (if out.error == QueueOverflow then [item] else []))
  {
    OfferKeepsOrder(kept, cap, false, item, now);
    var worst := kept[cap - 1];
    if BetterThan(item, worst) {
      assert dropped + [worst] + [] == dropped + [worst];
      Evicts(kept, dropped, item);
    } else {
      assert dropped + [] + [item] == dropped + [item];
      Refuses(kept, dropped, item);
    }
  }

  lemma WorstIsLast(kept: seq<Item>, k: Item)
    requires Sorted(BetterThan, kept) && k in kept
    ensures !BetterThan(kept[|kept| - 1], k)
  {
    BetterThanIsStrictWeak();
  }

  /** A refused item is no better than anything in the full queue. */
  lemma Refuses(kept: seq<Item>, dropped: seq<Item>, item: Item)
    requires kept != [] && Sorted(BetterThan, kept) && !BetterThan(item, kept[|kept| - 1])
    requires forall d, k :: d in dropped && k in kept ==> !BetterThan(d, k)
    ensures forall d, k :: d in dropped + [item] && k in kept ==> !BetterThan(d, k)
  {
    BetterThanIsStrictWeak();
    forall k | k in kept
      ensures !BetterThan(item, k)
    {
      WorstIsLast(kept, k);
    }
  }

  /** The evicted item is no better than what stays, and what was dropped before is no better than the newcomer. */
  lemma Evicts(kept: seq<Item>, dropped: seq<Item>, item: Item)
    requires kept != [] && Sorted(BetterThan, kept) && BetterThan(item, kept[|kept| - 1])
    requires forall d, k :: d in dropped && k in kept ==> !BetterThan(d, k)
    ensures var worst, after := kept[|kept| - 1], Place(kept[..|kept| - 1], item);
            && multiset(after) + multiset(dropped + [worst]) == multiset(kept) + multiset(dropped) + multiset{item}
            && forall d, k :: d in dropped + [worst] && k in after ==> !BetterThan(d, k)
  {
    BetterThanIsStrictWeak();
    var front, worst := kept[..|kept| - 1], kept[|kept| - 1];
    var after := Place(front, item);
    assert kept == front + [worst];
    forall d, k | d in dropped + [worst] && k in after
      ensures !BetterThan(d, k)
    {
      assert k in multiset(after);
      assert k == item || k in front;
      if k in front {
        WorstIsLast(kept, k);
      } else {
        assert d == worst || !BetterThan(d, worst);
      }
    }
  }

  ghost predicate DistinctKeys(s: seq<Item>)
  {
    forall i, j :: 0 <= i < j < |s| ==> !SameKey(s[i], s[j])
  }

  /** With distinct keys there is nothing left to chance: the queue is the front of the sorted offers. */
  lemma BestKeptIsSortedFront(cap: nat, all: seq<Item>, kept: seq<Item>, dropped: seq<Item>)
    requires BestKept(cap, all, kept, dropped) && DistinctKeys(all)
    ensures |kept| == if |all| <= cap then |all| else cap
    ensures kept == Sort(BetterThan, all)[..|kept|]
  {
    assert |multiset(kept) + multiset(dropped)| == |multiset(all)|;
    var tail := Sort(BetterThan, dropped);
    var whole, sorted := kept + tail, Sort(BetterThan, all);
    BetterThanIsStrictWeak();
    SortSorted(BetterThan, dropped);
    SortSorted(BetterThan, all);
    assert multiset(whole) == multiset(all);
    PermutationFacts(all, whole);
    PermutationFacts(all, sorted);
    PermutationFacts(dropped, tail);
    forall i, j | 0 <= i < j < |whole|
      ensures !BetterThan(whole[j], whole[i])
    {
      if i < |kept| <= j {
        assert tail[j - |kept|] in Members(tail) && whole[i] in kept;
      }
    }
    StrictFromDistinct(all, whole);
    StrictFromDistinct(all, sorted);
    forall x
      ensures x in whole <==> x in sorted
    {
      assert x in Members(whole) <==> x in Members(all);
      assert x in Members(sorted) <==> x in Members(all);
    }
    StrictlySortedUnique(BetterThan, whole, sorted);
  }

  lemma StrictFromDistinct(all: seq<Item>, s: seq<Item>)
    requires DistinctKeys(all) && multiset(all) == multiset(s) && Sorted(BetterThan, s)
    ensures StrictlySorted(BetterThan, s)
  {
    forall i, j | 0 <= i < j < |all|
      ensures all[i] != all[j]
    {
    }
    PermutationFacts(all, s);
    forall i, j | 0 <= i < j < |s|
      ensures BetterThan(s[i], s[j])
    {
      assert s[i] in Members(all) && s[j] in Members(all);
      var a :| 0 <= a < |all| && all[a] == s[i];
      var b :| 0 <= b < |all| && all[b] == s[j];
      assert a != b;
      BetterThanIsTotal(s[i], s[j]);
      assert !SameKey(all[if a < b then a else b], all[if a < b then b else a]);
    }
  }
}
